/** Elements of a queryable source as values with named properties, their
    static types, and the resolution of dotted property paths (`a.b.c`), as
    the string-path OrderBy does it with one property access per segment. */
module Values {
  import opened Wrappers
  import opened Keys

  /** The static type of a property: a scalar that can be ordered, or a
      record type with named properties. */
  datatype Schema = FlagType | NumType | TextType | RecordType(props: map<string, Schema>)

  /** A runtime value: a scalar key or a record of named property values. */
  datatype Value = Leaf(k: Key) | Node(fields: map<string, Value>)

  /** Whether a value has the given static type, all the way down. */
  predicate Conforms(v: Value, t: Schema)
  {
    match t
    case FlagType => v.Leaf? && v.k.Flag?
    case NumType => v.Leaf? && v.k.Num?
    case TextType => v.Leaf? && v.k.Text?
    case RecordType(props) =>
      v.Node? && v.fields.Keys == props.Keys &&
      forall p :: p in props ==> Conforms(v.fields[p], props[p])
  }

  /** The type of property `name` of type `t`, or None when `t` has no such
      property (a scalar has none). */
  function Member(t: Schema, name: string): (r: Option<Schema>)
  {
    if t.RecordType? && name in t.props then Some(t.props[name]) else None
  }

  /** Resolves a path segment by segment, each segment a property of the
      previous result, starting from `t`; None as soon as a segment is not a
      property. */
  function ResolvePath(t: Schema, path: seq<string>): Option<Schema>
    decreases |path|
  {
    if path == [] then Some(t)
    else match Member(t, path[0])
      case None => None
      case Some(u) => ResolvePath(u, path[1..])
  }

  /** The value a path reaches inside a value, or None. */
  function Lookup(v: Value, path: seq<string>): Option<Value>
    decreases |path|
  {
    if path == [] then Some(v)
    else if v.Node? && path[0] in v.fields then Lookup(v.fields[path[0]], path[1..])
    else None
  }

  /** The sort key a path yields for a value; a path that does not reach a
      scalar yields a fixed key (for well-typed elements this never happens,
      see LookupWellTyped). */
  function KeyAt(v: Value, path: seq<string>): Key
  {
    match Lookup(v, path)
    case Some(Leaf(k)) => k
    case _ => Num(0)
  }

  /** Resolving `p + q` is resolving `p` and then `q` from where `p` ends; in
      particular a path with an unresolvable prefix is unresolvable. */
  lemma {:induction false} ResolveAppend(t: Schema, p: seq<string>, q: seq<string>)
    ensures ResolvePath(t, p + q) ==
      match ResolvePath(t, p)
      case None => None
      case Some(u) => ResolvePath(u, q)
    decreases |p|
  {
    if p == [] {
      assert p + q == q;
    } else {
      assert (p + q)[0] == p[0] && (p + q)[1..] == p[1..] + q;
      match Member(t, p[0])
      case None =>
      case Some(u) => ResolveAppend(u, p[1..], q);
    }
  }

  /** A path that resolves against the type of a well-typed value reaches a
      value of the resolved type inside it. */
  lemma {:induction false} LookupWellTyped(v: Value, t: Schema, path: seq<string>)
    requires Conforms(v, t)
    requires ResolvePath(t, path).Some?
    ensures Lookup(v, path).Some? && Conforms(Lookup(v, path).value, ResolvePath(t, path).value)
    decreases |path|
  {
    if path != [] {
      var u := t.props[path[0]];
      LookupWellTyped(v.fields[path[0]], u, path[1..]);
    }
  }

  /** A path resolving to a scalar type yields, for a well-typed value, the
      key stored at that path. */
  lemma KeyAtWellTyped(v: Value, t: Schema, path: seq<string>)
    requires Conforms(v, t)
    requires ResolvePath(t, path).Some? && !ResolvePath(t, path).value.RecordType?
    ensures Lookup(v, path) == Some(Leaf(KeyAt(v, path)))
  {
    LookupWellTyped(v, t, path);
  }

  /** String.Split on one separator character: the pieces between
      separators, in order; there is always at least one piece. */
  function Split(s: string, sep: char): (r: seq<string>)
    ensures |r| >= 1
    ensures forall i :: 0 <= i < |r| ==> sep !in r[i]
  {
    if s == [] then [""]
    else
      var rest := Split(s[1..], sep);
      if s[0] == sep then [""] + rest
      else [[s[0]] + rest[0]] + rest[1..]
  }

  /** String.Join with one separator character. */
  function Join(parts: seq<string>, sep: char): string
    requires |parts| >= 1
    decreases |parts|
  {
    if |parts| == 1 then parts[0] else parts[0] + [sep] + Join(parts[1..], sep)
  }

  /** Splitting loses nothing: joining the pieces gives the string back. */
  lemma {:induction false} JoinSplit(s: string, sep: char)
    ensures Join(Split(s, sep), sep) == s
  {
    if s != [] {
      var rest := Split(s[1..], sep);
      JoinSplit(s[1..], sep);
      if s[0] == sep {
        assert Split(s, sep)[1..] == rest;
        assert s == [s[0]] + s[1..];
      } else {
        var r := Split(s, sep);
        assert r[0] == [s[0]] + rest[0];
        if |rest| == 1 {
          assert s == [s[0]] + s[1..];
        } else {
          assert r[1..] == rest[1..];
          assert Join(rest, sep) == rest[0] + [sep] + Join(rest[1..], sep);
          assert s == [s[0]] + s[1..];
        }
      }
    }
  }

  /** Splitting a join of separator-free pieces gives the pieces back. */
  lemma {:induction false} SplitJoin(parts: seq<string>, sep: char)
    requires |parts| >= 1
    requires forall i :: 0 <= i < |parts| ==> sep !in parts[i]
    ensures Split(Join(parts, sep), sep) == parts
    decreases |parts|, |parts[0]|
  {
    if |parts| == 1 {
      SplitNoSeparator(parts[0], sep);
    } else if parts[0] == [] {
      var tail := Join(parts[1..], sep);
      SplitJoin(parts[1..], sep);
      assert Join(parts, sep) == [sep] + tail;
      assert Join(parts, sep)[1..] == tail;
      assert parts == [""] + parts[1..];
    } else {
      var c := parts[0][0];
      var shorter := [parts[0][1..]] + parts[1..];
      assert shorter[1..] == parts[1..];
      SplitJoin(shorter, sep);
      assert Join(shorter, sep) == parts[0][1..] + [sep] + Join(parts[1..], sep);
      assert Join(parts, sep) == [c] + Join(shorter, sep);
      assert Join(parts, sep)[1..] == Join(shorter, sep);
      assert parts[0] == [c] + parts[0][1..];
      assert parts == [[c] + shorter[0]] + shorter[1..];
    }
  }

  lemma {:induction false} SplitNoSeparator(s: string, sep: char)
    requires sep !in s
    ensures Split(s, sep) == [s]
  {
    if s != [] {
      SplitNoSeparator(s[1..], sep);
      assert s == [s[0]] + s[1..];
    }
  }
}
