/** Ordering semantics of the OrderBy/ThenBy extensions
    (Basic.Generic.Repositories/Helpers/OrderByExtensions.cs).

    An ordered query is its source together with its sort keys, primary key
    first; enumerating it yields the source stably sorted by the keys
    compared lexicographically, which is what LINQ's
    OrderBy(..).ThenBy(..)... produces. Key selectors are property paths of
    the element. */
module OrderByExtensions {
  import opened Wrappers
  import opened Keys
  import opened Values
  import opened SortEnums

  /** A key selector (a property path of the element) and its direction. */
  datatype SortKey = SortKey(path: seq<string>, direction: SortDirection)

  /** IOrderedQueryable: a source and the keys it is ordered by. */
  datatype Ordered = Ordered(source: seq<Value>, keys: seq<SortKey>)

  /** Why an ordering cannot be built or executed. */
  datatype OrderError =
    | UnknownProperty      // a name is not a property of the type reached so far
    | NotComparable        // the key is a record, which has no ordering
    | NullDescriptions     // the composite OrderBy was handed a null list

  /** Comparison of two elements by one key, reversed for Descending. */
  function CompareBy(k: SortKey, a: Value, b: Value): (c: int)
    ensures c == -1 || c == 0 || c == 1
  {
    if k.direction == Ascending then CompareKeys(KeyAt(a, k.path), KeyAt(b, k.path))
    else CompareKeys(KeyAt(b, k.path), KeyAt(a, k.path))
  }

  /** Lexicographic comparison by a list of keys: the first key that tells
      the elements apart decides. */
  function CompareLex(keys: seq<SortKey>, a: Value, b: Value): (c: int)
    ensures c == -1 || c == 0 || c == 1
    decreases |keys|
  {
    if keys == [] then 0
    else
      var c := CompareBy(keys[0], a, b);
      if c != 0 then c else CompareLex(keys[1..], a, b)
  }

  lemma CompareByZero(k: SortKey, a: Value, b: Value)
    ensures CompareBy(k, a, b) == 0 <==> KeyAt(a, k.path) == KeyAt(b, k.path)
  {
    CompareKeysZero(KeyAt(a, k.path), KeyAt(b, k.path));
    CompareKeysZero(KeyAt(b, k.path), KeyAt(a, k.path));
  }

  lemma CompareByAntisymmetric(k: SortKey, a: Value, b: Value)
    ensures CompareBy(k, a, b) == -CompareBy(k, b, a)
  {
    CompareKeysAntisymmetric(KeyAt(a, k.path), KeyAt(b, k.path));
  }

  lemma CompareByTransitive(k: SortKey, a: Value, b: Value, c: Value)
    requires CompareBy(k, a, b) <= 0 && CompareBy(k, b, c) <= 0
    ensures CompareBy(k, a, c) <= 0
  {
    var ka, kb, kc := KeyAt(a, k.path), KeyAt(b, k.path), KeyAt(c, k.path);
    if k.direction == Ascending {
      CompareKeysTransitive(ka, kb, kc);
    } else {
      CompareKeysTransitive(kc, kb, ka);
    }
  }

  lemma {:induction false} CompareLexAntisymmetric(keys: seq<SortKey>, a: Value, b: Value)
    ensures CompareLex(keys, a, b) == -CompareLex(keys, b, a)
    decreases |keys|
  {
    if keys != [] {
      CompareByAntisymmetric(keys[0], a, b);
      CompareLexAntisymmetric(keys[1..], a, b);
    }
  }

  /** CompareLex is a total preorder: with antisymmetry, transitivity of
      "not after" is all a stable sort needs. */
  lemma {:induction false} CompareLexTransitive(keys: seq<SortKey>, a: Value, b: Value, c: Value)
    requires CompareLex(keys, a, b) <= 0 && CompareLex(keys, b, c) <= 0
    ensures CompareLex(keys, a, c) <= 0
    decreases |keys|
  {
    if keys != [] {
      var k := keys[0];
      var c1, c2 := CompareBy(k, a, b), CompareBy(k, b, c);
      if c1 == 0 && c2 == 0 {
        CompareByZero(k, a, b);
        CompareByZero(k, b, c);
        CompareByZero(k, a, c);
        CompareLexTransitive(keys[1..], a, b, c);
      } else {
        CompareByTransitive(k, a, b, c);
        CompareByZero(k, a, c);
        CompareByAntisymmetric(k, a, b);
      }
    }
  }

  /** Elements equivalent under the keys to a third are equivalent. */
  lemma CompareLexEquivalent(keys: seq<SortKey>, a: Value, b: Value, c: Value)
    requires CompareLex(keys, a, b) == 0 && CompareLex(keys, b, c) == 0
    ensures CompareLex(keys, a, c) == 0
  {
    CompareLexAntisymmetric(keys, a, b);
    CompareLexAntisymmetric(keys, b, c);
    CompareLexTransitive(keys, a, b, c);
    CompareLexTransitive(keys, c, b, a);
    CompareLexAntisymmetric(keys, a, c);
  }

  /** Comparing by `k1 + k2` is comparing by `k1` and breaking its ties by `k2`. */
  lemma {:induction false} CompareLexAppend(k1: seq<SortKey>, k2: seq<SortKey>, a: Value, b: Value)
    ensures CompareLex(k1 + k2, a, b) ==
      if CompareLex(k1, a, b) != 0 then CompareLex(k1, a, b) else CompareLex(k2, a, b)
    decreases |k1|
  {
    if k1 == [] {
      assert k1 + k2 == k2;
    } else {
      assert (k1 + k2)[0] == k1[0] && (k1 + k2)[1..] == k1[1..] + k2;
      CompareLexAppend(k1[1..], k2, a, b);
    }
  }

  /** The lexicographic reading of CompareLex: when two elements agree on
      the first m keys, key m decides (or they agree on it too). */
  lemma {:induction false} CompareLexAt(keys: seq<SortKey>, a: Value, b: Value, m: nat)
    requires CompareLex(keys, a, b) <= 0
    requires m < |keys|
    requires forall l :: 0 <= l < m ==> KeyAt(a, keys[l].path) == KeyAt(b, keys[l].path)
    ensures CompareBy(keys[m], a, b) <= 0
    decreases m
  {
    CompareByZero(keys[0], a, b);
    if m > 0 {
      assert forall l :: 0 <= l < m - 1 ==> keys[1..][l] == keys[l + 1];
      CompareLexAt(keys[1..], a, b, m - 1);
    }
  }

  /** Sorted under the keys: no element comes after a later one. */
  ghost predicate SortedBy(keys: seq<SortKey>, s: seq<Value>)
  {
    forall i, j :: 0 <= i < j < |s| ==> CompareLex(keys, s[i], s[j]) <= 0
  }

  /** Inserts x before the first element it does not come after, i.e. after
      every element that is strictly smaller. */
  function Insert(keys: seq<SortKey>, x: Value, t: seq<Value>): seq<Value>
  {
    if t == [] then [x]
    else if CompareLex(keys, x, t[0]) <= 0 then [x] + t
    else [t[0]] + Insert(keys, x, t[1..])
  }

  /** The stable sort that enumerating an ordered query performs (insertion
      sort: each element goes in front of the equal ones that follow it in
      the source). */
  function StableSort(keys: seq<SortKey>, s: seq<Value>): seq<Value>
  {
    if s == [] then [] else Insert(keys, s[0], StableSort(keys, s[1..]))
  }

  /** The elements of s equivalent to x under the keys, in their order in s. */
  function Equivalents(keys: seq<SortKey>, s: seq<Value>, x: Value): seq<Value>
  {
    if s == [] then []
    else (if CompareLex(keys, s[0], x) == 0 then [s[0]] else []) + Equivalents(keys, s[1..], x)
  }

  /** A sorted sequence stays sorted when an element not after any of its
      elements is put in front. */
  lemma SortedCons(keys: seq<SortKey>, a: Value, s: seq<Value>)
    requires SortedBy(keys, s)
    requires forall j :: 0 <= j < |s| ==> CompareLex(keys, a, s[j]) <= 0
    ensures SortedBy(keys, [a] + s)
  {
    var r := [a] + s;
    forall i, j | 0 <= i < j < |r| ensures CompareLex(keys, r[i], r[j]) <= 0 {
      assert r[j] == s[j - 1];
      if i > 0 { assert r[i] == s[i - 1]; }
    }
  }

  lemma {:induction false} InsertPermutation(keys: seq<SortKey>, x: Value, t: seq<Value>)
    ensures multiset(Insert(keys, x, t)) == multiset(t) + multiset{x}
  {
    if t != [] && CompareLex(keys, x, t[0]) > 0 {
      InsertPermutation(keys, x, t[1..]);
      assert t == [t[0]] + t[1..];
    }
  }

  lemma {:induction false} InsertSorted(keys: seq<SortKey>, x: Value, t: seq<Value>)
    requires SortedBy(keys, t)
    ensures SortedBy(keys, Insert(keys, x, t))
  {
    if t == [] {
    } else if CompareLex(keys, x, t[0]) <= 0 {
      forall j | 0 <= j < |t| ensures CompareLex(keys, x, t[j]) <= 0 {
        if j > 0 { CompareLexTransitive(keys, x, t[0], t[j]); }
      }
      SortedCons(keys, x, t);
    } else {
      var rest := Insert(keys, x, t[1..]);
      InsertSorted(keys, x, t[1..]);
      InsertPermutation(keys, x, t[1..]);
      CompareLexAntisymmetric(keys, x, t[0]);
      forall j | 0 <= j < |rest| ensures CompareLex(keys, t[0], rest[j]) <= 0 {
        var e := rest[j];
        assert e in multiset(rest);
        if e != x {
          assert e in multiset(t[1..]);
          var k :| 0 <= k < |t[1..]| && t[1..][k] == e;
          assert t[k + 1] == e;
        }
      }
      SortedCons(keys, t[0], rest);
    }
  }

  /** Inserting x adds x to exactly the equivalence run it belongs to, at
      the front, and leaves every other run as it was. */
  lemma {:induction false} InsertEquivalents(keys: seq<SortKey>, x: Value, t: seq<Value>, y: Value)
    ensures Equivalents(keys, Insert(keys, x, t), y) ==
      (if CompareLex(keys, x, y) == 0 then [x] else []) + Equivalents(keys, t, y)
  {
    var head := if CompareLex(keys, x, y) == 0 then [x] else [];
    if t == [] {
      assert Insert(keys, x, t) == [x];
      assert Equivalents(keys, [x], y) == head + Equivalents(keys, [], y);
    } else if CompareLex(keys, x, t[0]) <= 0 {
      var r := [x] + t;
      assert Insert(keys, x, t) == r;
      assert r[0] == x && r[1..] == t;
      assert Equivalents(keys, r, y) == head + Equivalents(keys, t, y);
    } else {
      var rest := Insert(keys, x, t[1..]);
      var r := [t[0]] + rest;
      assert Insert(keys, x, t) == r;
      InsertEquivalents(keys, x, t[1..], y);
      assert r[0] == t[0] && r[1..] == rest;
      var head0 := if CompareLex(keys, t[0], y) == 0 then [t[0]] else [];
      assert Equivalents(keys, r, y) == head0 + Equivalents(keys, rest, y);
      assert Equivalents(keys, t, y) == head0 + Equivalents(keys, t[1..], y);
      if CompareLex(keys, x, y) == 0 && CompareLex(keys, t[0], y) == 0 {
        CompareLexAntisymmetric(keys, t[0], y);
        CompareLexEquivalent(keys, x, y, t[0]);
      }
    }
  }

  /** The stable sort returns a permutation of its input, sorted. */
  lemma {:induction false} StableSortSorted(keys: seq<SortKey>, s: seq<Value>)
    ensures multiset(StableSort(keys, s)) == multiset(s)
    ensures SortedBy(keys, StableSort(keys, s))
  {
    if s != [] {
      StableSortSorted(keys, s[1..]);
      InsertSorted(keys, s[0], StableSort(keys, s[1..]));
      InsertPermutation(keys, s[0], StableSort(keys, s[1..]));
      assert s == [s[0]] + s[1..];
    }
  }

  /** Stability: elements equal under all keys keep their source order. */
  lemma {:induction false} StableSortStable(keys: seq<SortKey>, s: seq<Value>, x: Value)
    ensures Equivalents(keys, StableSort(keys, s), x) == Equivalents(keys, s, x)
  {
    if s != [] {
      StableSortStable(keys, s[1..], x);
      InsertEquivalents(keys, s[0], StableSort(keys, s[1..]), x);
    }
  }

  /** Enumerating an ordered query. */
  function Items(o: Ordered): seq<Value>
  {
    StableSort(o.keys, o.source)
  }

  /** Direction-aware OrderBy (lines 14-22): OrderBy for Ascending,
      OrderByDescending otherwise. */
  function OrderBy(source: seq<Value>, path: seq<string>, sortOrder: SortDirection): Ordered
  {
    if sortOrder == Ascending then Ordered(source, [SortKey(path, Ascending)])
    else Ordered(source, [SortKey(path, Descending)])
  }

  /** Direction-aware ThenBy (lines 24-32): ThenBy for Ascending,
      ThenByDescending otherwise; an extra key after the existing ones. */
  function ThenBy(o: Ordered, path: seq<string>, sortOrder: SortDirection): Ordered
  {
    if sortOrder == Ascending then Ordered(o.source, o.keys + [SortKey(path, Ascending)])
    else Ordered(o.source, o.keys + [SortKey(path, Descending)])
  }

  /** OrderBy yields a permutation of the source, non-decreasing in the key
      for Ascending and non-increasing otherwise. */
  lemma OrderBySorts(source: seq<Value>, path: seq<string>, sortOrder: SortDirection)
    ensures multiset(Items(OrderBy(source, path, sortOrder))) == multiset(source)
    ensures var r := Items(OrderBy(source, path, sortOrder));
      forall i, j :: 0 <= i < j < |r| ==>
        if sortOrder == Ascending then CompareKeys(KeyAt(r[i], path), KeyAt(r[j], path)) <= 0
        else CompareKeys(KeyAt(r[i], path), KeyAt(r[j], path)) >= 0
  {
    var o := OrderBy(source, path, sortOrder);
    StableSortSorted(o.keys, source);
    var r := Items(o);
    forall i, j | 0 <= i < j < |r|
      ensures if sortOrder == Ascending then CompareKeys(KeyAt(r[i], path), KeyAt(r[j], path)) <= 0
              else CompareKeys(KeyAt(r[i], path), KeyAt(r[j], path)) >= 0
    {
      assert CompareLex(o.keys, r[i], r[j]) <= 0;
      CompareKeysAntisymmetric(KeyAt(r[i], path), KeyAt(r[j], path));
    }
  }

  /** ThenBy keeps the order under the earlier keys and only orders the runs
      that are equal under them, by the new key in the given direction; no
      element is added or dropped. */
  lemma ThenByBreaksTies(o: Ordered, path: seq<string>, sortOrder: SortDirection)
    ensures multiset(Items(ThenBy(o, path, sortOrder))) == multiset(o.source)
    ensures var r := Items(ThenBy(o, path, sortOrder));
      forall i, j :: 0 <= i < j < |r| ==> CompareLex(o.keys, r[i], r[j]) <= 0
    ensures var r := Items(ThenBy(o, path, sortOrder));
      forall i, j :: 0 <= i < j < |r| && CompareLex(o.keys, r[i], r[j]) == 0 ==>
        CompareBy(SortKey(path, sortOrder), r[i], r[j]) <= 0
  {
    var t := ThenBy(o, path, sortOrder);
    var k := SortKey(path, sortOrder);
    assert t.keys == o.keys + [k];
    StableSortSorted(t.keys, o.source);
    var r := Items(t);
    forall i, j | 0 <= i < j < |r|
      ensures CompareLex(o.keys, r[i], r[j]) <= 0
      ensures CompareLex(o.keys, r[i], r[j]) == 0 ==> CompareBy(k, r[i], r[j]) <= 0
    {
      assert CompareLex(t.keys, r[i], r[j]) <= 0;
      CompareLexAppend(o.keys, [k], r[i], r[j]);
    }
  }

  /** The string-path OrderBy (lines 38-60): the column is split on '.',
      each segment resolved as a property of the previous result starting
      from the element type; an unknown segment is an error. The trailing
      `.OrderBy(x => 0)` at line 59 is left out: it keeps the row order, but
      it makes the constant the primary key of the result, so a ThenBy on
      that result would order by its own key first. No caller here does that. */
  function OrderByPath(source: seq<Value>, elementType: Schema, sortColumn: string, direction: SortDirection)
    : Result<Ordered, OrderError>
  {
    var path := Split(sortColumn, '.');
    match ResolvePath(elementType, path)
    case None => Failure(UnknownProperty)
    case Some(RecordType(_)) => Failure(NotComparable)
    case Some(_) => Success(OrderBy(source, path, direction))
  }

  /** The string-path OrderBy as the source runs it: a loop over the
      segments of the column that resolves one property access at a time. */
  method OrderByColumn(source: seq<Value>, elementType: Schema, sortColumn: string, direction: SortDirection)
    returns (r: Result<Ordered, OrderError>)
    ensures r == OrderByPath(source, elementType, sortColumn, direction)
  {
    var segments := Split(sortColumn, '.');
    var memberType := elementType;
    var i := 0;
    while i < |segments|
      invariant 0 <= i <= |segments|
      invariant ResolvePath(elementType, segments[..i]) == Some(memberType)
    {
      ResolveAppend(elementType, segments[..i], [segments[i]]);
      assert segments[..i + 1] == segments[..i] + [segments[i]];
      var next := Member(memberType, segments[i]);
      if next.None? {
        ResolveAppend(elementType, segments[..i + 1], segments[i + 1..]);
        assert segments[..i + 1] + segments[i + 1..] == segments;
        return Failure(UnknownProperty);
      }
      memberType := next.value;
      i := i + 1;
    }
    assert segments[..i] == segments;
    if memberType.RecordType? {
      return Failure(NotComparable);
    }
    r := Success(OrderBy(source, segments, direction));
  }

  /** The string-path OrderBy fails exactly when the path does not resolve
      to an orderable member; when it succeeds it orders the source by the
      resolved key, ascending for Ascending and descending otherwise, and for
      well-typed elements that key is the value stored at the path. */
  lemma OrderByPathOrders(source: seq<Value>, elementType: Schema, sortColumn: string, direction: SortDirection)
    ensures var path := Split(sortColumn, '.');
      OrderByPath(source, elementType, sortColumn, direction) == Failure(UnknownProperty) <==>
        ResolvePath(elementType, path).None?
    ensures var path := Split(sortColumn, '.');
      OrderByPath(source, elementType, sortColumn, direction).Success? ==>
        && ResolvePath(elementType, path).Some?
        && !ResolvePath(elementType, path).value.RecordType?
        && var r := Items(OrderByPath(source, elementType, sortColumn, direction).value);
        && multiset(r) == multiset(source)
        && (forall i, j :: 0 <= i < j < |r| ==>
             if direction == Ascending then CompareKeys(KeyAt(r[i], path), KeyAt(r[j], path)) <= 0
             else CompareKeys(KeyAt(r[i], path), KeyAt(r[j], path)) >= 0)
        && (forall x :: x in source && Conforms(x, elementType) ==> Lookup(x, path) == Some(Leaf(KeyAt(x, path))))
  {
    var path := Split(sortColumn, '.');
    if OrderByPath(source, elementType, sortColumn, direction).Success? {
      OrderBySorts(source, path, direction);
      forall x | x in source && Conforms(x, elementType)
        ensures Lookup(x, path) == Some(Leaf(KeyAt(x, path)))
      {
        KeyAtWellTyped(x, elementType, path);
      }
    }
  }

  /** The keys a SortDescription list stands for, in list order. */
  function DescriptionKeys(props: seq<SortDescription>): seq<SortKey>
  {
    if props == [] then []
    else DescriptionKeys(props[..|props| - 1]) + [SortKey([props[|props| - 1].propertyName], props[|props| - 1].direction)]
  }

  lemma {:induction false} DescriptionKeysAt(props: seq<SortDescription>, i: nat)
    requires i < |props|
    ensures |DescriptionKeys(props)| == |props|
    ensures DescriptionKeys(props)[i] == SortKey([props[i].propertyName], props[i].direction)
  {
    if i < |props| - 1 {
      DescriptionKeysAt(props[..|props| - 1], i);
    } else if |props| > 1 {
      DescriptionKeysAt(props[..|props| - 1], 0);
    }
  }

  /** Every PropertyName is a property of the element type (Type.GetProperty
      finds it). */
  predicate AllKnown(elementType: Schema, props: seq<SortDescription>)
  {
    forall i :: 0 <= i < |props| ==> Member(elementType, props[i].propertyName).Some?
  }

  /** The named property exists and has a record type, which cannot be ordered. */
  predicate IsRecordProperty(elementType: Schema, d: SortDescription)
  {
    Member(elementType, d.propertyName).Some? && Member(elementType, d.propertyName).value.RecordType?
  }

  /** Some named property has a record type. */
  predicate SomeRecordKey(elementType: Schema, props: seq<SortDescription>)
  {
    exists i :: 0 <= i < |props| && IsRecordProperty(elementType, props[i])
  }

  /** The composite OrderBy (lines 62-120): the first description is the
      primary key, each later one a ThenBy; an empty list gives null (the
      guard at line 66 is commented out), a null list and an unknown
      property are failures. */
  function CompositeOrdering(source: seq<Value>, elementType: Schema, properties: Option<seq<SortDescription>>)
    : Result<Option<Ordered>, OrderError>
  {
    match properties
    case None => Failure(NullDescriptions)
    case Some(props) =>
      if !AllKnown(elementType, props) then Failure(UnknownProperty)
      else if SomeRecordKey(elementType, props) then Failure(NotComparable)
      else if props == [] then Success(None)
      else Success(Some(Ordered(source, DescriptionKeys(props))))
  }

  /** The composite OrderBy as the source runs it: one pass over the
      descriptions, an OrderBy for the first and a ThenBy for each later
      one, driven by the `thenBy` flag. */
  method OrderByDescriptions(source: seq<Value>, elementType: Schema, properties: Option<seq<SortDescription>>)
    returns (r: Result<Option<Ordered>, OrderError>)
    ensures r == CompositeOrdering(source, elementType, properties)
  {
    if properties.None? {
      return Failure(NullDescriptions);
    }
    var props := properties.value;
    var result: Option<Ordered> := None;
    var thenBy := false;
    var i := 0;
    while i < |props|
      invariant 0 <= i <= |props|
      invariant thenBy <==> i > 0
      invariant AllKnown(elementType, props[..i])
      invariant result == if i == 0 then None else Some(Ordered(source, DescriptionKeys(props[..i])))
    {
      var item := props[i];
      var propertyType := Member(elementType, item.propertyName);
      if propertyType.None? {
        return Failure(UnknownProperty);
      }
      assert props[..i + 1][..i] == props[..i] && props[..i + 1][i] == item;
      assert DescriptionKeys(props[..i + 1]) ==
        DescriptionKeys(props[..i]) + [SortKey([item.propertyName], item.direction)];
      if thenBy {
        result := Some(ThenBy(result.value, [item.propertyName], item.direction));
        assert result.value.keys == DescriptionKeys(props[..i + 1]);
      } else {
        result := Some(OrderBy(source, [item.propertyName], item.direction));
        assert DescriptionKeys(props[..i]) == [];
        assert result.value.keys == DescriptionKeys(props[..i + 1]);
        thenBy := true;
      }
      i := i + 1;
    }
    assert props[..i] == props;
    if exists j :: 0 <= j < |props| && IsRecordProperty(elementType, props[j]) {
      return Failure(NotComparable);
    }
    r := Success(result);
  }

  /** A successful composite ordering sorts lexicographically: the first
      description is the primary key and each later one breaks the ties of
      all earlier ones, each in its own direction; nothing is added or
      dropped. */
  lemma CompositeIsLexicographic(source: seq<Value>, elementType: Schema, props: seq<SortDescription>)
    requires CompositeOrdering(source, elementType, Some(props)).Success?
    ensures CompositeOrdering(source, elementType, Some(props)).value.Some? <==> props != []
    ensures props != [] ==>
      var r := Items(CompositeOrdering(source, elementType, Some(props)).value.value);
      && multiset(r) == multiset(source)
      && forall i, j, m :: (0 <= i < j < |r| && 0 <= m < |props| &&
           (forall l :: 0 <= l < m ==> KeyAt(r[i], [props[l].propertyName]) == KeyAt(r[j], [props[l].propertyName]))) ==>
           CompareBy(SortKey([props[m].propertyName], props[m].direction), r[i], r[j]) <= 0
  {
    if props != [] {
      var keys := DescriptionKeys(props);
      StableSortSorted(keys, source);
      var r := StableSort(keys, source);
      forall i, j, m | 0 <= i < j < |r| && 0 <= m < |props| &&
           (forall l :: 0 <= l < m ==> KeyAt(r[i], [props[l].propertyName]) == KeyAt(r[j], [props[l].propertyName]))
        ensures CompareBy(SortKey([props[m].propertyName], props[m].direction), r[i], r[j]) <= 0
      {
        DescriptionKeysAt(props, m);
        forall l | 0 <= l < m ensures KeyAt(r[i], keys[l].path) == KeyAt(r[j], keys[l].path) {
          DescriptionKeysAt(props, l);
        }
        CompareLexAt(keys, r[i], r[j], m);
      }
    }
  }
}
