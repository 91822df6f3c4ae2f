/** Values that an ordering compares. A property used as a sort key is a
    boolean, an integer or a string; strings are compared ordinally, character
    by character, which stands for whatever total order the data source's
    collation imposes. */
module Keys {

  datatype Key = Flag(b: bool) | Num(n: int) | Text(s: string)

  /** Three-way comparison of integers: -1, 0 or 1. */
  function CompareInt(a: int, b: int): (c: int)
    ensures c == -1 || c == 0 || c == 1
    ensures c < 0 <==> a < b
    ensures c == 0 <==> a == b
  {
    if a < b then -1 else if a == b then 0 else 1
  }

  /** Ordinal (lexicographic) comparison of strings; a proper prefix comes first. */
  function CompareText(a: string, b: string): (c: int)
    ensures c == -1 || c == 0 || c == 1
  {
    if a == [] && b == [] then 0
    else if a == [] then -1
    else if b == [] then 1
    else if a[0] < b[0] then -1
    else if a[0] > b[0] then 1
    else CompareText(a[1..], b[1..])
  }

  lemma {:induction false} CompareTextAntisymmetric(a: string, b: string)
    ensures CompareText(a, b) == -CompareText(b, a)
  {
    if a != [] && b != [] && a[0] == b[0] {
      CompareTextAntisymmetric(a[1..], b[1..]);
    }
  }

  lemma {:induction false} CompareTextZero(a: string, b: string)
    ensures CompareText(a, b) == 0 <==> a == b
  {
    if a != [] && b != [] && a[0] == b[0] {
      CompareTextZero(a[1..], b[1..]);
      assert a == [a[0]] + a[1..] && b == [b[0]] + b[1..];
    }
  }

  lemma {:induction false} CompareTextTransitive(a: string, b: string, c: string)
    requires CompareText(a, b) <= 0 && CompareText(b, c) <= 0
    ensures CompareText(a, c) <= 0
  {
    if a != [] && b != [] && c != [] && a[0] == b[0] == c[0] {
      CompareTextTransitive(a[1..], b[1..], c[1..]);
    }
  }

  /** The rank of a key's kind; keys of different kinds order by kind. A sort
      key path always has one type, so in practice only keys of one kind meet. */
  function KindRank(k: Key): int
  {
    match k
    case Flag(_) => 0
    case Num(_) => 1
    case Text(_) => 2
  }

  /** Three-way comparison of keys: false < true, integers numerically,
      strings ordinally. */
  function CompareKeys(a: Key, b: Key): (c: int)
    ensures c == -1 || c == 0 || c == 1
    ensures KindRank(a) != KindRank(b) ==> (c < 0 <==> KindRank(a) < KindRank(b))
  {
    if KindRank(a) != KindRank(b) then CompareInt(KindRank(a), KindRank(b))
    else match (a, b)
      case (Flag(x), Flag(y)) => CompareInt(if x then 1 else 0, if y then 1 else 0)
      case (Num(x), Num(y)) => CompareInt(x, y)
      case (Text(x), Text(y)) => CompareText(x, y)
  }

  /** CompareKeys is a total order: antisymmetric, zero exactly on equal keys,
      and transitive. */
  lemma CompareKeysAntisymmetric(a: Key, b: Key)
    ensures CompareKeys(a, b) == -CompareKeys(b, a)
  {
    if a.Text? && b.Text? {
      CompareTextAntisymmetric(a.s, b.s);
    }
  }

  lemma CompareKeysZero(a: Key, b: Key)
    ensures CompareKeys(a, b) == 0 <==> a == b
  {
    if a.Text? && b.Text? {
      CompareTextZero(a.s, b.s);
    }
  }

  lemma CompareKeysTransitive(a: Key, b: Key, c: Key)
    requires CompareKeys(a, b) <= 0 && CompareKeys(b, c) <= 0
    ensures CompareKeys(a, c) <= 0
  {
    if a.Text? && b.Text? && c.Text? {
      CompareTextTransitive(a.s, b.s, c.s);
    }
  }
}
