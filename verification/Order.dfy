/** The order of byte strings of equal length by their first difference, and lexicographic combinations of it. */
module Order {
  import opened Bytes
  import opened Domain

  lemma {:induction false} DiffOpposite(a: seq<byte>, b: seq<byte>)
    requires |a| == |b|
    ensures Diff(a, b) == -Diff(b, a)
  {
    if a != [] && a[0] == b[0] { DiffOpposite(a[1..], b[1..]); }
  }

  lemma {:induction false} DiffTransitive(a: seq<byte>, b: seq<byte>, c: seq<byte>)
    requires |a| == |b| == |c| && Diff(a, b) <= 0 && Diff(b, c) <= 0
    ensures Diff(a, c) <= 0
    ensures Diff(a, c) == 0 ==> a == b == c
  {
    if a != [] {
      if a[0] == b[0] == c[0] {
        DiffTransitive(a[1..], b[1..], c[1..]);
        assert a == [a[0]] + a[1..] && b == [b[0]] + b[1..] && c == [c[0]] + c[1..];
      } else {
        DiffZero(a, c);
      }
    }
  }

  /** What records and addresses are ordered by: a tag of fixed length, then the length of a name, then the name. */
  datatype Key = Key(tag: seq<byte>, name: seq<byte>)

  /** Negative, zero or positive. */
  function Compare(k: Key, l: Key): (r: int)
    requires |k.tag| == |l.tag|
  {
    var d := Diff(k.tag, l.tag);
    if d != 0 then d
    else if |k.name| != |l.name| then |k.name| - |l.name|
    else Diff(k.name, l.name)
  }

  lemma CompareZero(k: Key, l: Key)
    requires |k.tag| == |l.tag|
    ensures Compare(k, l) == 0 <==> k == l
  {
    DiffZero(k.tag, l.tag);
    if |k.name| == |l.name| { DiffZero(k.name, l.name); }
  }

  lemma CompareOpposite(k: Key, l: Key)
    requires |k.tag| == |l.tag|
    ensures Compare(k, l) < 0 <==> Compare(l, k) > 0
    ensures Compare(k, l) == 0 <==> Compare(l, k) == 0
  {
    DiffOpposite(k.tag, l.tag);
    if |k.name| == |l.name| { DiffOpposite(k.name, l.name); }
  }

  lemma CompareTransitive(k: Key, l: Key, m: Key)
    requires |k.tag| == |l.tag| == |m.tag| && Compare(k, l) <= 0 && Compare(l, m) <= 0
    ensures Compare(k, m) <= 0
    ensures Compare(k, m) == 0 ==> k == l == m
  {
    CompareZero(k, l);
    CompareZero(l, m);
    DiffTransitive(k.tag, l.tag, m.tag);
    DiffZero(k.tag, l.tag);
    DiffZero(l.tag, m.tag);
    if Diff(k.tag, m.tag) == 0 && |k.name| == |l.name| == |m.name| {
      DiffTransitive(k.name, l.name, m.name);
    }
  }
}
