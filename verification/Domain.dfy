/** Domain names in wire form: length-prefixed labels, ended by a zero byte. */
module Domain {
  import opened Bytes

  type Label = seq<byte>

  const MAX_LABEL := 63
  const MAX_NAME := 255

  // ---------- wire form and labels ----------

  /** Exactly one name: labels of 1 to 63 bytes, one zero byte at the end. */
  predicate WellFormed(d: seq<byte>) {
    && d != []
    && (if d[0] == 0 then |d| == 1
        else d[0] <= MAX_LABEL && 1 + d[0] < |d| && WellFormed(d[1 + d[0]..]))
  }

  predicate Fit(ls: seq<Label>) {
    forall i :: 0 <= i < |ls| ==> 1 <= |ls[i]| <= MAX_LABEL
  }

  lemma FitTail(ls: seq<Label>)
    requires Fit(ls) && ls != []
    ensures 1 <= |ls[0]| <= MAX_LABEL && Fit(ls[1..])
  {
  }

  function Wire(ls: seq<Label>): (d: seq<byte>)
    requires Fit(ls)
    ensures d != []
  {
    if ls == [] then [0] else [|ls[0]|] + ls[0] + Wire(ls[1..])
  }

  function Labels(d: seq<byte>): (ls: seq<Label>)
    requires WellFormed(d)
    ensures Fit(ls)
  {
    if d[0] == 0 then [] else [d[1..1 + d[0]]] + Labels(d[1 + d[0]..])
  }

  lemma WireCons(l: Label, ls: seq<Label>)
    requires 1 <= |l| <= MAX_LABEL && Fit(ls)
    ensures Fit([l] + ls) && Wire([l] + ls) == [|l|] + l + Wire(ls)
  {
    assert ([l] + ls)[1..] == ls;
  }

  lemma WireRoot()
    ensures Fit([]) && Wire([]) == [0]
  {
  }

  lemma {:induction false} WireLabels(d: seq<byte>)
    requires WellFormed(d)
    ensures Wire(Labels(d)) == d
  {
    hide WellFormed, Fit, Wire;
    NotEmpty(d);
    WireRoot();
    if d[0] != 0 {
      Heads(d);
      var l, e := d[1..1 + d[0]], d[1 + d[0]..];
      WireLabels(e);
      assert Labels(d) == [l] + Labels(e);
      WireCons(l, Labels(e));
      assert [d[0]] + l + e == d;
    }
  }

  lemma {:induction false} LabelsWire(ls: seq<Label>)
    requires Fit(ls)
    ensures WellFormed(Wire(ls)) && Labels(Wire(ls)) == ls
  {
    if ls != [] {
      FitTail(ls);
      hide Fit;
      LabelsWire(ls[1..]);
      var d := Wire(ls);
      assert d[0] == |ls[0]| && d[1..1 + d[0]] == ls[0] && d[1 + d[0]..] == Wire(ls[1..]);
      assert ls == [ls[0]] + ls[1..];
    }
  }

  // ---------- letter case ----------

  function Lower(c: byte): (r: byte) {
    if 65 <= c <= 90 then c + 32 else c
  }

  function Fold(d: seq<byte>): (r: seq<byte>)
    ensures |r| == |d|
    ensures forall i :: 0 <= i < |d| ==> r[i] == Lower(d[i])
  {
    seq(|d|, i requires 0 <= i < |d| => Lower(d[i]))
  }

  /** Equality of names: same bytes up to the case of letters. */
  predicate Same(d: seq<byte>, e: seq<byte>) {
    Fold(d) == Fold(e)
  }

  /** Label by label, up to the case of letters. */
  predicate SameLabels(ls: seq<Label>, ms: seq<Label>) {
    |ls| == |ms| && forall i :: 0 <= i < |ls| ==> Fold(ls[i]) == Fold(ms[i])
  }

  /** No length byte is a letter, so byte-wise comparison compares labels. */
  lemma {:induction false} SameIsLabelwise(d: seq<byte>, e: seq<byte>)
    requires WellFormed(d) && WellFormed(e)
    ensures Same(d, e) <==> SameLabels(Labels(d), Labels(e))
  {
    NotEmpty(d);
    NotEmpty(e);
    hide WellFormed, Fold, Labels, SameLabels, Same;
    if d[0] != e[0] {
      FirstDiffers(d, e);
    } else if d[0] == 0 {
      BothRoot(d, e);
    } else {
      Heads(d);
      Heads(e);
      SameSplit(d, e, 1 + d[0]);
      SameIsLabelwise(d[1 + d[0]..], e[1 + e[0]..]);
      LabelsCons(d, e);
    }
  }

  lemma NotEmpty(d: seq<byte>)
    requires WellFormed(d)
    ensures d != [] && (d[0] == 0 ==> d == [0])
  {
  }

  lemma BothRoot(d: seq<byte>, e: seq<byte>)
    requires WellFormed(d) && WellFormed(e) && d[0] == e[0] == 0
    ensures Same(d, e) && SameLabels(Labels(d), Labels(e))
  {
    assert d == [0] == e;
  }

  lemma Heads(d: seq<byte>)
    requires WellFormed(d) && d != [] && d[0] != 0
    ensures d[0] <= MAX_LABEL && 1 + d[0] < |d| && WellFormed(d[1 + d[0]..])
  {
  }

  lemma FirstDiffers(d: seq<byte>, e: seq<byte>)
    requires WellFormed(d) && WellFormed(e) && d[0] != e[0]
    ensures !Same(d, e) && !SameLabels(Labels(d), Labels(e))
  {
    assert Fold(d)[0] == d[0] && Fold(e)[0] == e[0];
    if d[0] != 0 && e[0] != 0 {
      assert |Labels(d)[0]| == d[0] && |Labels(e)[0]| == e[0];
    }
  }

  lemma LabelsCons(d: seq<byte>, e: seq<byte>)
    requires WellFormed(d) && WellFormed(e) && 0 < d[0] == e[0]
    ensures SameLabels(Labels(d), Labels(e)) <==>
            Same(d[1..1 + d[0]], e[1..1 + e[0]]) && SameLabels(Labels(d[1 + d[0]..]), Labels(e[1 + e[0]..]))
  {
    var ls, ms := Labels(d), Labels(e);
    assert ls[0] == d[1..1 + d[0]] && ms[0] == e[1..1 + e[0]];
    assert ls[1..] == Labels(d[1 + d[0]..]) && ms[1..] == Labels(e[1 + e[0]..]);
    if Same(ls[0], ms[0]) && SameLabels(ls[1..], ms[1..]) {
      forall i | 0 <= i < |ls|
        ensures Fold(ls[i]) == Fold(ms[i])
      {
        if i > 0 {
          assert ls[i] == ls[1..][i - 1] && ms[i] == ms[1..][i - 1];
        }
      }
    }
  }

  lemma FoldSlice(d: seq<byte>, i: nat, j: nat)
    requires i <= j <= |d|
    ensures Fold(d[i..j]) == Fold(d)[i..j]
  {
  }

  lemma SameParts(d: seq<byte>, e: seq<byte>, i: nat, j: nat)
    requires Same(d, e) && i <= j <= |d|
    ensures |d| == |e| && Same(d[i..j], e[i..j])
  {
    assert |d| == |Fold(d)| == |Fold(e)| == |e|;
    FoldSlice(d, i, j);
    FoldSlice(e, i, j);
  }

  lemma FoldConcat(a: seq<byte>, b: seq<byte>)
    ensures Fold(a + b) == Fold(a) + Fold(b)
  {
  }

  lemma SameConcat(a: seq<byte>, a': seq<byte>, b: seq<byte>, b': seq<byte>)
    requires Same(a, a') && Same(b, b')
    ensures Same(a + b, a' + b')
  {
    FoldConcat(a, b);
    FoldConcat(a', b');
  }

  lemma SameJoin(d: seq<byte>, e: seq<byte>, n: nat)
    requires 1 <= n <= |d| && n <= |e| && d[0] == e[0]
    requires Same(d[1..n], e[1..n]) && Same(d[n..], e[n..])
    ensures Same(d, e)
  {
    hide Fold;
    SameConcat(d[1..n], e[1..n], d[n..], e[n..]);
    SameConcat(d[..1], e[..1], d[1..n] + d[n..], e[1..n] + e[n..]);
    assert d[..1] == e[..1];
    assert d == d[..1] + (d[1..n] + d[n..]);
    assert e == e[..1] + (e[1..n] + e[n..]);
  }

  lemma SameSplit(d: seq<byte>, e: seq<byte>, n: nat)
    requires 1 <= n <= |d| && n <= |e| && d[0] == e[0]
    ensures Same(d, e) <==> Same(d[1..n], e[1..n]) && Same(d[n..], e[n..])
  {
    hide Same;
    if Same(d, e) {
      SameParts(d, e, 1, n);
      SameParts(d, e, n, |d|);
      assert d[n..|d|] == d[n..] && e[n..|d|] == e[n..];
    }
    if Same(d[1..n], e[1..n]) && Same(d[n..], e[n..]) {
      SameJoin(d, e, n);
    }
  }

  // ---------- tails ----------

  /** `p` is a label boundary of `d`. */
  predicate Boundary(d: seq<byte>, p: nat)
    requires WellFormed(d)
    decreases |d|
  {
    p == 0 || (0 < d[0] < p && Boundary(d[1 + d[0]..], p - 1 - d[0]))
  }

  /** `d` ends `big` at a label boundary, up to case. */
  predicate IsSuffix(big: seq<byte>, d: seq<byte>)
    requires WellFormed(big)
  {
    |d| <= |big| && Boundary(big, |big| - |d|) && Same(big[|big| - |d|..], d)
  }

  lemma Reindex<T>(s: seq<T>, i: nat, p: nat)
    requires i <= p <= |s|
    ensures s[i..][p - i..] == s[p..]
  {
  }

  lemma {:induction false} BoundaryTail(d: seq<byte>, p: nat)
    requires WellFormed(d) && Boundary(d, p)
    ensures p < |d| && WellFormed(d[p..]) && d[p] <= MAX_LABEL
    decreases |d|
  {
    if p == 0 {
      assert d[0..] == d;
    } else {
      BoundaryTail(d[1 + d[0]..], p - 1 - d[0]);
      Reindex(d, 1 + d[0], p);
    }
  }

  lemma {:induction false} BoundaryStep(d: seq<byte>, p: nat)
    requires WellFormed(d) && Boundary(d, p) && p < |d| && d[p] != 0
    ensures Boundary(d, p + 1 + d[p])
    decreases |d|
  {
    if p != 0 {
      BoundaryStep(d[1 + d[0]..], p - 1 - d[0]);
    }
  }

  /** The next boundary after `p` is past the whole label at `p`. */
  lemma {:induction false} BoundaryNext(d: seq<byte>, p: nat, q: nat)
    requires WellFormed(d) && Boundary(d, p) && Boundary(d, q) && p < q
    ensures p < |d| && d[p] != 0 && p + 1 + d[p] <= q
    decreases |d|
  {
    if p != 0 {
      BoundaryNext(d[1 + d[0]..], p - 1 - d[0], q - 1 - d[0]);
    }
  }

  lemma {:induction false} BoundaryCompose(d: seq<byte>, p: nat, q: nat)
    requires WellFormed(d) && Boundary(d, p) && p <= |d| && WellFormed(d[p..]) && Boundary(d[p..], q)
    ensures Boundary(d, p + q)
    decreases |d|
  {
    if p == 0 {
      assert d[0..] == d;
    } else {
      Reindex(d, 1 + d[0], p);
      BoundaryCompose(d[1 + d[0]..], p - 1 - d[0], q);
    }
  }

  lemma {:induction false} BoundarySame(a: seq<byte>, b: seq<byte>, p: nat)
    requires WellFormed(a) && WellFormed(b) && Same(a, b) && Boundary(b, p)
    ensures Boundary(a, p)
    decreases |a|
  {
    if p != 0 {
      SameFirst(a, b);
      SameParts(a, b, 1 + a[0], |a|);
      assert a[1 + a[0]..|a|] == a[1 + a[0]..] && b[1 + a[0]..|a|] == b[1 + a[0]..];
      BoundarySame(a[1 + a[0]..], b[1 + a[0]..], p - 1 - a[0]);
    }
  }

  lemma SameFirst(a: seq<byte>, b: seq<byte>)
    requires WellFormed(a) && WellFormed(b) && Same(a, b)
    ensures a[0] == b[0] && |a| == |b|
  {
    assert Fold(a)[0] == Fold(b)[0] && |Fold(a)| == |Fold(b)|;
  }

  lemma NotSameLength(d: seq<byte>, e: seq<byte>)
    requires |d| != |e|
    ensures !Same(d, e)
  {
    assert |Fold(d)| != |Fold(e)|;
  }

  lemma Slices<T>(a: seq<T>, b: seq<T>, p: nat, q: nat)
    requires p + q <= |a| && |a| - p == |b|
    ensures a[p..][q..|b|] == a[p + q..] && b[q..|b|] == b[q..]
  {
  }

  lemma SameTransitive(a: seq<byte>, b: seq<byte>, c: seq<byte>)
    requires Same(a, b) && Same(b, c)
    ensures Same(a, c)
  {
  }

  /** A suffix of a suffix is a suffix. */
  lemma SuffixTransitive(a: seq<byte>, b: seq<byte>, c: seq<byte>)
    requires WellFormed(a) && WellFormed(b) && IsSuffix(a, b) && IsSuffix(b, c)
    ensures IsSuffix(a, c)
  {
    var p, q := |a| - |b|, |b| - |c|;
    hide WellFormed, Same, Boundary;
    BoundaryTail(a, p);
    BoundarySame(a[p..], b, q);
    BoundaryCompose(a, p, q);
    SameParts(a[p..], b, q, |b|);
    Slices(a, b, p, q);
    SameTransitive(a[p + q..], b[q..], c);
  }

  lemma SameIsSuffix(a: seq<byte>, b: seq<byte>)
    requires WellFormed(a) && Same(a, b)
    ensures IsSuffix(a, b)
  {
    assert |Fold(a)| == |Fold(b)|;
    assert a[0..] == a;
  }

  lemma SameReflexive(d: seq<byte>)
    ensures Same(d, d)
  {
  }

  lemma SameSymmetric(a: seq<byte>, b: seq<byte>)
    requires Same(a, b)
    ensures Same(b, a)
  {
  }

  lemma SuffixUpToCase(a: seq<byte>, b: seq<byte>, a': seq<byte>, b': seq<byte>)
    requires WellFormed(a) && WellFormed(a') && WellFormed(b) && IsSuffix(a, b) && Same(a, a') && Same(b, b')
    ensures IsSuffix(a', b')
  {
    hide Same, IsSuffix;
    SameSymmetric(a, a');
    SameIsSuffix(a', a);
    SameIsSuffix(b, b');
    SuffixTransitive(a', a, b);
    SuffixTransitive(a', b, b');
  }

  /** The name from `p` on has the labels of `d` but the first `k`. */
  predicate TailLabels(d: seq<byte>, p: nat, k: nat)
    requires WellFormed(d)
  {
    p < |d| && WellFormed(d[p..]) && k <= |Labels(d)| && Labels(d[p..]) == Labels(d)[k..]
  }

  lemma LabelsStep(d: seq<byte>)
    requires WellFormed(d) && d[0] != 0
    ensures Labels(d) == [d[1..1 + d[0]]] + Labels(d[1 + d[0]..])
  {
  }

  lemma DropOne<T>(x: T, s: seq<T>, k: nat)
    requires 1 <= k <= 1 + |s|
    ensures ([x] + s)[k..] == s[k - 1..]
  {
  }

  lemma TailLabelsStep(d: seq<byte>, p: nat, k: nat)
    requires WellFormed(d) && d[0] != 0 && 1 + d[0] <= p && k >= 1 && TailLabels(d[1 + d[0]..], p - 1 - d[0], k - 1)
    ensures TailLabels(d, p, k)
  {
    var n := 1 + d[0];
    LabelsStep(d);
    Reindex(d, n, p);
    DropOne(d[1..n], Labels(d[n..]), k);
  }

  lemma TailLabelsAll(d: seq<byte>)
    requires WellFormed(d)
    ensures TailLabels(d, 0, 0)
  {
    assert d[0..] == d;
  }

  /** The labels from a boundary on are the last labels. */
  lemma {:induction false} LabelsOfTail(d: seq<byte>, p: nat) returns (k: nat)
    requires WellFormed(d) && Boundary(d, p)
    ensures TailLabels(d, p, k)
    decreases |d|
  {
    hide TailLabels;
    if p == 0 {
      TailLabelsAll(d);
      k := 0;
    } else {
      k := LabelsOfTail(d[1 + d[0]..], p - 1 - d[0]);
      k := k + 1;
      TailLabelsStep(d, p, k);
    }
  }

  lemma BoundaryBehind(d: seq<byte>, p: nat)
    requires WellFormed(d) && d[0] != 0 && Boundary(d[1 + d[0]..], p)
    ensures Boundary(d, p + 1 + d[0])
  {
  }

  /** Every number of last labels begins at a boundary. */
  lemma {:induction false} TailOfLabels(d: seq<byte>, k: nat) returns (p: nat)
    requires WellFormed(d) && k <= |Labels(d)|
    ensures Boundary(d, p) && TailLabels(d, p, k)
    decreases |d|
  {
    hide TailLabels, Boundary;
    if k == 0 {
      TailLabelsAll(d);
      FirstBoundary(d);
      p := 0;
    } else {
      p := TailOfLabels(d[1 + d[0]..], k - 1);
      BoundaryBehind(d, p);
      p := p + 1 + d[0];
      TailLabelsStep(d, p, k);
    }
  }

  lemma FirstBoundary(d: seq<byte>)
    requires WellFormed(d)
    ensures Boundary(d, 0)
  {
  }

  lemma SameCount(ls: seq<Label>, ms: seq<Label>)
    requires SameLabels(ls, ms)
    ensures |ls| == |ms|
  {
  }

  /** The last labels of the longer name are those of the shorter one, up to case. */
  predicate LabelSuffix(big: seq<byte>, d: seq<byte>)
    requires WellFormed(big) && WellFormed(d)
  {
    |Labels(d)| <= |Labels(big)| && SameLabels(Labels(big)[|Labels(big)| - |Labels(d)|..], Labels(d))
  }

  lemma TailSuffix(big: seq<byte>, d: seq<byte>, p: nat, k: nat)
    requires WellFormed(big) && WellFormed(d) && TailLabels(big, p, k) && Same(big[p..], d)
    ensures LabelSuffix(big, d) && k == |Labels(big)| - |Labels(d)|
  {
    SameIsLabelwise(big[p..], d);
    SameCount(Labels(big)[k..], Labels(d));
    hide SameLabels, WellFormed, Same;
  }

  lemma LabelsSuffix(big: seq<byte>, d: seq<byte>, p: nat, k: nat)
    requires WellFormed(big) && WellFormed(d) && TailLabels(big, p, k) && Boundary(big, p)
    requires LabelSuffix(big, d) && k == |Labels(big)| - |Labels(d)|
    ensures IsSuffix(big, d)
  {
    SameIsLabelwise(big[p..], d);
    SameLengths(big[p..], d);
    hide SameLabels, WellFormed, Same, Boundary;
  }

  /** A suffix is what its labels say. */
  lemma SuffixIsLabelwise(big: seq<byte>, d: seq<byte>)
    requires WellFormed(big) && WellFormed(d)
    ensures IsSuffix(big, d) <==> LabelSuffix(big, d)
  {
    if IsSuffix(big, d) {
      var k := LabelsOfTail(big, |big| - |d|);
      TailSuffix(big, d, |big| - |d|, k);
    }
    if LabelSuffix(big, d) {
      var k := |Labels(big)| - |Labels(d)|;
      var p := TailOfLabels(big, k);
      hide TailLabels, Boundary, LabelSuffix;
      LabelsSuffix(big, d, p, k);
    }
  }

  lemma SameLengths(d: seq<byte>, e: seq<byte>)
    requires Same(d, e)
    ensures |d| == |e|
  {
    assert |Fold(d)| == |Fold(e)|;
  }

  // ---------- the functions ----------

  method Length(d: seq<byte>) returns (n: nat)
    requires WellFormed(d)
    ensures n == |d|
  {
    n := 0;
    while d[n] != 0
      invariant n < |d| && WellFormed(d[n..])
      decreases |d| - n
    {
      assert d[n..][0] == d[n] && d[n..][1 + d[n]..] == d[n + 1 + d[n]..];
      n := n + 1 + d[n];
    }
    assert d[n..][0] == 0;
    n := n + 1;
  }

  /** Comparison by the order of the lower-cased bytes: negative, zero or positive. */
  method CaseDiff(s: seq<byte>, t: seq<byte>) returns (r: int)
    requires |s| == |t|
    ensures r == Diff(Fold(s), Fold(t))
  {
    var i := 0;
    while i < |s|
      invariant 0 <= i <= |s| && Diff(Fold(s), Fold(t)) == Diff(Fold(s)[i..], Fold(t)[i..])
    {
      var x: int := s[i];
      x := (x + 256 - 65) % 256;
      if x <= 25 { x := x + 97; } else { x := (x + 65) % 256; }
      var y: int := t[i];
      y := (y + 256 - 65) % 256;
      if y <= 25 { y := y + 97; } else { y := (y + 65) % 256; }
      assert x == Lower(s[i]) == Fold(s)[i..][0] && y == Lower(t[i]) == Fold(t)[i..][0];
      if x != y { return x - y; }
      assert Fold(s)[i..][1..] == Fold(s)[i + 1..] && Fold(t)[i..][1..] == Fold(t)[i + 1..];
      i := i + 1;
    }
    return 0;
  }

  /** Difference at the first place where two byte strings differ. */
  function Diff(a: seq<byte>, b: seq<byte>): (r: int)
    requires |a| == |b|
  {
    if a == [] then 0 else if a[0] != b[0] then a[0] - b[0] else Diff(a[1..], b[1..])
  }

  lemma {:induction false} DiffZero(a: seq<byte>, b: seq<byte>)
    requires |a| == |b|
    ensures Diff(a, b) == 0 <==> a == b
  {
    if a != [] {
      DiffZero(a[1..], b[1..]);
      assert a == [a[0]] + a[1..] && b == [b[0]] + b[1..];
    }
  }

  method Equal(d: seq<byte>, e: seq<byte>) returns (same: bool)
    requires WellFormed(d) && WellFormed(e)
    ensures same <==> Same(d, e)
  {
    var len := Length(d);
    var elen := Length(e);
    if len != elen {
      NotSameLength(d, e);
      return false;
    }
    var r := CaseDiff(d, e);
    DiffZero(Fold(d), Fold(e));
    return r == 0;
  }

  /** No boundary before `p` is where `little` would start. */
  ghost predicate NotBefore(big: seq<byte>, little: seq<byte>, p: nat)
    requires WellFormed(big)
  {
    IsSuffix(big, little) ==> p <= |big| - |little|
  }

  lemma NotHere(big: seq<byte>, little: seq<byte>, p: nat)
    requires WellFormed(big) && Boundary(big, p) && p < |big| && NotBefore(big, little, p) && !Same(big[p..], little)
    ensures if big[p] == 0 then !IsSuffix(big, little) else NotBefore(big, little, p + 1 + big[p])
  {
    if IsSuffix(big, little) {
      BoundaryNext(big, p, |big| - |little|);
    }
  }

  lemma Here(big: seq<byte>, little: seq<byte>, p: nat)
    requires WellFormed(big) && Boundary(big, p) && p < |big| && Same(big[p..], little)
    ensures IsSuffix(big, little) && p == |big| - |little|
  {
    assert |Fold(big[p..])| == |Fold(little)|;
  }

  method Suffix(big: seq<byte>, little: seq<byte>) returns (found: bool)
    requires WellFormed(big) && WellFormed(little)
    ensures found <==> IsSuffix(big, little)
  {
    var p: nat;
    found, p := Scan(big, little);
  }

  /** Where the suffix starts; 0 when it is not a suffix. */
  method SuffixPos(big: seq<byte>, little: seq<byte>) returns (p: nat)
    requires WellFormed(big) && WellFormed(little)
    ensures p == if IsSuffix(big, little) then |big| - |little| else 0
  {
    var found;
    found, p := Scan(big, little);
  }

  /** The loop of both functions: try every tail, longest first. */
  method Scan(big: seq<byte>, little: seq<byte>) returns (found: bool, p: nat)
    requires WellFormed(big) && WellFormed(little)
    ensures found <==> IsSuffix(big, little)
    ensures p == if found then |big| - |little| else 0
  {
    p := 0;
    NotEmpty(big);
    assert Boundary(big, 0) && NotBefore(big, little, 0);
    hide WellFormed, Same, IsSuffix, Boundary, NotBefore;
    while true
      invariant Boundary(big, p) && p < |big| && NotBefore(big, little, p)
      decreases |big| - p
    {
      BoundaryTail(big, p);
      var same := Equal(big[p..], little);
      if same {
        Here(big, little, p);
        return true, p;
      }
      NotHere(big, little, p);
      if big[p] == 0 { return false, 0; }
      BoundaryStep(big, p);
      p := p + 1 + big[p];
      BoundaryTail(big, p);
    }
  }
}
