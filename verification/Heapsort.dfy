/** Bottom-up heapsort, the in-place sort that two programs of the repository write out: the largest element
    sinks to a leaf without being compared, then climbs back to its place. */
module Heapsort {

  /** `less` orders the elements strictly, elements that are not ordered being equivalent. */
  ghost predicate StrictWeakOrder<T(!new)>(less: (T, T) -> bool) {
    && (forall x, y :: less(x, y) ==> !less(y, x))
    && (forall x, y, z :: !less(x, y) && !less(y, z) ==> !less(x, z))
  }

  /** `x` may stand before `y`. */
  ghost predicate AtMost<T>(less: (T, T) -> bool, x: T, y: T) {
    !less(y, x)
  }

  ghost predicate Sorted<T>(less: (T, T) -> bool, s: seq<T>) {
    forall i, j :: 0 <= i < j < |s| ==> AtMost(less, s[i], s[j])
  }

  lemma AtMostTransitive<T(!new)>(less: (T, T) -> bool, x: T, y: T, z: T)
    requires StrictWeakOrder(less) && AtMost(less, x, y) && AtMost(less, y, z)
    ensures AtMost(less, x, z)
  {
  }

  /** Positions count from 1, as the parent of position `m` is `m / 2`. */
  function Z<T>(s: seq<T>, m: nat): (x: T)
    requires 1 <= m <= |s|
  {
    s[m - 1]
  }

  function Swap<T>(s: seq<T>, q: nat, p: nat): (r: seq<T>)
    requires 1 <= q <= |s| && 1 <= p <= |s|
    ensures |r| == |s|
    ensures forall m :: 1 <= m <= |s| ==> Z(r, m) == if m == q then Z(s, p) else if m == p then Z(s, q) else Z(s, m)
  {
    s[q - 1 := Z(s, p)][p - 1 := Z(s, q)]
  }

  lemma SwapKeepsElements<T>(s: seq<T>, q: nat, p: nat)
    requires 1 <= q <= |s| && 1 <= p <= |s|
    ensures multiset(Swap(s, q, p)) == multiset(s)
  {
  }

  /** Heap order between positions from `i` to `j`, except where position `q` is concerned. */
  ghost predicate HeapBut<T>(less: (T, T) -> bool, s: seq<T>, i: nat, j: nat, q: nat) {
    && j <= |s|
    && (forall m :: 1 <= i <= m / 2 && m <= j && m != q && m / 2 != q ==> AtMost(less, Z(s, m), Z(s, m / 2)))
    && (forall m :: 1 <= i <= q / 2 && m / 2 == q && m <= j ==> AtMost(less, Z(s, m), Z(s, q / 2)))
  }

  ghost predicate Heap<T>(less: (T, T) -> bool, s: seq<T>, i: nat, j: nat) {
    j <= |s| && forall m :: 1 <= i <= m / 2 && m <= j ==> AtMost(less, Z(s, m), Z(s, m / 2))
  }

  /** The children of `q` are at most the element at `q`. */
  ghost predicate OverChildren<T>(less: (T, T) -> bool, s: seq<T>, j: nat, q: nat) {
    j <= |s| && 1 <= q && forall m :: m / 2 == q && m <= j ==> AtMost(less, Z(s, m), Z(s, q))
  }

  lemma SinkStep<T(!new)>(less: (T, T) -> bool, s: seq<T>, i: nat, j: nat, q: nat, p: nat)
    requires StrictWeakOrder(less) && HeapBut(less, s, i, j, q)
    requires 1 <= i <= q && p / 2 == q && p <= j
    requires forall m :: m / 2 == q && m <= j ==> AtMost(less, Z(s, m), Z(s, p))
    ensures HeapBut(less, Swap(s, q, p), i, j, p)
  {
    var r := Swap(s, q, p);
    forall m | i <= m / 2 && m <= j && m != p && m / 2 != p
      ensures AtMost(less, Z(r, m), Z(r, m / 2))
    {
      if m == q {
      } else if m / 2 == q {
      } else {
      }
    }
  }

  lemma ClimbStep<T(!new)>(less: (T, T) -> bool, s: seq<T>, i: nat, j: nat, q: nat)
    requires StrictWeakOrder(less) && HeapBut(less, s, i, j, q) && OverChildren(less, s, j, q)
    requires 1 <= i < q <= j && i <= q / 2 && less(Z(s, q / 2), Z(s, q))
    ensures HeapBut(less, Swap(s, q, q / 2), i, j, q / 2) && OverChildren(less, Swap(s, q, q / 2), j, q / 2)
  {
    var p := q / 2;
    var r := Swap(s, q, p);
    forall m | m / 2 == p && m <= j
      ensures AtMost(less, Z(r, m), Z(r, p))
      ensures i <= p / 2 ==> AtMost(less, Z(r, m), Z(r, p / 2))
    {
      if m != q {
        AtMostTransitive(less, Z(s, m), Z(s, p), Z(s, q));
        if i <= p / 2 { AtMostTransitive(less, Z(s, m), Z(s, p), Z(s, p / 2)); }
      }
    }
  }

  /** `q` lies in the subtree below `i`. */
  predicate Below(q: nat, i: nat) {
    q >= 1 && (q == i || (q > i && Below(q / 2, i)))
  }

  lemma BelowParent(q: nat, i: nat)
    requires Below(q, i) && q > i
    ensures i <= q / 2 < q && Below(q / 2, i)
  {
  }

  lemma BelowChild(q: nat, p: nat, i: nat)
    requires Below(q, i) && p / 2 == q && p > q >= i
    ensures Below(p, i)
  {
  }

  /** A hole that has climbed high enough leaves heap order everywhere. */
  lemma Settled<T(!new)>(less: (T, T) -> bool, s: seq<T>, i: nat, j: nat, q: nat)
    requires HeapBut(less, s, i, j, q) && OverChildren(less, s, j, q) && 1 <= i <= q <= j && Below(q, i)
    requires q == i || !less(Z(s, q / 2), Z(s, q))
    ensures Heap(less, s, i, j)
  {
  }

  lemma {:induction false} RootIsLargest<T(!new)>(less: (T, T) -> bool, s: seq<T>, j: nat, m: nat)
    requires StrictWeakOrder(less) && Heap(less, s, 1, j) && 1 <= m <= j
    ensures AtMost(less, Z(s, m), Z(s, 1))
  {
    if m > 1 {
      RootIsLargest(less, s, j, m / 2);
      AtMostTransitive(less, Z(s, m), Z(s, m / 2), Z(s, 1));
    }
  }

  /** The elements behind `j` are in order and at least as large as those up to `j`. */
  ghost predicate Done<T>(less: (T, T) -> bool, s: seq<T>, j: nat) {
    && j <= |s|
    && (forall m, l :: 1 <= m < l && j < l <= |s| ==> AtMost(less, Z(s, m), Z(s, l)))
  }

  lemma SwapKeepsDone<T(!new)>(less: (T, T) -> bool, s: seq<T>, j: nat, q: nat, p: nat)
    requires Done(less, s, j) && 1 <= q <= j && 1 <= p <= j
    ensures Done(less, Swap(s, q, p), j)
  {
    var r := Swap(s, q, p);
    forall m, l | 1 <= m < l && j < l <= |s|
      ensures AtMost(less, Z(r, m), Z(r, l))
    {
      assert Z(r, l) == Z(s, l);
    }
  }

  /** Taking the root out of the heap to its end. */
  lemma TakeRoot<T(!new)>(less: (T, T) -> bool, s: seq<T>, j: nat)
    requires StrictWeakOrder(less) && Heap(less, s, 1, j) && Done(less, s, j) && 1 < j
    ensures Done(less, Swap(s, 1, j), j - 1) && HeapBut(less, Swap(s, 1, j), 1, j - 1, 1)
  {
    var r := Swap(s, 1, j);
    forall m, l | 1 <= m < l && j - 1 < l <= |s|
      ensures AtMost(less, Z(r, m), Z(r, l))
    {
      if l == j {
        RootIsLargest(less, s, j, if m == 1 then j else m);
      } else {
        assert Z(r, l) == Z(s, l);
      }
    }
  }

  lemma DoneIsSorted<T(!new)>(less: (T, T) -> bool, s: seq<T>)
    requires Done(less, s, 1) || Done(less, s, 0)
    ensures Sorted(less, s)
  {
    forall i, j | 0 <= i < j < |s|
      ensures AtMost(less, s[i], s[j])
    {
      assert Z(s, i + 1) == s[i] && Z(s, j + 1) == s[j];
    }
  }

  // ---------- the sort ----------

  /** `p` is the larger of the children of `q`. */
  ghost predicate LargestChild<T>(less: (T, T) -> bool, s: seq<T>, j: nat, q: nat, p: nat) {
    p / 2 == q && 1 <= p <= j <= |s| && forall m :: 1 <= m <= j && m / 2 == q ==> AtMost(less, Z(s, m), Z(s, p))
  }

  lemma TwoChildren<T(!new)>(less: (T, T) -> bool, s: seq<T>, j: nat, q: nat)
    requires StrictWeakOrder(less) && 1 <= q && 2 * q < j <= |s|
    ensures LargestChild(less, s, j, q, if !less(Z(s, 2 * q + 1), Z(s, 2 * q)) then 2 * q + 1 else 2 * q)
  {
    forall m | 1 <= m <= j && m / 2 == q
      ensures m == 2 * q || m == 2 * q + 1
    {
    }
  }

  lemma OneChild<T(!new)>(less: (T, T) -> bool, s: seq<T>, j: nat, q: nat)
    requires StrictWeakOrder(less) && 1 <= q && 2 * q == j <= |s|
    ensures LargestChild(less, s, j, q, j)
  {
    forall m | 1 <= m <= j && m / 2 == q
      ensures m == 2 * q
    {
    }
  }

  lemma NoChild<T>(less: (T, T) -> bool, s: seq<T>, j: nat, q: nat)
    requires 1 <= q && 2 * q > j && j <= |s|
    ensures OverChildren(less, s, j, q)
  {
  }

  /** What holds while the element of the hole `q` is out of the array: `s` is the array with that element put back. */
  ghost predicate Open<T(!new)>(less: (T, T) -> bool, z: seq<T>, s: seq<T>, i: nat, j: nat, q: nat) {
    && 1 <= i <= q <= j <= |s| == |z| && Below(q, i)
    && s == z[q - 1 := Z(s, q)]
    && HeapBut(less, s, i, j, q) && Done(less, s, j)
  }

  /** Moving an element into the hole leaves the hole where it was. */
  lemma HoleMoves<T>(z: seq<T>, s: seq<T>, q: nat, p: nat)
    requires 1 <= q <= |s| == |z| && 1 <= p <= |s| && p != q && s == z[q - 1 := Z(s, q)]
    ensures Z(s, p) == z[p - 1] && Z(Swap(s, q, p), p) == Z(s, q)
    ensures Swap(s, q, p) == z[q - 1 := z[p - 1]][p - 1 := Z(Swap(s, q, p), p)]
  {
  }

  lemma OpenParts<T(!new)>(less: (T, T) -> bool, z: seq<T>, s: seq<T>, i: nat, j: nat, q: nat)
    requires Open(less, z, s, i, j, q)
    ensures 1 <= i <= q <= j <= |s| == |z| && Below(q, i) && s == z[q - 1 := Z(s, q)]
    ensures HeapBut(less, s, i, j, q) && Done(less, s, j)
  {
  }

  lemma SinkTo<T(!new)>(less: (T, T) -> bool, z: seq<T>, s: seq<T>, i: nat, j: nat, q: nat, p: nat)
    requires StrictWeakOrder(less) && Open(less, z, s, i, j, q) && LargestChild(less, s, j, q, p)
    ensures Open(less, z[q - 1 := z[p - 1]], Swap(s, q, p), i, j, p)
    ensures multiset(Swap(s, q, p)) == multiset(s) && Z(Swap(s, q, p), p) == Z(s, q)
  {
    hide HeapBut, Done, StrictWeakOrder, Swap, Below;
    OpenParts(less, z, s, i, j, q);
    SinkStep(less, s, i, j, q, p);
    SwapKeepsDone(less, s, j, q, p);
    SwapKeepsElements(s, q, p);
    HoleMoves(z, s, q, p);
    BelowChild(q, p, i);
  }

  lemma ClimbTo<T(!new)>(less: (T, T) -> bool, z: seq<T>, s: seq<T>, i: nat, j: nat, q: nat)
    requires StrictWeakOrder(less) && Open(less, z, s, i, j, q) && OverChildren(less, s, j, q)
    requires q > i && q / 2 >= 1 && less(z[q / 2 - 1], Z(s, q))
    ensures var p := q / 2;
            && Open(less, z[q - 1 := z[p - 1]], Swap(s, q, p), i, j, p) && OverChildren(less, Swap(s, q, p), j, p)
            && multiset(Swap(s, q, p)) == multiset(s) && Z(Swap(s, q, p), p) == Z(s, q)
  {
    hide HeapBut, Done, OverChildren, StrictWeakOrder, Swap, Below;
    var p := q / 2;
    OpenParts(less, z, s, i, j, q);
    BelowParent(q, i);
    HoleMoves(z, s, q, p);
    ClimbStep(less, s, i, j, q);
    SwapKeepsDone(less, s, j, q, p);
    SwapKeepsElements(s, q, p);
  }

  /** The hole sinks to a leaf, the larger child taking its place at each level. */
  method Sink<T(!new)>(less: (T, T) -> bool, z: array<T>, i: nat, j: nat, ghost s0: seq<T>) returns (q: nat, ghost s: seq<T>)
    requires StrictWeakOrder(less) && Open(less, z[..], s0, i, j, i)
    modifies z
    ensures |s| == |s0| && i <= q <= j <= |s| && 1 <= i
    ensures Open(less, z[..], s, i, j, q) && OverChildren(less, s, j, q)
    ensures multiset(s) == multiset(s0) && Z(s, q) == Z(s0, i)
  {
    hide StrictWeakOrder, Open, Swap, LargestChild, OverChildren, Below, Z, AtMost;
    q, s := i, s0;
    var p: nat := q * 2;
    OpenBounds(less, z[..], s, i, j, q);
    while p < j
      invariant 1 <= i <= q <= j <= |s| && |s| == |s0| == z.Length && p == q * 2
      invariant Open(less, z[..], s, i, j, q) && multiset(s) == multiset(s0) && Z(s, q) == Z(s0, i)
      decreases j - q
    {
      LargerOfTwo(less, z[..], s, i, j, q);
      if !less(z[p], z[p - 1]) { p := p + 1; }
      assert LargestChild(less, s, j, q, p);
      s := Fill(less, z, i, j, q, p, s);
      q := p;
      p := q * 2;
    }
    if p == j {
      OneChild(less, s, j, q);
      s := Fill(less, z, i, j, q, p, s);
      q := p;
    }
    NoChild(less, s, j, q);
  }

  /** The larger child fills the hole and leaves one in its own place. */
  method Fill<T(!new)>(less: (T, T) -> bool, z: array<T>, i: nat, j: nat, q: nat, p: nat, ghost s: seq<T>) returns (ghost r: seq<T>)
    requires 1 <= q <= |s|
    requires StrictWeakOrder(less) && Open(less, z[..], s, i, j, q) && LargestChild(less, s, j, q, p)
    modifies z
    ensures i <= p <= j <= |s| == |r|
    ensures Open(less, z[..], r, i, j, p) && multiset(r) == multiset(s) && Z(r, p) == Z(s, q)
  {
    OpenBounds(less, z[..], s, i, j, q);
    SinkTo(less, z[..], s, i, j, q, p);
    OpenBounds(less, z[..][q - 1 := z[p - 1]], Swap(s, q, p), i, j, p);
    hide StrictWeakOrder, Open, Swap, LargestChild;
    z[q - 1] := z[p - 1];
    assert z[..] == old(z[..])[q - 1 := old(z[p - 1])];
    r := Swap(s, q, p);
  }

  lemma OpenBounds<T(!new)>(less: (T, T) -> bool, z: seq<T>, s: seq<T>, i: nat, j: nat, q: nat)
    requires Open(less, z, s, i, j, q)
    ensures 1 <= i <= q <= j <= |s| == |z| && Below(q, i)
  {
  }

  lemma LargerOfTwo<T(!new)>(less: (T, T) -> bool, z: seq<T>, s: seq<T>, i: nat, j: nat, q: nat)
    requires StrictWeakOrder(less) && Open(less, z, s, i, j, q) && 2 * q < j
    ensures LargestChild(less, s, j, q, if !less(z[2 * q], z[2 * q - 1]) then 2 * q + 1 else 2 * q)
  {
    TwoChildren(less, s, j, q);
    assert Z(s, 2 * q) == z[2 * q - 1] && Z(s, 2 * q + 1) == z[2 * q];
  }

  /** The element climbs while its parent is smaller, and is put down. */
  method Climb<T(!new)>(less: (T, T) -> bool, z: array<T>, i: nat, j: nat, t: T, q0: nat, ghost s0: seq<T>)
    requires 1 <= q0 <= |s0|
    requires StrictWeakOrder(less) && Open(less, z[..], s0, i, j, q0) && OverChildren(less, s0, j, q0) && t == Z(s0, q0)
    modifies z
    ensures Heap(less, z[..], i, j) && Done(less, z[..], j) && multiset(z[..]) == multiset(s0)
  {
    var q: nat := q0;
    ghost var s := s0;
    OpenBounds(less, z[..], s, i, j, q);
    hide StrictWeakOrder, Open, Swap, OverChildren;
    while q > i && less(z[q / 2 - 1], t)
      invariant 1 <= i <= q <= j <= |s| && |s| == z.Length && Z(s, q) == t
      invariant Open(less, z[..], s, i, j, q) && OverChildren(less, s, j, q) && multiset(s) == multiset(s0)
      decreases q
    {
      s := Drop(less, z, i, j, q, t, s);
      q := q / 2;
    }
    PutDown(less, z[..], s, i, j, q);
    z[q - 1] := t;
    assert z[..] == s;
  }

  /** The parent drops into the hole. */
  method Drop<T(!new)>(less: (T, T) -> bool, z: array<T>, i: nat, j: nat, q: nat, t: T, ghost s: seq<T>) returns (ghost r: seq<T>)
    requires 1 <= i < q <= j <= |s| == z.Length && Z(s, q) == t && less(z[q / 2 - 1], t)
    requires StrictWeakOrder(less) && Open(less, z[..], s, i, j, q) && OverChildren(less, s, j, q)
    modifies z
    ensures |r| == |s| && i <= q / 2
    ensures Open(less, z[..], r, i, j, q / 2) && OverChildren(less, r, j, q / 2) && multiset(r) == multiset(s) && Z(r, q / 2) == t
  {
    ClimbTo(less, z[..], s, i, j, q);
    OpenBounds(less, z[..][q - 1 := z[q / 2 - 1]], Swap(s, q, q / 2), i, j, q / 2);
    hide StrictWeakOrder, Open, Swap, OverChildren;
    z[q - 1] := z[q / 2 - 1];
    assert z[..] == old(z[..])[q - 1 := old(z[q / 2 - 1])];
    r := Swap(s, q, q / 2);
  }

  lemma PutDown<T(!new)>(less: (T, T) -> bool, z: seq<T>, s: seq<T>, i: nat, j: nat, q: nat)
    requires Open(less, z, s, i, j, q) && OverChildren(less, s, j, q)
    requires q > i && q / 2 >= 1 ==> !less(z[q / 2 - 1], Z(s, q))
    ensures Heap(less, s, i, j) && Done(less, s, j) && s == z[q - 1 := Z(s, q)]
  {
    if q > i {
      BelowParent(q, i);
      assert Z(s, q / 2) == z[q / 2 - 1];
    }
    Settled(less, s, i, j, q);
  }

  lemma OpenNext<T(!new)>(less: (T, T) -> bool, s: seq<T>, i: nat, j: nat)
    requires Heap(less, s, i, j) && Done(less, s, j) && 1 < i <= j
    ensures Open(less, s, s, i - 1, j, i - 1)
  {
    assert s == s[i - 2 := Z(s, i - 1)];
  }

  lemma OpenRoot<T(!new)>(less: (T, T) -> bool, s: seq<T>, j: nat)
    requires StrictWeakOrder(less) && Heap(less, s, 1, j) && Done(less, s, j) && 1 < j
    ensures Open(less, s[j - 1 := s[0]], Swap(s, 1, j), 1, j - 1, 1)
    ensures multiset(Swap(s, 1, j)) == multiset(s) && Z(Swap(s, 1, j), 1) == s[j - 1]
  {
    TakeRoot(less, s, j);
    SwapKeepsElements(s, 1, j);
    hide Heap, Done, HeapBut, StrictWeakOrder;
    assert Swap(s, 1, j) == s[j - 1 := s[0]][0 := s[j - 1]];
  }

  lemma NothingDone<T(!new)>(less: (T, T) -> bool, s: seq<T>)
    ensures Heap(less, s, |s|, |s|) && Done(less, s, |s|)
  {
  }

  method Sort<T(!new)>(less: (T, T) -> bool, z: array<T>)
    requires StrictWeakOrder(less)
    modifies z
    ensures Sorted(less, z[..]) && multiset(z[..]) == multiset(old(z[..]))
  {
    var i: nat, j: nat := z.Length, z.Length;
    NothingDone(less, z[..]);
    hide StrictWeakOrder, Heap, Done, Open, Swap, Sorted;
    while j > 1
      invariant i <= j <= z.Length && (j >= 1 ==> i >= 1) && (j < z.Length ==> i == 1)
      invariant multiset(z[..]) == multiset(old(z[..]))
      invariant Heap(less, z[..], i, j) && Done(less, z[..], j)
      decreases i + j
    {
      ghost var s := z[..];
      var t;
      if i > 1 {
        OpenNext(less, s, i, j);
        i := i - 1;
        t := z[i - 1];
      } else {
        OpenRoot(less, s, j);
        t := z[j - 1];
        z[j - 1] := z[i - 1];
        assert z[..] == s[j - 1 := s[0]];
        s := Swap(s, 1, j);
        j := j - 1;
      }
      var q;
      q, s := Sink(less, z, i, j, s);
      Climb(less, z, i, j, t, q, s);
    }
    DoneIsSorted(less, z[..]);
  }
}
