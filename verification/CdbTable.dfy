/** Open-addressed hash tables with linear probing, as the constant database uses them. */
module CdbTable {
  import opened Bytes

  /** A hash and the file position of a record; position 0 marks a free slot. */
  datatype Hp = Hp(h: uint32, p: uint32)

  const FREE := Hp(0, 0)

  /** The slot `j` places after `s`, going round. */
  function Slot(s: nat, j: nat, len: nat): (i: nat)
    requires s < len && j < len
    ensures i < len
  {
    if s + j < len then s + j else s + j - len
  }

  function Start(h: uint32, len: nat): (s: nat)
    requires len > 0
    ensures s < len
  {
    h / 256 % len
  }

  /** How many slots a search for room passes: the number of used slots from `s` on. */
  function Passed(t: seq<Hp>, s: nat, j: nat): (e: nat)
    requires s < |t| && j <= |t|
    ensures j <= e <= |t|
    ensures e < |t| ==> t[Slot(s, e, |t|)].p == 0
    ensures forall i :: j <= i < e ==> t[Slot(s, i, |t|)].p != 0
    decreases |t| - j
  {
    if j == |t| || t[Slot(s, j, |t|)].p == 0 then j else Passed(t, s, j + 1)
  }

  function Place(t: seq<Hp>, x: Hp): (r: seq<Hp>)
    requires |t| > 0
    ensures |r| == |t|
  {
    var s := Start(x.h, |t|);
    var e := Passed(t, s, 0);
    if e == |t| then t else t[Slot(s, e, |t|) := x]
  }

  /** The table of `len` slots after all of `xs` have been placed in order. */
  function Build(xs: seq<Hp>, len: nat): (t: seq<Hp>)
    requires xs != [] ==> len > 0
    ensures |t| == len
  {
    if xs == [] then seq(len, i => FREE) else Place(Build(xs[..|xs| - 1], len), xs[|xs| - 1])
  }

  /** The entries of hash `h`, in order. */
  function Select(xs: seq<Hp>, h: uint32): (r: seq<Hp>) {
    if xs == [] then []
    else Select(xs[..|xs| - 1], h) + if xs[|xs| - 1].h == h then [xs[|xs| - 1]] else []
  }

  /** What a reader sees: the entries of hash `h` met from the `j`-th probe on, up to the first free slot. */
  function Probed(t: seq<Hp>, s: nat, j: nat, h: uint32): (r: seq<Hp>)
    requires s < |t| && j <= |t|
    decreases |t| - j
  {
    if j == |t| || t[Slot(s, j, |t|)].p == 0 then []
    else (if t[Slot(s, j, |t|)].h == h then [t[Slot(s, j, |t|)]] else []) + Probed(t, s, j + 1, h)
  }

  /** The used slots of hash `h` in probe order, free slots skipped. */
  function Around(t: seq<Hp>, s: nat, j: nat, h: uint32): (r: seq<Hp>)
    requires s < |t| && j <= |t|
    decreases |t| - j
  {
    if j == |t| then []
    else
      var x := t[Slot(s, j, |t|)];
      (if x.p != 0 && x.h == h then [x] else []) + Around(t, s, j + 1, h)
  }

  function Used(t: seq<Hp>): (n: nat)
    ensures n <= |t|
  {
    if t == [] then 0 else Used(t[..|t| - 1]) + if t[|t| - 1].p != 0 then 1 else 0
  }

  // ---------- counting ----------

  lemma {:induction false} FullIsFull(t: seq<Hp>)
    requires forall i :: 0 <= i < |t| ==> t[i].p != 0
    ensures Used(t) == |t|
  {
    if t != [] { FullIsFull(t[..|t| - 1]); }
  }

  lemma {:induction false} UsedUpdate(t: seq<Hp>, i: nat, x: Hp)
    requires i < |t| && t[i].p == 0 && x.p != 0
    ensures Used(t[i := x]) == Used(t) + 1
  {
    var n := |t| - 1;
    if i < n {
      UsedUpdate(t[..n], i, x);
      assert t[i := x][..n] == t[..n][i := x];
    } else {
      assert t[i := x][..n] == t[..n];
    }
  }

  /** In a table that is not full the search for room ends. */
  lemma RoomLeft(t: seq<Hp>, s: nat)
    requires s < |t| && Used(t) < |t|
    ensures Passed(t, s, 0) < |t|
  {
    if Passed(t, s, 0) == |t| {
      forall i | 0 <= i < |t|
        ensures t[i].p != 0
      {
        assert Slot(s, if i >= s then i - s else i - s + |t|, |t|) == i;
      }
      FullIsFull(t);
    }
  }

  lemma {:induction false} EmptyUsed(len: nat)
    ensures Used(seq(len, i => FREE)) == 0
  {
    if len > 0 {
      assert seq(len, i => FREE)[..len - 1] == seq(len - 1, i => FREE);
      EmptyUsed(len - 1);
    }
  }

  // ---------- the probing invariant ----------

  /** From the start of its hash to any used slot there is no free slot. */
  ghost predicate Reachable(t: seq<Hp>) {
    forall h: uint32, e, i :: 0 <= i < e < |t|
      && t[Slot(Start(h, |t|), e, |t|)].p != 0 && t[Slot(Start(h, |t|), e, |t|)].h == h
      ==> t[Slot(Start(h, |t|), i, |t|)].p != 0
  }

  lemma {:induction false} AroundNone(t: seq<Hp>, s: nat, j: nat, h: uint32)
    requires s < |t| && j <= |t|
    requires forall i :: j <= i < |t| ==> t[Slot(s, i, |t|)].p == 0 || t[Slot(s, i, |t|)].h != h
    ensures Around(t, s, j, h) == []
    decreases |t| - j
  {
    if j < |t| { AroundNone(t, s, j + 1, h); }
  }

  /** Filling the free slot at probe `e` adds the new entry to its own hash, after the entries already there, and to no other. */
  lemma {:induction false} AroundPlace(t: seq<Hp>, s: nat, e: nat, x: Hp, j: nat, h: uint32)
    requires s < |t| && e < |t| && j <= |t| && t[Slot(s, e, |t|)].p == 0 && x.p != 0
    requires x.h == h ==> forall i :: e < i < |t| ==> t[Slot(s, i, |t|)].p == 0 || t[Slot(s, i, |t|)].h != h
    ensures Around(t[Slot(s, e, |t|) := x], s, j, h) ==
            Around(t, s, j, h) + if x.h == h && j <= e then [x] else []
    decreases |t| - j
  {
    var u := t[Slot(s, e, |t|) := x];
    if j < |t| {
      AroundPlace(t, s, e, x, j + 1, h);
      if j == e {
        if x.h == h {
          AroundNone(t, s, j + 1, h);
          AroundNone(t, s, j, h);
        }
      } else {
        assert u[Slot(s, j, |t|)] == t[Slot(s, j, |t|)];
      }
    }
  }

  lemma {:induction false} ProbedIsAround(t: seq<Hp>, h: uint32, j: nat)
    requires |t| > 0 && j <= |t| && Reachable(t)
    ensures Probed(t, Start(h, |t|), j, h) == Around(t, Start(h, |t|), j, h)
    decreases |t| - j
  {
    var s := Start(h, |t|);
    if j < |t| {
      if t[Slot(s, j, |t|)].p == 0 {
        AroundNone(t, s, j, h);
      } else {
        ProbedIsAround(t, h, j + 1);
      }
    }
  }

  lemma PlaceReachable(t: seq<Hp>, x: Hp)
    requires |t| > 0 && Reachable(t) && Used(t) < |t| && x.p != 0
    ensures Reachable(Place(t, x))
  {
    var n := |t|;
    var s := Start(x.h, n);
    RoomLeft(t, s);
    var w := Slot(s, Passed(t, s, 0), n);
    var u := Place(t, x);
    forall h: uint32, e, i | 0 <= i < e < n && u[Slot(Start(h, n), e, n)].p != 0 && u[Slot(Start(h, n), e, n)].h == h
      ensures u[Slot(Start(h, n), i, n)].p != 0
    {
      if Slot(Start(h, n), e, n) != w {
        assert t[Slot(Start(h, n), i, n)].p != 0;
      }
    }
  }

  lemma PlaceAround(t: seq<Hp>, x: Hp, h: uint32)
    requires |t| > 0 && Reachable(t) && Used(t) < |t| && x.p != 0
    ensures Around(Place(t, x), Start(h, |t|), 0, h) ==
            Around(t, Start(h, |t|), 0, h) + if x.h == h then [x] else []
  {
    var n := |t|;
    var s0, s := Start(x.h, n), Start(h, n);
    RoomLeft(t, s0);
    var e0 := Passed(t, s0, 0);
    var w := Slot(s0, e0, n);
    var e := if w >= s then w - s else w - s + n;
    assert Slot(s, e, n) == w;
    AroundPlace(t, s, e, x, 0, h);
  }

  lemma {:induction false} Built(xs: seq<Hp>, len: nat)
    requires |xs| <= len && forall i :: 0 <= i < |xs| ==> xs[i].p != 0
    ensures Used(Build(xs, len)) == |xs| && Reachable(Build(xs, len))
    ensures len > 0 ==> forall h: uint32 :: Around(Build(xs, len), Start(h, len), 0, h) == Select(xs, h)
  {
    var t := Build(xs, len);
    if xs == [] {
      EmptyUsed(len);
      if len > 0 {
        forall h: uint32
          ensures Around(t, Start(h, len), 0, h) == Select(xs, h)
        {
          AroundNone(t, Start(h, len), 0, h);
        }
      }
    } else {
      var ys, x := xs[..|xs| - 1], xs[|xs| - 1];
      Built(ys, len);
      var b := Build(ys, len);
      PlaceReachable(b, x);
      RoomLeft(b, Start(x.h, len));
      UsedUpdate(b, Slot(Start(x.h, len), Passed(b, Start(x.h, len), 0), len), x);
      forall h: uint32
        ensures Around(t, Start(h, len), 0, h) == Select(xs, h)
      {
        PlaceAround(b, x, h);
      }
    }
  }

  /** Linear probing loses nothing and keeps the order: a search for `h` that stops at the first free slot
      meets exactly the entries of hash `h`, in the order in which they were placed. */
  lemma ProbeFindsAll(xs: seq<Hp>, len: nat, h: uint32)
    requires |xs| < len && forall i :: 0 <= i < |xs| ==> xs[i].p != 0
    ensures Probed(Build(xs, len), Start(h, len), 0, h) == Select(xs, h)
    ensures Passed(Build(xs, len), Start(h, len), 0) < len
  {
    Built(xs, len);
    ProbedIsAround(Build(xs, len), h, 0);
    RoomLeft(Build(xs, len), Start(h, len));
  }
}
