/** What the compression of names comes to: where a name is cut off, and what is remembered of it for later names. */
module Shortening {
  import opened Bytes
  import opened Domain

  const NAMES := 100
  const TABLE_NAME := 128
  const POINTER_LIMIT := 16384

  // ---------- looking a name up ----------

  function FirstFrom(tab: seq<seq<byte>>, e: seq<byte>, i: nat): (r: nat)
    requires i <= |tab|
    ensures i <= r <= |tab| && (r < |tab| ==> Same(e, tab[r])) && forall j :: i <= j < r ==> !Same(e, tab[j])
    decreases |tab| - i
  {
    if i == |tab| || Same(e, tab[i]) then i else FirstFrom(tab, e, i + 1)
  }

  /** The first entry that is the name up to case, or the number of entries. */
  function FirstMatch(tab: seq<seq<byte>>, e: seq<byte>): (i: nat)
    ensures i <= |tab| && (i < |tab| ==> Same(e, tab[i])) && forall j :: 0 <= j < i ==> !Same(e, tab[j])
  {
    FirstFrom(tab, e, 0)
  }

  predicate Known(tab: seq<seq<byte>>, e: seq<byte>) {
    FirstMatch(tab, e) < |tab|
  }

  lemma KnownBy(tab: seq<seq<byte>>, e: seq<byte>, i: nat)
    requires i < |tab| && Same(e, tab[i])
    ensures Known(tab, e) && FirstMatch(tab, e) <= i
  {
    hide Same;
  }

  /** What stands for the name in a longer table, if the match is among the entries that the shorter one has too. */
  lemma SameMatch(tab0: seq<seq<byte>>, tab: seq<seq<byte>>, e: seq<byte>, i: nat)
    requires tab0 <= tab && i <= |tab| && forall j :: 0 <= j < i ==> !Same(e, tab[j])
    ensures i < |tab0| && Same(e, tab[i]) ==> FirstMatch(tab0, e) == i
    ensures i == |tab| ==> !Known(tab0, e)
  {
    hide Same;
    assert forall j :: 0 <= j < |tab0| ==> tab0[j] == tab[j];
  }

  // ---------- where a name is cut ----------

  function CutFrom(tab: seq<seq<byte>>, d: seq<byte>, k: nat): (c: nat)
    ensures k <= c && (c < |d| && d[c] != 0 ==> Known(tab, d[c..]))
    decreases |d| - k
  {
    if k >= |d| || d[k] == 0 || Known(tab, d[k..]) then k else CutFrom(tab, d, k + 1 + d[k])
  }

  /** Where the rest of the name is known, or the name ends. */
  function CutOf(tab: seq<seq<byte>>, d: seq<byte>): (c: nat) {
    CutFrom(tab, d, 0)
  }

  lemma {:induction false} CutFromIs(tab: seq<seq<byte>>, d: seq<byte>, k: nat)
    requires WellFormed(d) && Boundary(d, k)
    ensures var c := CutFrom(tab, d, k);
            && k <= c < |d| && Boundary(d, c) && (d[c] == 0 || Known(tab, d[c..]))
            && forall j :: k <= j < c && Boundary(d, j) ==> !Known(tab, d[j..])
    decreases |d| - k
  {
    hide WellFormed, Boundary, Known;
    BoundaryTail(d, k);
    if d[k] != 0 && !Known(tab, d[k..]) {
      BoundaryStep(d, k);
      BoundaryTail(d, k + 1 + d[k]);
      CutFromIs(tab, d, k + 1 + d[k]);
      forall j | k < j && Boundary(d, j)
        ensures k + 1 + d[k] <= j
      {
        BoundaryNext(d, k, j);
      }
    }
  }

  /** A name is cut at its first label boundary behind which the rest is known; if there is none, at its final zero. */
  lemma CutIs(tab: seq<seq<byte>>, d: seq<byte>)
    requires WellFormed(d)
    ensures var c := CutOf(tab, d);
            && c < |d| && Boundary(d, c) && (d[c] == 0 || Known(tab, d[c..]))
            && forall j :: 0 <= j < c && Boundary(d, j) ==> !Known(tab, d[j..])
  {
    hide WellFormed, Known;
    assert Boundary(d, 0);
    CutFromIs(tab, d, 0);
  }

  function Pointer(p: nat): (s: seq<byte>)
    ensures |s| == 2
  {
    Pack2Big((49152 + p) % 65536)
  }

  /** The name as it is written: up to the cut, and then a pointer to the first entry for the rest, or the final zero. */
  function Encoded(tab: seq<seq<byte>>, ptr: seq<nat>, d: seq<byte>): (s: seq<byte>)
    requires |tab| == |ptr|
  {
    var c := CutOf(tab, d);
    if c < |d| && d[c] != 0 then d[..c] + Pointer(ptr[FirstMatch(tab, d[c..])]) else d
  }

  /** Writing a name takes no more room than the name has bytes, and less when it is cut. */
  lemma EncodedIsShorter(tab: seq<seq<byte>>, ptr: seq<nat>, d: seq<byte>)
    requires |tab| == |ptr| && WellFormed(d)
    ensures var c := CutOf(tab, d); c < |d| && if d[c] == 0 then Encoded(tab, ptr, d) == d else c + 2 == |Encoded(tab, ptr, d)| < |d|
  {
    hide WellFormed, Known, Pointer;
    CutIs(tab, d);
    BoundaryTail(d, CutOf(tab, d));
    TailIsLong(d[CutOf(tab, d)..]);
  }

  lemma TailIsLong(e: seq<byte>)
    requires WellFormed(e)
    ensures e != [] && (e[0] != 0 ==> |e| >= 3)
  {
  }

  // ---------- what is remembered ----------

  predicate Fits(d: seq<byte>, k: nat, start: nat) {
    |d| - k <= TABLE_NAME && start + k < POINTER_LIMIT
  }

  /** The table after the labels from `k` to `c` of a name that begins at `start` have been written. */
  function Noted(tab: seq<seq<byte>>, ptr: seq<nat>, d: seq<byte>, k: nat, c: nat, start: nat): (r: (seq<seq<byte>>, seq<nat>))
    requires |tab| == |ptr|
    ensures |r.0| == |r.1| && tab <= r.0 && ptr <= r.1
    decreases |d| - k
  {
    if k >= c || k >= |d| then (tab, ptr)
    else if Fits(d, k, start) && |tab| < NAMES then Noted(tab + [d[k..]], ptr + [start + k], d, k + 1 + d[k], c, start)
    else Noted(tab, ptr, d, k + 1 + d[k], c, start)
  }

  /** The table after the name has been written at `start`. */
  function After(tab: seq<seq<byte>>, ptr: seq<nat>, d: seq<byte>, start: nat): (r: (seq<seq<byte>>, seq<nat>))
    requires |tab| == |ptr|
    ensures |r.0| == |r.1| && tab <= r.0 && ptr <= r.1
  {
    Noted(tab, ptr, d, 0, CutOf(tab, d), start)
  }

  function TailsAt(d: seq<byte>, ks: seq<nat>): (r: seq<seq<byte>>)
    requires forall i :: 0 <= i < |ks| ==> ks[i] <= |d|
  {
    seq(|ks|, i requires 0 <= i < |ks| => d[ks[i]..])
  }

  function PlacesAt(ks: seq<nat>, start: nat): (r: seq<nat>) {
    seq(|ks|, i requires 0 <= i < |ks| => start + ks[i])
  }

  /** The label boundaries from `k` to `c` whose tails are short enough and early enough, in order, as many as there is
      room for: one that is missing comes behind all of them. */
  ghost predicate Passed(ks: seq<nat>, d: seq<byte>, k: nat, c: nat, start: nat, room: nat)
    requires WellFormed(d)
  {
    && |ks| <= room
    && (forall i :: 0 <= i < |ks| ==> k <= ks[i] < c && ks[i] <= |d| && Boundary(d, ks[i]) && Fits(d, ks[i], start))
    && (forall i, j :: 0 <= i < j < |ks| ==> ks[i] < ks[j])
    && forall j: nat :: k <= j < c && Boundary(d, j) && Fits(d, j, start) ==>
         j in ks || (|ks| == room && forall i :: 0 <= i < |ks| ==> ks[i] < j)
  }

  lemma {:induction false} NotedIs(tab: seq<seq<byte>>, ptr: seq<nat>, d: seq<byte>, k: nat, c: nat, start: nat) returns (ks: seq<nat>)
    requires WellFormed(d) && Boundary(d, k) && Boundary(d, c) && k <= c && |tab| == |ptr| && |tab| <= NAMES
    ensures Passed(ks, d, k, c, start, NAMES - |tab|)
    ensures Noted(tab, ptr, d, k, c, start) == (tab + TailsAt(d, ks), ptr + PlacesAt(ks, start))
    decreases |d| - k
  {
    hide WellFormed, Boundary, Fits;
    ks := [];
    assert tab + TailsAt(d, ks) == tab && ptr + PlacesAt(ks, start) == ptr;
    if k < c {
      BoundaryNext(d, k, c);
      BoundaryStep(d, k);
      BoundaryTail(d, k + 1 + d[k]);
      var notes := Fits(d, k, start) && |tab| < NAMES;
      if notes {
        var rest := NotedIs(tab + [d[k..]], ptr + [start + k], d, k + 1 + d[k], c, start);
        PassedOne(rest, d, k, c, start, NAMES - |tab|);
        ks := [k] + rest;
        NotesOne(tab, ptr, d, k, start, rest);
      } else {
        ks := NotedIs(tab, ptr, d, k + 1 + d[k], c, start);
        PassedNone(ks, d, k, c, start, NAMES - |tab|);
      }
    }
  }

  lemma PassedOne(rest: seq<nat>, d: seq<byte>, k: nat, c: nat, start: nat, room: nat)
    requires WellFormed(d) && Boundary(d, k) && k < |d| && k < c && d[k] != 0 && room > 0 && Fits(d, k, start)
    requires Passed(rest, d, k + 1 + d[k], c, start, room - 1)
    ensures Passed([k] + rest, d, k, c, start, room)
  {
    hide WellFormed, Boundary, Fits;
    var ks := [k] + rest;
    forall j: nat | k <= j < c && Boundary(d, j) && Fits(d, j, start)
      ensures j in ks || (|ks| == room && forall i :: 0 <= i < |ks| ==> ks[i] < j)
    {
      if j != k { BoundaryNext(d, k, j); }
    }
  }

  lemma PassedNone(ks: seq<nat>, d: seq<byte>, k: nat, c: nat, start: nat, room: nat)
    requires WellFormed(d) && Boundary(d, k) && k < |d| && k < c && d[k] != 0 && (room == 0 || !Fits(d, k, start))
    requires Passed(ks, d, k + 1 + d[k], c, start, room)
    ensures Passed(ks, d, k, c, start, room)
  {
    hide WellFormed, Boundary, Fits;
    forall j: nat | k <= j < c && Boundary(d, j) && Fits(d, j, start)
      ensures j in ks || (|ks| == room && forall i :: 0 <= i < |ks| ==> ks[i] < j)
    {
      if j != k { BoundaryNext(d, k, j); }
    }
  }

  lemma NotesOne(tab: seq<seq<byte>>, ptr: seq<nat>, d: seq<byte>, k: nat, start: nat, rest: seq<nat>)
    requires k <= |d| && forall i :: 0 <= i < |rest| ==> rest[i] <= |d|
    ensures tab + [d[k..]] + TailsAt(d, rest) == tab + TailsAt(d, [k] + rest)
    ensures ptr + [start + k] + PlacesAt(rest, start) == ptr + PlacesAt([k] + rest, start)
  {
    assert [d[k..]] + TailsAt(d, rest) == TailsAt(d, [k] + rest);
    assert [start + k] + PlacesAt(rest, start) == PlacesAt([k] + rest, start);
  }

  /** The table gains the tails that are passed over, in front of the cut, and where they start; nothing else changes. */
  lemma AfterIs(tab: seq<seq<byte>>, ptr: seq<nat>, d: seq<byte>, start: nat) returns (ks: seq<nat>)
    requires WellFormed(d) && |tab| == |ptr| && |tab| <= NAMES
    ensures Passed(ks, d, 0, CutOf(tab, d), start, NAMES - |tab|)
    ensures After(tab, ptr, d, start) == (tab + TailsAt(d, ks), ptr + PlacesAt(ks, start))
  {
    hide WellFormed, Known;
    assert Boundary(d, 0);
    CutIs(tab, d);
    ks := NotedIs(tab, ptr, d, 0, CutOf(tab, d), start);
  }

  /** A short name that has been written early enough is nothing but a pointer when it comes again, in whatever case; if
      it was the first name of the packet, a pointer to it. */
  lemma AgainIsPointer(tab: seq<seq<byte>>, ptr: seq<nat>, d: seq<byte>, start: nat, e: seq<byte>)
    requires WellFormed(d) && d[0] != 0 && |d| <= TABLE_NAME && start < POINTER_LIMIT && |tab| == |ptr| && |tab| < NAMES
    requires WellFormed(e) && Same(e, d)
    ensures var t := After(tab, ptr, d, start);
            && Known(t.0, e) && Encoded(t.0, t.1, e) == Pointer(t.1[FirstMatch(t.0, e)])
            && (tab == [] ==> Encoded(t.0, t.1, e) == Pointer(start))
  {
    var t := After(tab, ptr, d, start);
    assert d[0..] == d && e[0..] == e && e[..0] == [];
    SameFirst(e, d);
    hide WellFormed, Same;
    var i := if Known(tab, d) then FirstMatch(tab, d) else |tab|;
    assert Same(e, t.0[i]) by { SameThrough(e, d, t.0[i]); }
    KnownBy(t.0, e, i);
  }

  lemma SameThrough(a: seq<byte>, b: seq<byte>, c: seq<byte>)
    requires Same(a, b) && (b == c || Same(b, c))
    ensures Same(a, c)
  {
  }

  // ---------- while a name is being written ----------

  /** The labels up to `k` have been written: nothing was known before, and what remains decides the rest. */
  ghost predicate Going(tab0: seq<seq<byte>>, ptr0: seq<nat>, tab: seq<seq<byte>>, ptr: seq<nat>, d: seq<byte>, k: nat, start: nat)
    requires |tab0| == |ptr0| && |tab| == |ptr|
  {
    CutFrom(tab0, d, k) == CutOf(tab0, d) && Noted(tab, ptr, d, k, CutOf(tab0, d), start) == After(tab0, ptr0, d, start)
  }

  lemma GoingBegins(tab0: seq<seq<byte>>, ptr0: seq<nat>, d: seq<byte>, start: nat)
    requires |tab0| == |ptr0|
    ensures Going(tab0, ptr0, tab0, ptr0, d, 0, start)
  {
  }

  lemma GoingMore(tab0: seq<seq<byte>>, ptr0: seq<nat>, tab: seq<seq<byte>>, ptr: seq<nat>, tab': seq<seq<byte>>, ptr': seq<nat>,
                  d: seq<byte>, k: nat, start: nat)
    requires |tab0| == |ptr0| && |tab| == |ptr| && Going(tab0, ptr0, tab, ptr, d, k, start)
    requires k < |d| && d[k] != 0 && !Known(tab0, d[k..]) && k + 1 + d[k] < |d|
    requires if Fits(d, k, start) && |tab| < NAMES then tab' == tab + [d[k..]] && ptr' == ptr + [start + k] else tab' == tab && ptr' == ptr
    ensures Going(tab0, ptr0, tab', ptr', d, k + 1 + d[k], start)
    ensures |Encoded(tab0, ptr0, d)| > k + 1 + d[k]
  {
    hide Known, Pointer;
  }

  lemma GoingEnds(tab0: seq<seq<byte>>, ptr0: seq<nat>, tab: seq<seq<byte>>, ptr: seq<nat>, d: seq<byte>, k: nat, start: nat)
    requires |tab0| == |ptr0| && |tab| == |ptr| && Going(tab0, ptr0, tab, ptr, d, k, start)
    requires k < |d| && (d[k] == 0 || Known(tab0, d[k..])) && (d[k] == 0 ==> k + 1 == |d|)
    ensures (tab, ptr) == After(tab0, ptr0, d, start)
    ensures Encoded(tab0, ptr0, d) == d[..k] + if d[k] == 0 then [0] else Pointer(ptr0[FirstMatch(tab0, d[k..])])
  {
    hide Known, Pointer;
  }
}
