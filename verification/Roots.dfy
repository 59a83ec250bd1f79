/** The zones whose servers the administrator has given: the root and perhaps others. */
module Roots {
  import opened Bytes
  import opened Domain

  const ROOT_SERVERS := 16

  datatype Root = Root(name: seq<byte>, servers: seq<Ip>)

  ghost predicate RootsOk(roots: seq<Root>) {
    forall i :: 0 <= i < |roots| ==> WellFormed(roots[i].name) && |roots[i].servers| == ROOT_SERVERS
  }

  /** The place of the zone in the list. */
  function Find(roots: seq<Root>, d: seq<byte>): (i: Option<nat>)
    ensures i.Some? ==> i.value < |roots|
  {
    FindFrom(roots, d, 0)
  }

  function FindFrom(roots: seq<Root>, d: seq<byte>, i: nat): (r: Option<nat>)
    ensures r.Some? ==> i <= r.value < |roots|
    decreases |roots| - i
  {
    if i >= |roots| then None else if Same(roots[i].name, d) then Some(i) else FindFrom(roots, d, i + 1)
  }

  /** The place of the first zone in the list that ends the name, label by label from the offset `at` on. */
  function Search(roots: seq<Root>, d: seq<byte>, at: nat): (r: Option<nat>)
    decreases |d| - at
  {
    if at >= |d| then None
    else match Find(roots, d[at..])
      case Some(i) => Some(i)
      case None => if d[at] == 0 then None else Search(roots, d, at + 1 + d[at])
  }

  predicate SameRoots(roots: seq<Root>, d: seq<byte>, e: seq<byte>) {
    Search(roots, d, 0) == Search(roots, e, 0)
  }

  method FindRoot(roots: seq<Root>, d: seq<byte>) returns (r: Option<nat>)
    requires RootsOk(roots) && WellFormed(d)
    ensures r == Find(roots, d)
  {
    hide WellFormed, Same;
    var i: nat := 0;
    while i < |roots|
      invariant i <= |roots| && Find(roots, d) == FindFrom(roots, d, i)
    {
      var same := Equal(roots[i].name, d);
      if same { return Some(i); }
      i := i + 1;
    }
    return None;
  }

  method SearchRoot(roots: seq<Root>, d: seq<byte>) returns (r: Option<nat>)
    requires RootsOk(roots) && WellFormed(d)
    ensures r == Search(roots, d, 0)
  {
    hide WellFormed, Boundary, Find, RootsOk;
    var at: nat := 0;
    StartsAtBoundary(d);
    while true
      invariant at < |d| && Boundary(d, at) && Search(roots, d, 0) == Search(roots, d, at)
      decreases |d| - at
    {
      BoundaryTail(d, at);
      r := FindRoot(roots, d[at..]);
      if r.Some? || d[at] == 0 { return; }
      BoundaryStep(d, at);
      at := at + 1 + d[at];
      BoundaryTail(d, at);
    }
  }

  method RootsSame(roots: seq<Root>, d: seq<byte>, e: seq<byte>) returns (same: bool)
    requires RootsOk(roots) && WellFormed(d) && WellFormed(e)
    ensures same <==> SameRoots(roots, d, e)
  {
    var i := SearchRoot(roots, d);
    var j := SearchRoot(roots, e);
    return i == j;
  }

  lemma StartsAtBoundary(d: seq<byte>)
    requires WellFormed(d)
    ensures d != [] && Boundary(d, 0)
  {
  }

  /** The search stops at the longest ending of the name that is in the list, and finds nothing only if none is. */
  lemma {:induction false} SearchIsClosest(roots: seq<Root>, d: seq<byte>, at: nat) returns (m: nat)
    requires WellFormed(d) && Boundary(d, at)
    ensures Search(roots, d, at).Some? ==> at <= m < |d| && Boundary(d, m) && Find(roots, d[m..]) == Search(roots, d, at)
    ensures forall k :: at <= k < (if Search(roots, d, at).Some? then m else |d|) && k <= |d| && Boundary(d, k) ==>
              Find(roots, d[k..]) == None
    decreases |d| - at
  {
    hide Find, WellFormed;
    m := at;
    BoundaryTail(d, at);
    if Find(roots, d[at..]) == None {
      forall k | at < k && Boundary(d, k)
        ensures d[at] != 0 && at + 1 + d[at] <= k
      {
        BoundaryNext(d, at, k);
      }
      if d[at] != 0 {
        BoundaryStep(d, at);
        m := SearchIsClosest(roots, d, at + 1 + d[at]);
      }
    }
  }
}
