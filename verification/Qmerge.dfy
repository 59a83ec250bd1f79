/** Merging of equal questions: queries share a slot, which sends the question once and keeps the result for all. */
module Qmerge {
  import opened Domain
  import opened Bytes

  /** One slot for every client; each client has one query, and each query at most one handle. */
  const CLIENTS := 220

  datatype Key = Key(q: seq<byte>, qtype: seq<byte>, control: seq<byte>)

  predicate KeyEqual(a: Key, b: Key) {
    a.qtype == b.qtype && Same(a.q, b.q) && Same(a.control, b.control)
  }

  /** What a question is about once the case of letters is put aside. */
  function Folded(k: Key): (f: Key) {
    Key(Fold(k.q), k.qtype, Fold(k.control))
  }

  /** Two questions share a transmission exactly when they agree in name and zone up to case, and in type. */
  lemma KeysShare(a: Key, b: Key)
    ensures KeyEqual(a, b) <==> Folded(a) == Folded(b)
  {
  }

  /** A call on the transmission of a slot: prepare to wait, or look what has happened, with the result. */
  datatype Call = Io | Got(result: int)

  /** `calls` records what was done with the transmission since it was started. */
  datatype Slot = Slot(active: nat, key: Key, state: int, calls: seq<Call>)

  const NONE: int := -1

  // ---------- counting handles ----------

  function Holders(h: seq<int>, i: nat): (n: nat) {
    if h == [] then 0 else Holders(h[..|h| - 1], i) + if h[|h| - 1] == i then 1 else 0
  }

  /** How many handles point to one of the first `n` slots. */
  function HoldersBelow(h: seq<int>, n: nat): (m: nat)
    ensures m <= |h|
  {
    if h == [] then 0 else HoldersBelow(h[..|h| - 1], n) + if 0 <= h[|h| - 1] < n then 1 else 0
  }

  lemma {:induction false} BelowNext(h: seq<int>, n: nat)
    ensures HoldersBelow(h, n + 1) == HoldersBelow(h, n) + Holders(h, n)
  {
    if h != [] { BelowNext(h[..|h| - 1], n); }
  }

  lemma {:induction false} BelowCounts(h: seq<int>, n: nat)
    requires forall i: nat :: i < n ==> Holders(h, i) > 0
    ensures HoldersBelow(h, n) >= n
  {
    if n > 0 {
      BelowCounts(h, n - 1);
      BelowNext(h, n - 1);
    }
  }

  lemma {:induction false} BelowMisses(h: seq<int>, n: nat, j: nat)
    requires j < |h| && h[j] == NONE
    ensures HoldersBelow(h, n) < |h|
  {
    if j < |h| - 1 { BelowMisses(h[..|h| - 1], n, j); }
  }

  /** Whoever has no handle finds a slot that nobody holds. */
  lemma SomeSlotFree(h: seq<int>, j: nat) returns (i: nat)
    requires |h| == CLIENTS && j < |h| && h[j] == NONE
    ensures i < CLIENTS && Holders(h, i) == 0
  {
    BelowMisses(h, CLIENTS, j);
    if forall i: nat :: i < CLIENTS ==> Holders(h, i) > 0 {
      BelowCounts(h, CLIENTS);
    }
    i :| i < CLIENTS && Holders(h, i) == 0;
  }

  lemma {:induction false} HoldersChange(h: seq<int>, j: nat, x: int, i: nat)
    requires j < |h|
    ensures Holders(h[j := x], i) + (if h[j] == i then 1 else 0) == Holders(h, i) + if x == i then 1 else 0
  {
    var r := h[j := x];
    if j == |h| - 1 {
      assert r[..|r| - 1] == h[..|h| - 1];
    } else {
      assert r[..|r| - 1] == h[..|h| - 1][j := x];
      HoldersChange(h[..|h| - 1], j, x, i);
    }
  }

  lemma {:induction false} HoldersSee(h: seq<int>, j: nat, i: nat)
    requires j < |h| && h[j] == i
    ensures Holders(h, i) > 0
  {
    if j < |h| - 1 { HoldersSee(h[..|h| - 1], j, i); }
  }

  // ---------- the invariant ----------

  /** Waiting and looking alternate, beginning with waiting, and only the last look has a result. */
  ghost predicate Alternates(calls: seq<Call>) {
    && (forall k :: 0 <= k < |calls| ==> (calls[k].Io? <==> k % 2 == 0))
    && (forall k :: 0 <= k < |calls| - 1 && k % 2 == 1 ==> calls[k] == Got(0))
  }

  ghost predicate History(state: int, calls: seq<Call>) {
    && Alternates(calls)
    && (if state == 1 then |calls| % 2 == 1
        else |calls| % 2 == 0 && if calls == [] then state == 0
                                 else calls[|calls| - 1] == Got(if state == 2 then 1 else state))
    && -1 <= state <= 2
  }

  predicate Terminal(s: Slot) {
    s.state == 2 || s.state == -1
  }

  ghost predicate Apart(s: seq<Slot>) {
    forall i, k :: 0 <= i < k < |s| && s[i].active > 0 && s[k].active > 0 ==> !KeyEqual(s[i].key, s[k].key)
  }

  ghost predicate Counted(s: seq<Slot>, h: seq<int>) {
    forall i :: 0 <= i < |s| ==> s[i].active == Holders(h, i)
  }

  ghost predicate Histories(s: seq<Slot>) {
    forall i :: 0 <= i < |s| && s[i].active > 0 ==> History(s[i].state, s[i].calls)
  }

  ghost predicate Handles(h: seq<int>) {
    |h| == CLIENTS && forall j :: 0 <= j < |h| ==> NONE <= h[j] < CLIENTS
  }

  /** Every slot is counted right, no two slots in use have the same question, and every transmission in use has
      been called in turn. */
  ghost predicate Sound(s: seq<Slot>, h: seq<int>) {
    |s| == CLIENTS && Handles(h) && Counted(s, h) && Apart(s) && Histories(s)
  }

  /** What the clients other than `j` notice: their handles stay, their questions stay, and a result stays. */
  ghost predicate OthersKeep(s: seq<Slot>, h: seq<int>, s': seq<Slot>, h': seq<int>, j: nat) {
    && |s'| == |s| && |h'| == |h|
    && forall k :: 0 <= k < |h| && k != j ==> Kept(s, h, s', h', k)
  }

  ghost predicate Kept(s: seq<Slot>, h: seq<int>, s': seq<Slot>, h': seq<int>, k: nat)
    requires k < |h| == |h'| && |s| == |s'|
  {
    && h'[k] == h[k]
    && (0 <= h[k] < |s| ==>
          var a, b := s[h[k]], s'[h[k]];
          b.active > 0 && b.key == a.key && a.calls <= b.calls
          && (Terminal(a) ==> b.state == a.state && b.calls == a.calls))
  }

  // ---------- the steps on values ----------

  /** The slots after client `j` has let go of its handle. */
  function Released(s: seq<Slot>, h: seq<int>, j: nat): (r: seq<Slot>)
    requires j < |h|
    ensures |r| == |s|
  {
    if 0 <= h[j] < |s| && s[h[j]].active > 0 then s[h[j] := s[h[j]].(active := s[h[j]].active - 1)] else s
  }

  lemma CountedChange(s: seq<Slot>, h: seq<int>, j: nat, x: int, r: seq<Slot>)
    requires Counted(s, h) && j < |h| && |r| == |s|
    requires forall i :: 0 <= i < |s| ==> r[i].active + (if h[j] == i then 1 else 0) == s[i].active + if x == i then 1 else 0
    ensures Counted(r, h[j := x])
  {
    forall i: nat | i < |s|
      ensures r[i].active == Holders(h[j := x], i)
    {
      HoldersChange(h, j, x, i);
    }
  }

  lemma ReleaseKeeps(s: seq<Slot>, h: seq<int>, j: nat)
    requires Sound(s, h) && j < |h|
    ensures Sound(Released(s, h, j), h[j := NONE]) && OthersKeep(s, h, Released(s, h, j), h[j := NONE], j)
  {
    hide KeyEqual, History;
    var r, g := Released(s, h, j), h[j := NONE];
    if h[j] != NONE { HoldersSee(h, j, h[j]); }
    CountedChange(s, h, j, NONE, r);
    forall k | 0 <= k < |h| && k != j
      ensures Kept(s, h, r, g, k)
    {
      if h[k] != NONE { HoldersSee(g, k, h[k]); }
    }
  }

  /** The slots after client `j`, which has no handle, has joined slot `i`. */
  lemma JoinKeeps(s: seq<Slot>, h: seq<int>, j: nat, i: nat)
    requires Sound(s, h) && j < |h| && h[j] == NONE && i < |s| && s[i].active > 0
    ensures var r := s[i := s[i].(active := s[i].active + 1)];
            Sound(r, h[j := i]) && OthersKeep(s, h, r, h[j := i], j)
  {
    hide KeyEqual, History;
    var r, g := s[i := s[i].(active := s[i].active + 1)], h[j := i];
    CountedChange(s, h, j, i, r);
    forall k | 0 <= k < |h| && k != j
      ensures Kept(s, h, r, g, k)
    {
      if h[k] != NONE { HoldersSee(h, k, h[k]); }
    }
  }

  /** Slot `i` taken into use for a question that no slot in use has. */
  lemma TakeKeeps(s: seq<Slot>, h: seq<int>, j: nat, i: nat, key: Key)
    requires Sound(s, h) && j < |h| && h[j] == NONE && i < |s| && s[i].active == 0
    requires forall k :: 0 <= k < |s| && s[k].active > 0 ==> !KeyEqual(key, s[k].key)
    ensures var r := s[i := Slot(1, key, 0, [])];
            Sound(r, h[j := i]) && OthersKeep(s, h, r, h[j := i], j)
  {
    var r, g := s[i := Slot(1, key, 0, [])], h[j := i];
    assert History(0, []);
    hide History;
    CountedChange(s, h, j, i, r);
    forall k, l | 0 <= k < l < |r| && r[k].active > 0 && r[l].active > 0
      ensures !KeyEqual(r[k].key, r[l].key)
    {
      if l == i { assert !KeyEqual(key, s[k].key); }
    }
    forall k | 0 <= k < |h| && k != j
      ensures Kept(s, h, r, g, k)
    {
      if h[k] != NONE { HoldersSee(h, k, h[k]); }
    }
  }

  function After(calls: seq<Call>, c: Call): (r: seq<Call>) { calls + [c] }

  lemma HistoryIo(calls: seq<Call>)
    requires History(0, calls)
    ensures History(1, After(calls, Io))
  {
  }

  lemma HistoryGot(calls: seq<Call>, result: int)
    requires History(1, calls) && -1 <= result <= 1
    ensures History(if result == 1 then 2 else result, After(calls, Got(result)))
  {
  }

  /** A call on a slot whose transmission has no result yet. */
  lemma CallKeeps(s: seq<Slot>, h: seq<int>, j: nat, state: int, c: Call)
    requires Sound(s, h) && j < |h| && h[j] != NONE && !Terminal(s[h[j]]) && History(state, After(s[h[j]].calls, c))
    ensures var r := s[h[j] := s[h[j]].(state := state, calls := After(s[h[j]].calls, c))];
            Sound(r, h) && OthersKeep(s, h, r, h, j)
  {
    hide KeyEqual, History;
    var r := s[h[j] := s[h[j]].(state := state, calls := After(s[h[j]].calls, c))];
    forall k | 0 <= k < |h| && k != j
      ensures Kept(s, h, r, h, k)
    {
      if h[k] != NONE { HoldersSee(h, k, h[k]); }
    }
  }

  lemma NothingKeeps(s: seq<Slot>, h: seq<int>, j: nat)
    requires Sound(s, h)
    ensures OthersKeep(s, h, s, h, j)
  {
    forall k | 0 <= k < |h| && k != j
      ensures Kept(s, h, s, h, k)
    {
      if h[k] != NONE { HoldersSee(h, k, h[k]); }
    }
  }

  lemma OthersKeepTransitive(s: seq<Slot>, h: seq<int>, s': seq<Slot>, h': seq<int>, s'': seq<Slot>, h'': seq<int>, j: nat)
    requires OthersKeep(s, h, s', h', j) && OthersKeep(s', h', s'', h'', j)
    ensures OthersKeep(s, h, s'', h'', j)
  {
    forall k | 0 <= k < |h| && k != j
      ensures Kept(s, h, s'', h'', k)
    {
      assert Kept(s, h, s', h', k) && Kept(s', h', s'', h'', k);
    }
  }

  // ---------- whole runs ----------

  datatype State = State(slots: seq<Slot>, handles: seq<int>)

  /** Consecutive states of the pool, each reached by a step of the named client. */
  ghost predicate Turns(states: seq<State>, who: seq<nat>) {
    && |states| == |who| + 1
    && forall t :: 0 <= t < |who| ==>
         OthersKeep(states[t].slots, states[t].handles, states[t + 1].slots, states[t + 1].handles, who[t])
  }

  /** Whatever the others do, a client that holds a slot with a result finds this result later. */
  lemma {:induction false} ResultWaits(states: seq<State>, who: seq<nat>, k: nat)
    requires Turns(states, who) && k !in who
    requires k < |states[0].handles| && 0 <= states[0].handles[k] < |states[0].slots|
    requires Terminal(states[0].slots[states[0].handles[k]])
    ensures var a, b, i := states[0], states[|who|], states[0].handles[k];
            && k < |b.handles| && b.handles[k] == i && i < |b.slots|
            && b.slots[i].key == a.slots[i].key && b.slots[i].state == a.slots[i].state
  {
    if who != [] {
      var n := |who| - 1;
      ResultWaits(states[..n + 1], who[..n], k);
      assert states[..n + 1][n] == states[n] && states[..n + 1][0] == states[0];
      var s, s' := states[n], states[n + 1];
      assert OthersKeep(s.slots, s.handles, s'.slots, s'.handles, who[n]);
      assert Kept(s.slots, s.handles, s'.slots, s'.handles, k);
    }
  }

  // ---------- the pool ----------

  class Pool {
    const inprogress: array<Slot>
    const handle: array<int>

    ghost predicate Valid()
      reads this, inprogress, handle
    {
      inprogress.Length == CLIENTS == handle.Length && Sound(inprogress[..], handle[..])
    }

    constructor ()
      ensures Valid() && fresh(inprogress) && fresh(handle)
      ensures forall j :: 0 <= j < CLIENTS ==> handle[j] == NONE
    {
      var s, h := new Slot[CLIENTS](_ => Slot(0, Key([], [], []), 0, [])), new int[CLIENTS](_ => NONE);
      inprogress, handle := s, h;
      new;
      forall i: nat | i < CLIENTS
        ensures Holders(handle[..], i) == 0
      {
        NobodyHolds(handle[..], i);
      }
    }

    /** Lets go of the client's handle; the last one to let go gives up the question. */
    method Free(j: nat)
      requires Valid() && j < CLIENTS
      modifies inprogress, handle
      ensures Valid() && OthersKeep(old(inprogress[..]), old(handle[..]), inprogress[..], handle[..], j)
      ensures inprogress[..] == Released(old(inprogress[..]), old(handle[..]), j)
      ensures handle[..] == old(handle[..])[j := NONE]
    {
      ReleaseKeeps(inprogress[..], handle[..], j);
      var qm := handle[j];
      assert NONE <= qm < CLIENTS;
      hide Sound, OthersKeep, Kept;
      handle[j] := NONE;
      assert handle[..] == old(handle[..])[j := NONE];
      if qm == NONE || inprogress[qm].active == 0 { return; }
      inprogress[qm] := inprogress[qm].(active := inprogress[qm].active - 1);
      assert inprogress[..] == Released(old(inprogress[..]), old(handle[..]), j);
    }

    /** Gives the client a handle for the question: on the slot that already has it, or on a free slot, which
        there always is. Fails only when there was no such slot and the transmission could not be started. */
    method Start(j: nat, key: Key, refused: bool) returns (r: int)
      requires Valid() && j < CLIENTS
      modifies inprogress, handle
      ensures Valid() && OthersKeep(old(inprogress[..]), old(handle[..]), inprogress[..], handle[..], j)
      ensures Started(Released(old(inprogress[..]), old(handle[..]), j), old(handle[..])[j := NONE], j, key, refused,
                      inprogress[..], handle[..], r)
    {
      Free(j);
      ghost var s, h := inprogress[..], handle[..];
      r := StartFree(j, key, refused);
      OthersKeepTransitive(old(inprogress[..]), old(handle[..]), s, h, inprogress[..], handle[..], j);
    }

    method StartFree(j: nat, key: Key, refused: bool) returns (r: int)
      requires Valid() && j < CLIENTS && handle[j] == NONE
      modifies inprogress, handle
      ensures Valid() && OthersKeep(old(inprogress[..]), old(handle[..]), inprogress[..], handle[..], j)
      ensures Started(old(inprogress[..]), old(handle[..]), j, key, refused, inprogress[..], handle[..], r)
    {
      NothingKeeps(inprogress[..], handle[..], j);
      ghost var s, h := inprogress[..], handle[..];
      var i := FindSame(key);
      if i < CLIENTS {
        Join(j, i);
        assert Joined(s, h, j, key, i, inprogress[..], handle[..]);
        return 0;
      }
      i := FindFree(j);
      if refused { return -1; }
      Take(j, i, key);
      assert Taken(s, h, j, key, i, inprogress[..], handle[..]);
      return 0;
    }

    /** The first slot in use for the question, or the number of slots. */
    method FindSame(key: Key) returns (i: nat)
      requires Valid()
      ensures i <= CLIENTS
      ensures forall k :: 0 <= k < i ==> !InUseFor(inprogress[k], key)
      ensures i < CLIENTS ==> InUseFor(inprogress[i], key)
    {
      i := 0;
      while i < CLIENTS
        invariant i <= CLIENTS && forall k :: 0 <= k < i ==> !InUseFor(inprogress[k], key)
      {
        if InUseFor(inprogress[i], key) { return; }
        i := i + 1;
      }
    }

    method FindFree(ghost j: nat) returns (i: nat)
      requires Valid() && j < CLIENTS && handle[j] == NONE
      ensures i < CLIENTS && inprogress[i].active == 0
    {
      ghost var free := SomeSlotFree(handle[..], j);
      assert inprogress[..][free].active == 0;
      i := 0;
      while i < CLIENTS
        invariant i <= free
      {
        if inprogress[i].active == 0 { return; }
        i := i + 1;
      }
    }

    method Join(j: nat, i: nat)
      requires Valid() && j < CLIENTS && handle[j] == NONE && i < CLIENTS && inprogress[i].active > 0
      modifies inprogress, handle
      ensures Valid() && OthersKeep(old(inprogress[..]), old(handle[..]), inprogress[..], handle[..], j)
      ensures inprogress[..] == old(inprogress[..])[i := old(inprogress[i]).(active := old(inprogress[i]).active + 1)]
      ensures handle[..] == old(handle[..])[j := i]
    {
      JoinKeeps(inprogress[..], handle[..], j, i);
      hide Sound, OthersKeep;
      inprogress[i] := inprogress[i].(active := inprogress[i].active + 1);
      handle[j] := i;
      assert inprogress[..] == old(inprogress[..])[i := old(inprogress[i]).(active := old(inprogress[i]).active + 1)];
      assert handle[..] == old(handle[..])[j := i];
    }

    method Take(j: nat, i: nat, key: Key)
      requires Valid() && j < CLIENTS && handle[j] == NONE && i < CLIENTS && inprogress[i].active == 0
      requires forall k :: 0 <= k < CLIENTS ==> !InUseFor(inprogress[k], key)
      modifies inprogress, handle
      ensures Valid() && OthersKeep(old(inprogress[..]), old(handle[..]), inprogress[..], handle[..], j)
      ensures inprogress[..] == old(inprogress[..])[i := Slot(1, key, 0, [])]
      ensures handle[..] == old(handle[..])[j := i]
    {
      assert forall k :: 0 <= k < CLIENTS ==> inprogress[..][k] == inprogress[k];
      TakeKeeps(inprogress[..], handle[..], j, i, key);
      hide Sound, OthersKeep, KeyEqual;
      inprogress[i] := Slot(1, key, 0, []);
      handle[j] := i;
      assert inprogress[..] == old(inprogress[..])[i := Slot(1, key, 0, [])];
      assert handle[..] == old(handle[..])[j := i];
    }

    /** Prepares to wait: only the first holder in a round touches the transmission. */
    method PrepareIo(j: nat)
      requires Valid() && j < CLIENTS && handle[j] != NONE
      modifies inprogress
      ensures Valid() && OthersKeep(old(inprogress[..]), handle[..], inprogress[..], handle[..], j)
      ensures 0 <= handle[j] < CLIENTS
      ensures var a := old(inprogress[handle[j]]);
              inprogress[..] == if a.state == 0 then old(inprogress[..])[handle[j] := a.(state := 1, calls := After(a.calls, Io))]
                                else old(inprogress[..])
    {
      var i := Held(j);
      var a := inprogress[i];
      NothingKeeps(inprogress[..], handle[..], j);
      if a.state == 0 {
        HistoryIo(a.calls);
        CallKeeps(inprogress[..], handle[..], j, 1, Io);
        hide Sound, OthersKeep;
        inprogress[i] := a.(state := 1, calls := After(a.calls, Io));
        assert inprogress[..] == old(inprogress[..])[i := a.(state := 1, calls := After(a.calls, Io))];
      }
    }

    /** The slot that a client holds: it is in use, and its transmission has been called in turn. */
    method Held(j: nat) returns (i: nat)
      requires Valid() && j < CLIENTS && handle[j] != NONE
      ensures i == handle[j] && i < CLIENTS && inprogress[i].active > 0
      ensures History(inprogress[i].state, inprogress[i].calls)
    {
      assert NONE <= handle[..][j] < CLIENTS;
      i := handle[j];
      HoldersSee(handle[..], j, i);
      assert inprogress[..][i] == inprogress[i];
    }

    /** What became of the question. `result` is what looking at the transmission gives, if that is done. */
    method Get(j: nat, result: int) returns (r: int)
      requires Valid() && j < CLIENTS && handle[j] != NONE && -1 <= result <= 1
      modifies inprogress
      ensures Valid() && OthersKeep(old(inprogress[..]), handle[..], inprogress[..], handle[..], j)
      ensures 0 <= handle[j] < CLIENTS
      ensures var a := old(inprogress[handle[j]]);
              && inprogress[..] == (if a.state == 1 then
                                     old(inprogress[..])[handle[j] := a.(state := if result == 1 then 2 else result,
                                                                         calls := After(a.calls, Got(result)))]
                                   else old(inprogress[..]))
              && r == (if a.state == 1 then result else if a.state == 2 then 1 else a.state)
      ensures r == match inprogress[handle[j]].state case 2 => 1 case s => s
    {
      var i := Held(j);
      var a := inprogress[i];
      NothingKeeps(inprogress[..], handle[..], j);
      if a.state == -1 { return -1; }
      if a.state == 0 { return 0; }
      if a.state == 2 { return 1; }
      HistoryGot(a.calls, result);
      var state := if result == 1 then 2 else result;
      CallKeeps(inprogress[..], handle[..], j, state, Got(result));
      hide Sound, OthersKeep;
      inprogress[i] := a.(state := state, calls := After(a.calls, Got(result)));
      assert inprogress[..] == old(inprogress[..])[i := a.(state := state, calls := After(a.calls, Got(result)))];
      return result;
    }
  }

  predicate InUseFor(s: Slot, key: Key) {
    s.active > 0 && KeyEqual(key, s.key)
  }

  lemma {:induction false} NobodyHolds(h: seq<int>, i: nat)
    requires forall j :: 0 <= j < |h| ==> h[j] == NONE
    ensures Holders(h, i) == 0
  {
    if h != [] { NobodyHolds(h[..|h| - 1], i); }
  }

  /** How the pool looks after a client without a handle has asked for one. */
  ghost predicate Started(s: seq<Slot>, h: seq<int>, j: nat, key: Key, refused: bool, s': seq<Slot>, h': seq<int>, r: int)
    requires j < |h|
  {
    if exists i :: 0 <= i < |s| && InUseFor(s[i], key) then r == 0 && exists i :: Joined(s, h, j, key, i, s', h')
    else if refused then r == -1 && s' == s && h' == h
    else r == 0 && exists i :: Taken(s, h, j, key, i, s', h')
  }

  ghost predicate Joined(s: seq<Slot>, h: seq<int>, j: nat, key: Key, i: int, s': seq<Slot>, h': seq<int>)
    requires j < |h|
  {
    0 <= i < |s| && InUseFor(s[i], key) && s' == s[i := s[i].(active := s[i].active + 1)] && h' == h[j := i]
  }

  ghost predicate Taken(s: seq<Slot>, h: seq<int>, j: nat, key: Key, i: int, s': seq<Slot>, h': seq<int>)
    requires j < |h|
  {
    0 <= i < |s| && s[i].active == 0 && s' == s[i := Slot(1, key, 0, [])] && h' == h[j := i]
  }
}
