/** The byte array of the resolver cache, seen as a list of entries.

  The array holds the bucket heads, then two runs of entries. The entries that
  are still alive are kept here oldest first. Each bucket is a list linked by
  exclusive or: head, newest entry, ..., oldest entry.
 */
module CacheLayout {
  import opened Bytes
  import DjbHash

  const MAX_KEY := 1000
  const MAX_DATA := 1000000
  const MAX_TTL := 604800

  /** An entry at `pos`; `head` is the position of the head link of its bucket. */
  datatype Entry = Entry(pos: nat, head: nat, key: seq<byte>, data: seq<byte>, expire: nat) {
    function Len(): nat { 20 + |key| + |data| }
    function End(): nat { pos + Len() }
  }

  // ---------- the hash ----------

  function HeadOf(key: seq<byte>, hsize: nat): (h: nat)
    requires hsize >= 4
  {
    And(DjbHash.Of(key) * 4 % WORD, hsize - 4)
  }

  ghost predicate IsTableSize(hsize: nat) {
    exists n: nat :: hsize == 4 * Pow2(n)
  }

  predicate IsHead(h: nat, hsize: nat) {
    h % 4 == 0 && h + 4 <= hsize
  }

  lemma HeadInTable(key: seq<byte>, hsize: nat)
    requires IsTableSize(hsize)
    ensures hsize >= 4 && IsHead(HeadOf(key, hsize), hsize)
  {
    var n: nat :| hsize == 4 * Pow2(n);
    hide DjbHash.Of, And, Pow2;
    var r := DjbHash.Of(key) % 0x4000_0000;
    ShiftWord(DjbHash.Of(key));
    AndBucketMask(r, n);
    MultipleInTable(r % Pow2(n), Pow2(n));
  }

  lemma MultipleInTable(q: int, m: int)
    requires 0 <= q < m
    ensures (4 * q) % 4 == 0 && 4 * q + 4 <= 4 * m
  {
  }

  lemma ShiftWord(r: uint32)
    ensures r * 4 % WORD == 4 * (r % 0x4000_0000)
  {
  }

  // ---------- placement ----------

  /** `s` lies back to back from `lo` to `hi`. */
  predicate Chain(s: seq<Entry>, lo: nat, hi: nat) {
    if s == [] then lo == hi else s[0].pos == lo && Chain(s[1..], s[0].End(), hi)
  }

  lemma {:induction false} ChainSeparates(s: seq<Entry>, lo: nat, hi: nat)
    requires Chain(s, lo, hi)
    ensures lo <= hi && (s != [] ==> lo + 20 <= hi)
    ensures forall i :: 0 <= i < |s| ==> lo <= s[i].pos && s[i].End() <= hi
    ensures forall i, j :: 0 <= i < j < |s| ==> s[i].End() <= s[j].pos
  {
    if s != [] {
      ChainSeparates(s[1..], s[0].End(), hi);
    }
  }

  lemma {:induction false} ChainAppend(s: seq<Entry>, lo: nat, hi: nat, e: Entry)
    requires Chain(s, lo, hi) && e.pos == hi
    ensures Chain(s + [e], lo, e.End())
  {
    if s != [] {
      ChainAppend(s[1..], s[0].End(), hi, e);
      assert (s + [e])[1..] == s[1..] + [e];
    }
  }

  predicate Apart(d: Entry, e: Entry) {
    d.End() <= e.pos || e.End() <= d.pos
  }

  /** All entries lie between the heads and `size`, in different places, each with a head link of its own bucket. */
  predicate Placed(live: seq<Entry>, hsize: nat, size: nat) {
    && 4 <= hsize <= size
    && (forall i :: 0 <= i < |live| ==> hsize <= live[i].pos && live[i].End() <= size && IsHead(live[i].head, hsize))
    && (forall i, j :: 0 <= i < j < |live| ==> Apart(live[i], live[j]))
  }

  /** The cursors of the ring: `live[..k]` is the old run, `live[k..]` the new one. */
  ghost predicate Ring(live: seq<Entry>, k: nat, hsize: nat, writer: nat, oldest: nat, unused: nat, size: nat) {
    && k <= |live|
    && hsize <= writer <= oldest <= unused <= size
    && (oldest == unused ==> unused == size)
    && Chain(live[..k], oldest, unused)
    && Chain(live[k..], hsize, writer)
  }

  lemma RingPlaced(live: seq<Entry>, k: nat, hsize: nat, writer: nat, oldest: nat, unused: nat, size: nat)
    requires Ring(live, k, hsize, writer, oldest, unused, size) && 4 <= hsize
    requires forall i :: 0 <= i < |live| ==> IsHead(live[i].head, hsize)
    ensures Placed(live, hsize, size)
    ensures forall i :: 0 <= i < |live| ==> live[i].End() <= writer || oldest <= live[i].pos
  {
    ChainSeparates(live[..k], oldest, unused);
    ChainSeparates(live[k..], hsize, writer);
    forall i | 0 <= i < |live|
      ensures hsize <= live[i].pos && live[i].End() <= size
      ensures if i < k then oldest <= live[i].pos else live[i].End() <= writer
    {
      assert live[i] == if i < k then live[..k][i] else live[k..][i - k];
    }
    forall i, j | 0 <= i < j < |live|
      ensures Apart(live[i], live[j])
    {
      if j < k {
        assert live[..k][i] == live[i] && live[..k][j] == live[j];
      } else if i >= k {
        assert live[k..][i - k] == live[i] && live[k..][j - k] == live[j];
      }
    }
  }

  // ---------- contents ----------

  function Get8(b: seq<byte>, p: nat): (t: nat)
    requires p + 8 <= |b|
    ensures t < TIME
  {
    Get4Big(b, p) * WORD + Get4Big(b, p + 4)
  }

  function Pack8(t: nat): (s: seq<byte>)
    requires t < TIME
    ensures |s| == 8
  {
    Pack4Big(t / WORD) + Pack4Big(t % WORD)
  }

  lemma Get8Pack8(b: seq<byte>, p: nat, t: nat)
    requires t < TIME && p + 8 <= |b| && b[p..p + 8] == Pack8(t)
    ensures Get8(b, p) == t
  {
    var s := Pack8(t);
    assert forall k :: 0 <= k < 8 ==> b[p + k] == b[p..p + 8][k] == s[k];
    var hi, lo := Pack4Big(t / WORD), Pack4Big(t % WORD);
    assert s[0] == hi[0] && s[1] == hi[1] && s[2] == hi[2] && s[3] == hi[3];
    assert s[4] == lo[0] && s[5] == lo[1] && s[6] == lo[2] && s[7] == lo[3];
    assert Get4Big(b, p) == Get4Big(hi, 0);
    assert Get4Big(b, p + 4) == Get4Big(lo, 0);
  }

  /** The fields of the entry other than its link are in the array. */
  predicate Stored(b: seq<byte>, e: Entry) {
    && e.End() <= |b|
    && |e.key| <= MAX_KEY && |e.data| <= MAX_DATA && e.expire < TIME
    && Get4(b, e.pos + 4) == |e.key|
    && Get4(b, e.pos + 8) == |e.data|
    && Get8(b, e.pos + 12) == e.expire
    && b[e.pos + 20..e.pos + 20 + |e.key|] == e.key
    && b[e.pos + 20 + |e.key|..e.End()] == e.data
  }

  lemma StoredFrame(b: seq<byte>, b': seq<byte>, e: Entry)
    requires Stored(b, e) && |b'| == |b|
    requires forall k :: e.pos + 4 <= k < e.End() ==> b'[k] == b[k]
    ensures Stored(b', e)
  {
    assert forall k :: e.pos + 4 <= k < e.pos + 20 ==> b'[k] == b[k];
    assert b'[e.pos + 20..e.pos + 20 + |e.key|] == b[e.pos + 20..e.pos + 20 + |e.key|];
    assert b'[e.pos + 20 + |e.key|..e.End()] == b[e.pos + 20 + |e.key|..e.End()];
  }

  // ---------- the bucket lists ----------

  /** Position of the newest entry of bucket `h`, or 0. */
  function Newest(s: seq<Entry>, h: nat): (p: nat) {
    if s == [] then 0
    else if s[|s| - 1].head == h then s[|s| - 1].pos
    else Newest(s[..|s| - 1], h)
  }

  /** Position of the oldest entry of bucket `h`, or the head link itself. */
  function Oldest(s: seq<Entry>, h: nat): (p: nat) {
    if s == [] then h else if s[0].head == h then s[0].pos else Oldest(s[1..], h)
  }

  predicate Empty(s: seq<Entry>, h: nat) {
    forall i :: 0 <= i < |s| ==> s[i].head != h
  }

  lemma {:induction false} NewestFound(s: seq<Entry>, h: nat) returns (i: int)
    requires forall i :: 0 <= i < |s| ==> s[i].pos > 0
    ensures if Newest(s, h) == 0 then Empty(s, h)
            else 0 <= i < |s| && s[i].head == h && s[i].pos == Newest(s, h) && Empty(s[i + 1..], h)
  {
    i := -1;
    if s != [] {
      if s[|s| - 1].head == h {
        i := |s| - 1;
      } else {
        i := NewestFound(s[..|s| - 1], h);
        if Newest(s, h) != 0 {
          assert forall j :: i < j < |s| - 1 ==> s[j] == s[..|s| - 1][i + 1..][j - i - 1];
        }
      }
    }
  }

  lemma {:induction false} OldestFound(s: seq<Entry>, h: nat) returns (i: int)
    ensures if Empty(s, h) then Oldest(s, h) == h
            else 0 <= i < |s| && s[i].head == h && s[i].pos == Oldest(s, h) && Empty(s[..i], h)
  {
    i := -1;
    if s != [] {
      if s[0].head == h {
        i := 0;
      } else {
        i := OldestFound(s[1..], h);
        if !Empty(s[1..], h) {
          i := i + 1;
          assert forall j :: 1 <= j < i ==> s[j] == s[1..][..i - 1][j - 1];
        } else {
          assert forall j :: 1 <= j < |s| ==> s[j] == s[1..][j - 1];
        }
      }
    }
  }

  lemma {:induction false} NewestCons(e: Entry, s: seq<Entry>, h: nat)
    requires e.pos > 0 && forall i :: 0 <= i < |s| ==> s[i].pos > 0
    ensures Newest([e] + s, h) ==
            if Newest(s, h) != 0 then Newest(s, h) else if e.head == h then e.pos else 0
  {
    if s == [] {
      assert [e] + s == [e];
      assert [e][..0] == [];
    } else {
      assert ([e] + s)[..|s|] == [e] + s[..|s| - 1];
      NewestCons(e, s[..|s| - 1], h);
    }
  }

  lemma {:induction false} OldestSnoc(s: seq<Entry>, e: Entry, h: nat)
    ensures Oldest(s + [e], h) ==
            if !Empty(s, h) then Oldest(s, h) else if e.head == h then e.pos else h
  {
    if s == [] {
      assert s + [e] == [e];
      assert Oldest([e][1..], h) == h;
    } else {
      assert (s + [e])[1..] == s[1..] + [e];
      OldestSnoc(s[1..], e, h);
      assert s[0].head != h ==> (Empty(s, h) <==> Empty(s[1..], h)) by {
        assert forall j :: 1 <= j < |s| ==> s[j] == s[1..][j - 1];
      }
    }
  }

  /** The two neighbours of entry `i` in its bucket list. */
  function NewerOf(live: seq<Entry>, i: nat): (p: nat)
    requires i < |live|
  {
    Oldest(live[i + 1..], live[i].head)
  }

  function OlderOf(live: seq<Entry>, i: nat): (p: nat)
    requires i < |live|
  {
    Newest(live[..i], live[i].head)
  }

  /** Every link is the exclusive or of the positions next to it. */
  ghost predicate Linked(b: seq<byte>, live: seq<Entry>, hsize: nat)
    requires Placed(live, hsize, |b|)
  {
    && (forall i :: 0 <= i < |live| ==> Get4(b, live[i].pos) == Xor(NewerOf(live, i), OlderOf(live, i)))
    && (forall h: nat :: IsHead(h, hsize) ==> Get4(b, h) == Newest(live, h))
  }

  ghost predicate Holds(b: seq<byte>, live: seq<Entry>, hsize: nat) {
    && Placed(live, hsize, |b|)
    && Linked(b, live, hsize)
    && forall i :: 0 <= i < |live| ==> Stored(b, live[i])
  }

  ghost predicate IsLink(p: nat, live: seq<Entry>, hsize: nat) {
    IsHead(p, hsize) || exists m :: 0 <= m < |live| && live[m].pos == p
  }

  /** A link position meets an entry only at the entry's own link. */
  lemma LinkApart(live: seq<Entry>, hsize: nat, size: nat, p: nat, i: nat)
    requires Placed(live, hsize, size) && IsLink(p, live, hsize) && i < |live|
    ensures p == live[i].pos || p + 4 <= live[i].pos || live[i].End() <= p
    ensures p + 4 <= size
  {
    if !IsHead(p, hsize) {
      var m :| 0 <= m < |live| && live[m].pos == p;
      if m < i {
        assert Apart(live[m], live[i]);
      } else if i < m {
        assert Apart(live[i], live[m]);
      }
    }
  }

  lemma HeadsApart(live: seq<Entry>, hsize: nat, size: nat, p: nat, h: nat)
    requires Placed(live, hsize, size) && IsLink(p, live, hsize) && IsHead(h, hsize)
    ensures p == h || p + 4 <= h || h + 4 <= p
    ensures p + 4 <= size
  {
  }

  /** Writing one link leaves every other link and every other field of an entry alone. */
  lemma PutLink(b: seq<byte>, live: seq<Entry>, hsize: nat, p: nat, u: uint32)
    requires Placed(live, hsize, |b|) && IsLink(p, live, hsize)
    requires forall i :: 0 <= i < |live| ==> Stored(b, live[i])
    ensures p + 4 <= |b|
    ensures var b' := Put4(b, p, u);
            && (forall i :: 0 <= i < |live| ==> Stored(b', live[i]))
            && (forall i :: 0 <= i < |live| && live[i].pos != p ==> Get4(b', live[i].pos) == Get4(b, live[i].pos))
            && (forall h: nat :: IsHead(h, hsize) && h != p ==> Get4(b', h) == Get4(b, h))
  {
    HeadsApart(live, hsize, |b|, p, 0);
    var b' := Put4(b, p, u);
    forall i | 0 <= i < |live|
      ensures Stored(b', live[i])
      ensures live[i].pos != p ==> Get4(b', live[i].pos) == Get4(b, live[i].pos)
    {
      LinkApart(live, hsize, |b|, p, i);
      StoredFrame(b, b', live[i]);
    }
    forall h: nat | IsHead(h, hsize) && h != p
      ensures Get4(b', h) == Get4(b, h)
    {
      HeadsApart(live, hsize, |b|, p, h);
    }
  }

  lemma PositionsDiffer(live: seq<Entry>, hsize: nat, size: nat, i: nat, j: nat)
    requires Placed(live, hsize, size) && i < |live| && j < |live|
    ensures live[i].pos == live[j].pos <==> i == j
  {
    if i < j {
      assert Apart(live[i], live[j]);
    } else if j < i {
      assert Apart(live[j], live[i]);
    }
  }

  // ---------- removing the oldest entry ----------

  lemma DropFirst(live: seq<Entry>, hsize: nat, size: nat)
    requires Placed(live, hsize, size) && live != []
    ensures Placed(live[1..], hsize, size)
  {
    var rest := live[1..];
    assert forall i :: 0 <= i < |rest| ==> rest[i] == live[i + 1];
  }

  /** The oldest entry is always the tail of its bucket list: its link is the position of its newer neighbour. */
  lemma OldestIsTail(b: seq<byte>, live: seq<Entry>, hsize: nat)
    requires Holds(b, live, hsize) && live != []
    ensures Get4(b, live[0].pos) == Oldest(live[1..], live[0].head)
    ensures IsLink(Get4(b, live[0].pos), live[1..], hsize)
  {
    assert live[..0] == [];
    XorZero(NewerOf(live, 0));
    var i := OldestFound(live[1..], live[0].head);
  }

  /** Without the oldest entry, only the oldest remaining entry of the same bucket sees a change: it becomes the tail. */
  lemma EvictNeighbours(live: seq<Entry>, hsize: nat, size: nat, i: nat)
    requires Placed(live, hsize, size) && 0 < |live| && i + 1 < |live|
    ensures NewerOf(live[1..], i) == NewerOf(live, i + 1)
    ensures var e, rest := live[0], live[1..];
            if rest[i].pos == Oldest(rest, e.head)
            then OlderOf(rest, i) == 0 && OlderOf(live, i + 1) == e.pos
            else OlderOf(rest, i) == OlderOf(live, i + 1)
  {
    var e, rest := live[0], live[1..];
    var d := rest[i];
    DropFirst(live, hsize, size);
    assert live[i + 2..] == rest[i + 1..] && live[..i + 1] == [e] + rest[..i];
    NewestCons(e, rest[..i], d.head);
    var n := NewestFound(rest[..i], d.head);
    if d.head == e.head && Newest(rest[..i], d.head) == 0 {
      FirstIsOldest(rest, i);
    } else if d.pos == Oldest(rest, e.head) {
      FirstInBucket(rest, hsize, size, i, e.head);
    }
  }

  lemma FirstInBucket(s: seq<Entry>, hsize: nat, size: nat, i: nat, h: nat)
    requires Placed(s, hsize, size) && i < |s| && s[i].pos == Oldest(s, h) && h < hsize
    ensures s[i].head == h && Empty(s[..i], h) && Newest(s[..i], h) == 0
  {
    var j := OldestFound(s, h);
    if !Empty(s, h) {
      PositionsDiffer(s, hsize, size, i, j);
    }
    var n := NewestFound(s[..i], h);
  }

  lemma FirstIsOldest(s: seq<Entry>, i: nat)
    requires i < |s| && Empty(s[..i], s[i].head)
    ensures Oldest(s, s[i].head) == s[i].pos
  {
    var h := s[i].head;
    var j := OldestFound(s, h);
    assert !Empty(s, h);
    assert i == j;
  }

  lemma EvictedHead(live: seq<Entry>, hsize: nat, size: nat, h: nat)
    requires Placed(live, hsize, size) && live != [] && IsHead(h, hsize)
    ensures var e, rest := live[0], live[1..];
            if h == Oldest(rest, e.head)
            then Newest(live, h) == e.pos && Newest(rest, h) == 0
            else Newest(live, h) == Newest(rest, h)
  {
    var e, rest := live[0], live[1..];
    DropFirst(live, hsize, size);
    assert live == [e] + rest;
    NewestCons(e, rest, h);
    var n := NewestFound(rest, h);
    var i := OldestFound(rest, e.head);
  }

  /** What the links hold once `p` holds `u` and the others what they held. */
  ghost predicate Rewritten(b: seq<byte>, b': seq<byte>, live: seq<Entry>, hsize: nat, p: nat, u: uint32)
    requires Placed(live, hsize, |b|) && |b'| == |b|
  {
    && (forall i :: 0 <= i < |live| ==> Get4(b', live[i].pos) == if live[i].pos == p then u else Get4(b, live[i].pos))
    && (forall h: nat :: IsHead(h, hsize) ==> Get4(b', h) == if h == p then u else Get4(b, h))
  }

  ghost predicate AllStored(b: seq<byte>, live: seq<Entry>) {
    forall i :: 0 <= i < |live| ==> Stored(b, live[i])
  }

  lemma DropStored(b: seq<byte>, live: seq<Entry>, hsize: nat)
    requires Holds(b, live, hsize) && live != []
    ensures Placed(live[1..], hsize, |b|) && AllStored(b, live[1..])
  {
    DropFirst(live, hsize, |b|);
    hide Stored;
  }

  lemma HoldsWhen(b: seq<byte>, live: seq<Entry>, hsize: nat)
    requires Placed(live, hsize, |b|) && Linked(b, live, hsize) && AllStored(b, live)
    ensures Holds(b, live, hsize)
  {
    hide Stored, Linked, Placed;
  }

  lemma PutRewrites(b: seq<byte>, live: seq<Entry>, hsize: nat, p: nat, u: uint32)
    requires Placed(live, hsize, |b|) && IsLink(p, live, hsize) && AllStored(b, live)
    ensures p + 4 <= |b| && Rewritten(b, Put4(b, p, u), live, hsize, p, u) && AllStored(Put4(b, p, u), live)
  {
    PutLink(b, live, hsize, p, u);
    assert Get4(Put4(b, p, u), p) == u;
    hide Stored, Get4, Put4, IsHead;
  }

  lemma EvictLinks(b: seq<byte>, b': seq<byte>, live: seq<Entry>, hsize: nat, p: nat, u: uint32)
    requires Holds(b, live, hsize) && live != [] && Placed(live[1..], hsize, |b|) && |b'| == |b|
    requires p == Oldest(live[1..], live[0].head) && p + 4 <= |b| && u == Xor(Get4(b, p), live[0].pos)
    requires Rewritten(b, b', live[1..], hsize, p, u)
    ensures Linked(b', live[1..], hsize)
  {
    hide Holds, Get4, Xor, Oldest, NewerOf, OlderOf;
    var rest := live[1..];
    forall i | 0 <= i < |rest|
      ensures Get4(b', rest[i].pos) == Xor(NewerOf(rest, i), OlderOf(rest, i))
    {
      EvictedLink(b, live, hsize, p, u, i);
    }
    forall h: nat | IsHead(h, hsize)
      ensures Get4(b', h) == Newest(rest, h)
    {
      EvictedHeadLink(b, live, hsize, p, u, h);
    }
  }

  /** Clearing the tail's position out of the link next to it removes the oldest entry from its list. */
  lemma EvictKeeps(b: seq<byte>, live: seq<Entry>, hsize: nat, p: nat, u: uint32)
    requires Holds(b, live, hsize) && live != [] && |b| <= WORD
    requires p == Oldest(live[1..], live[0].head) && IsLink(p, live[1..], hsize)
    requires p + 4 <= |b| && u == Xor(Get4(b, p), live[0].pos)
    ensures Holds(Put4(b, p, u), live[1..], hsize)
  {
    var rest := live[1..];
    DropStored(b, live, hsize);
    assert |Put4(b, p, u)| == |b|;
    hide Holds, AllStored, Get4, Put4, Xor, Oldest, IsLink, Linked, Rewritten, Placed;
    PutRewrites(b, rest, hsize, p, u);
    EvictLinks(b, Put4(b, p, u), live, hsize, p, u);
    HoldsWhen(Put4(b, p, u), rest, hsize);
  }

  lemma EvictedHeadLink(b: seq<byte>, live: seq<Entry>, hsize: nat, p: nat, u: uint32, h: nat)
    requires Holds(b, live, hsize) && live != [] && IsHead(h, hsize)
    ensures h + 4 <= |b|
    requires p == Oldest(live[1..], live[0].head) && p + 4 <= |b| && u == Xor(Get4(b, p), live[0].pos)
    ensures (if h == p then u else Get4(b, h)) == Newest(live[1..], h)
  {
    EvictedHead(live, hsize, |b|, h);
    XorSelf(live[0].pos);
  }

  lemma EvictedLink(b: seq<byte>, live: seq<Entry>, hsize: nat, p: nat, u: uint32, i: nat)
    requires Holds(b, live, hsize) && 0 < |live| && i + 1 < |live|
    requires p == Oldest(live[1..], live[0].head) && p + 4 <= |b| && u == Xor(Get4(b, p), live[0].pos)
    ensures var r := live[1..];
            (if r[i].pos == p then u else Get4(b, r[i].pos)) == Xor(NewerOf(r, i), OlderOf(r, i))
  {
    var rest := live[1..];
    assert rest[i] == live[i + 1];
    EvictNeighbours(live, hsize, |b|, i);
    XorCancels(NewerOf(rest, i), live[0].pos);
    XorZero(NewerOf(rest, i));
  }

  // ---------- adding the newest entry ----------

  lemma PlaceLast(live: seq<Entry>, e: Entry, hsize: nat, size: nat)
    requires Placed(live, hsize, size)
    requires hsize <= e.pos && e.End() <= size && IsHead(e.head, hsize)
    requires forall i :: 0 <= i < |live| ==> Apart(live[i], e)
    ensures Placed(live + [e], hsize, size)
  {
  }

  lemma NewestIsLast(s: seq<Entry>, hsize: nat, size: nat, i: nat, h: nat)
    requires Placed(s, hsize, size) && i < |s|
    ensures s[i].pos == Newest(s, h) <==> s[i].head == h && Empty(s[i + 1..], h)
  {
    var j := NewestFound(s, h);
    if s[i].pos == Newest(s, h) {
      PositionsDiffer(s, hsize, size, i, j);
    }
  }

  /** A newer entry of the same bucket is seen only by the entry that was the newest. */
  lemma InsertNeighbours(live: seq<Entry>, e: Entry, hsize: nat, size: nat, i: nat)
    requires Placed(live, hsize, size) && i < |live|
    ensures OlderOf(live + [e], i) == OlderOf(live, i)
    ensures if live[i].pos == Newest(live, e.head)
            then NewerOf(live, i) == e.head && NewerOf(live + [e], i) == e.pos
            else NewerOf(live + [e], i) == NewerOf(live, i)
  {
    hide Placed, Empty;
    var s := live[i + 1..];
    SnocParts(live, e, i);
    OldestSnoc(s, e, live[i].head);
    NewestIsLast(live, hsize, size, i, e.head);
    var j := OldestFound(s, live[i].head);
  }

  lemma SnocParts<T>(s: seq<T>, x: T, i: nat)
    requires i < |s|
    ensures (s + [x])[i + 1..] == s[i + 1..] + [x] && (s + [x])[..i] == s[..i] && (s + [x])[i] == s[i]
  {
  }

  /** The state after the new entry has been written into free space and its newer-side link set. */
  ghost predicate Written(b: seq<byte>, b': seq<byte>, e: Entry, link: nat) {
    && |b'| == |b|
    && Stored(b', e)
    && Get4(b', e.pos) == link
    && forall k :: 0 <= k < |b| && !(e.pos <= k < e.End()) ==> b'[k] == b[k]
  }

  /** The link of the entry at `p`, the newest of its bucket, once `e` is newer. */
  function NewLink(b: seq<byte>, p: nat, e: Entry): (u: uint32)
    requires p + 4 <= |b| && e.head < WORD && e.pos < WORD
  {
    XorWord(Get4(b, p), e.head);
    XorWord(Xor(Get4(b, p), e.head), e.pos);
    Xor(Xor(Get4(b, p), e.head), e.pos)
  }

  function BackLink(b: seq<byte>, e: Entry): (u: uint32)
    requires e.head + 4 <= |b| && e.head < WORD
  {
    XorWord(Get4(b, e.head), e.head);
    Xor(Get4(b, e.head), e.head)
  }

  predicate RelinkReady(b: seq<byte>, e: Entry) {
    e.head < WORD && e.pos < WORD && e.head + 4 <= |b| && (Get4(b, e.head) != 0 ==> Get4(b, e.head) + 4 <= |b|)
  }

  function Relinked(b: seq<byte>, e: Entry): (b1: seq<byte>)
    requires RelinkReady(b, e)
    ensures |b1| == |b|
  {
    var p := Get4(b, e.head);
    if p == 0 then b else Put4(b, p, NewLink(b, p, e))
  }

  lemma WrittenFrame(b: seq<byte>, b': seq<byte>, live: seq<Entry>, hsize: nat, e: Entry, link: nat)
    requires Placed(live + [e], hsize, |b|) && Written(b, b', e, link)
    requires forall i :: 0 <= i < |live| ==> Stored(b, live[i])
    ensures forall i :: 0 <= i < |live| ==> Stored(b', live[i]) && live[i].pos + 4 <= |b| && Get4(b', live[i].pos) == Get4(b, live[i].pos)
    ensures forall h: nat :: IsHead(h, hsize) ==> Get4(b', h) == Get4(b, h)
  {
    var all := live + [e];
    assert all[|live|] == e;
    forall i | 0 <= i < |live|
      ensures Stored(b', live[i]) && live[i].pos + 4 <= |b| && Get4(b', live[i].pos) == Get4(b, live[i].pos)
    {
      assert all[i] == live[i] && Apart(all[i], all[|live|]);
      StoredFrame(b, b', live[i]);
    }
  }

  lemma RelinkFrame(b: seq<byte>, live: seq<Entry>, hsize: nat, e: Entry)
    requires Holds(b, live, hsize) && IsHead(e.head, hsize) && RelinkReady(b, e)
    ensures var b1, p := Relinked(b, e), Get4(b, e.head);
            && (forall i :: 0 <= i < |live| ==> Stored(b1, live[i]))
            && (forall i :: 0 <= i < |live| ==>
                  Get4(b1, live[i].pos) == if live[i].pos == p then NewLink(b, p, e) else Get4(b, live[i].pos))
            && (forall h: nat :: IsHead(h, hsize) ==> Get4(b1, h) == Get4(b, h))
  {
    var p := Get4(b, e.head);
    var n := NewestFound(live, e.head);
    if p != 0 {
      PutLink(b, live, hsize, p, NewLink(b, p, e));
    }
  }

  lemma NewestLink(b: seq<byte>, live: seq<Entry>, hsize: nat, e: Entry, i: nat)
    requires Holds(b, live, hsize) && IsHead(e.head, hsize) && RelinkReady(b, e) && i < |live|
    ensures live[i].pos == Get4(b, e.head) ==> NewLink(b, live[i].pos, e) == Xor(NewerOf(live + [e], i), OlderOf(live + [e], i))
    ensures live[i].pos != Get4(b, e.head) ==> Get4(b, live[i].pos) == Xor(NewerOf(live + [e], i), OlderOf(live + [e], i))
  {
    InsertNeighbours(live, e, hsize, |b|, i);
    if live[i].pos == Get4(b, e.head) {
      XorReplaces(Get4(b, live[i].pos), e.head, e.pos, OlderOf(live, i));
    }
  }

  /** Old list state, then the newest entry of the bucket points back to the new one, then the new entry
      appears in free space, then the head points to it: the new entry is at the front of its list. */
  lemma InsertLinks(b: seq<byte>, b2: seq<byte>, live: seq<Entry>, hsize: nat, e: Entry)
    requires Holds(b, live, hsize) && Placed(live + [e], hsize, |b|) && IsHead(e.head, hsize)
    requires RelinkReady(b, e) && Written(Relinked(b, e), b2, e, BackLink(b, e))
    ensures forall i :: 0 <= i <= |live| ==> Stored(b2, (live + [e])[i])
    ensures forall i :: 0 <= i <= |live| ==>
              Get4(b2, (live + [e])[i].pos) == Xor(NewerOf(live + [e], i), OlderOf(live + [e], i))
    ensures forall h: nat :: IsHead(h, hsize) ==> Get4(b2, h) == Newest(live, h)
  {
    var all, b1 := live + [e], Relinked(b, e);
    RelinkFrame(b, live, hsize, e);
    WrittenFrame(b1, b2, live, hsize, e, BackLink(b, e));
    forall i | 0 <= i <= |live|
      ensures Stored(b2, all[i]) && Get4(b2, all[i].pos) == Xor(NewerOf(all, i), OlderOf(all, i))
    {
      if i < |live| {
        assert all[i] == live[i];
        NewestLink(b, live, hsize, e, i);
      } else {
        assert all[..i] == live && all[i + 1..] == [];
        XorCommutes(Get4(b, e.head), e.head);
      }
    }
  }

  lemma InsertKeeps(b: seq<byte>, b2: seq<byte>, live: seq<Entry>, hsize: nat, e: Entry)
    requires Holds(b, live, hsize) && Placed(live + [e], hsize, |b|) && IsHead(e.head, hsize)
    requires RelinkReady(b, e) && Written(Relinked(b, e), b2, e, BackLink(b, e))
    ensures e.head + 4 <= |b2| && Holds(Put4(b2, e.head, e.pos), live + [e], hsize)
  {
    InsertLinks(b, b2, live, hsize, e);
    SetHead(b2, live, hsize, e);
  }

  lemma SetHead(b: seq<byte>, live: seq<Entry>, hsize: nat, e: Entry)
    requires Placed(live + [e], hsize, |b|) && e.pos < WORD
    requires forall i :: 0 <= i <= |live| ==> Stored(b, (live + [e])[i])
    requires forall i :: 0 <= i <= |live| ==>
               Get4(b, (live + [e])[i].pos) == Xor(NewerOf(live + [e], i), OlderOf(live + [e], i))
    requires forall h: nat :: IsHead(h, hsize) ==> Get4(b, h) == Newest(live, h)
    ensures e.head + 4 <= |b| && Holds(Put4(b, e.head, e.pos), live + [e], hsize)
  {
    var all := live + [e];
    assert all[|live|] == e;
    PutLink(b, all, hsize, e.head, e.pos);
    var b' := Put4(b, e.head, e.pos);
    forall i | 0 <= i < |all|
      ensures Get4(b', all[i].pos) == Xor(NewerOf(all, i), OlderOf(all, i))
    {
      assert all[i].pos >= hsize > e.head;
    }
    assert all[..|all| - 1] == live;
  }

  // ---------- the cursors ----------

  lemma RingDrop(live: seq<Entry>, k: nat, hsize: nat, writer: nat, oldest: nat, unused: nat, size: nat)
    requires Ring(live, k, hsize, writer, oldest, unused, size) && oldest < unused
    ensures k > 0 && live != [] && live[0].pos == oldest && live[0].End() <= unused
    ensures var o := live[0].End();
            Ring(live[1..], k - 1, hsize, writer, if o == unused then size else o, if o == unused then size else unused, size)
  {
    var o := live[0].End();
    assert live[..k][1..] == live[1..][..k - 1] && live[k..] == live[1..][k - 1..];
    ChainSeparates(live[..k][1..], o, unused);
  }

  /** When the old run is used up, the new run becomes the old one. */
  lemma RingFlip(live: seq<Entry>, k: nat, hsize: nat, writer: nat, oldest: nat, unused: nat, size: nat)
    requires Ring(live, k, hsize, writer, oldest, unused, size) && oldest == unused && hsize < writer
    ensures k == 0 && live != [] && Ring(live, |live|, hsize, hsize, hsize, writer, size)
  {
    ChainSeparates(live[..k], oldest, unused);
    assert live[k..] == live == live[..|live|];
    assert live[|live|..] == [];
  }

  lemma RingAdd(live: seq<Entry>, k: nat, hsize: nat, writer: nat, oldest: nat, unused: nat, size: nat, e: Entry)
    requires Ring(live, k, hsize, writer, oldest, unused, size) && e.pos == writer && e.End() <= oldest
    ensures Ring(live + [e], k, hsize, e.End(), oldest, unused, size)
  {
    ChainAppend(live[k..], hsize, writer, e);
    assert (live + [e])[..k] == live[..k] && (live + [e])[k..] == live[k..] + [e];
  }
}
