/** The resolver cache: one byte array, written in place. */
module Cache {
  import opened Bytes
  import DjbHash
  import opened CacheLayout

  datatype Hit = Hit(data: seq<byte>, ttl: nat)

  function Min(a: int, b: int): (m: int) {
    if a <= b then a else b
  }

  // ---------- what a lookup means ----------

  /** Index of the most recent entry for `key`, or -1. */
  function Latest(s: seq<Entry>, key: seq<byte>): (i: int)
    ensures -1 <= i < |s|
    ensures i >= 0 ==> s[i].key == key
    ensures forall j :: i < j < |s| ==> s[j].key != key
  {
    if s == [] then -1
    else if s[|s| - 1].key == key then |s| - 1
    else Latest(s[..|s| - 1], key)
  }

  lemma LatestIs(s: seq<Entry>, key: seq<byte>, i: nat)
    requires i < |s| && s[i].key == key && forall j :: i < j < |s| ==> s[j].key != key
    ensures Latest(s, key) == i
  {
  }

  /** Number of entries of bucket `h`. */
  function Count(s: seq<Entry>, h: nat): (n: nat) {
    if s == [] then 0 else (if s[0].head == h then 1 else 0) + Count(s[1..], h)
  }

  lemma {:induction false} CountConcat(s: seq<Entry>, t: seq<Entry>, h: nat)
    ensures Count(s + t, h) == Count(s, h) + Count(t, h)
  {
    if s == [] {
      assert s + t == t;
    } else {
      assert (s + t)[1..] == s[1..] + t;
      CountConcat(s[1..], t, h);
    }
  }

  lemma {:induction false} CountEmpty(s: seq<Entry>, h: nat)
    requires Empty(s, h)
    ensures Count(s, h) == 0 && Oldest(s, h) == h
  {
    if s != [] {
      assert forall i :: 0 <= i < |s| - 1 ==> s[1..][i] == s[i + 1];
      CountEmpty(s[1..], h);
    }
  }

  lemma {:induction false} OldestConcat(s: seq<Entry>, t: seq<Entry>, h: nat)
    requires Empty(s, h)
    ensures Oldest(s + t, h) == Oldest(t, h)
  {
    if s == [] {
      assert s + t == t;
    } else {
      assert forall i :: 0 <= i < |s| - 1 ==> s[1..][i] == s[i + 1];
      assert (s + t)[1..] == s[1..] + t;
      OldestConcat(s[1..], t, h);
    }
  }

  /** How many entries of the bucket list a search passes before it reaches entry `i`. */
  function Rank(live: seq<Entry>, i: nat): (n: nat)
    requires i < |live|
  {
    Count(live[i + 1..], live[i].head)
  }

  /** The answer a lookup gives: that of the most recent entry for the key, unless it has
      expired or lies behind more than 100 others of its bucket. */
  function Lookup(live: seq<Entry>, key: seq<byte>, now: nat): (r: Option<Hit>) {
    var i := Latest(live, key);
    if i < 0 || Rank(live, i) > 100 then None else Answer(live[i], now)
  }

  function Answer(e: Entry, now: nat): (r: Option<Hit>) {
    if e.expire < now then None else Some(Hit(e.data, Min(e.expire - now, MAX_TTL)))
  }

  ghost predicate IsSuffix(s: seq<Entry>, t: seq<Entry>) {
    |s| <= |t| && s == t[|t| - |s|..]
  }

  lemma SuffixDrop(s: seq<Entry>, t: seq<Entry>)
    requires IsSuffix(s, t) && s != []
    ensures IsSuffix(s[1..], t)
  {
  }

  lemma SuffixAdd(s: seq<Entry>, t: seq<Entry>, e: Entry)
    requires IsSuffix(s, t)
    ensures IsSuffix(s + [e], t + [e])
  {
    assert s + [e] == (t + [e])[|t| - |s|..];
  }

  /** Steps of the search loop, on the list. */
  lemma SearchStep(live: seq<Entry>, n: nat, h: nat, i: nat)
    requires i < n <= |live| && live[i].head == h && Empty(live[..n][i + 1..], h)
    ensures Rank(live, i) == Count(live[n..], h)
    ensures Count(live[i..], h) == Count(live[n..], h) + 1
    ensures NewerOf(live, i) == Oldest(live[n..], h)
    ensures Oldest(live[i..], h) == live[i].pos
    ensures live[..n][..i] == live[..i]
  {
    var mid := live[..n][i + 1..];
    assert live[i + 1..] == mid + live[n..];
    assert live[i..] == [live[i]] + live[i + 1..];
    CountConcat(mid, live[n..], h);
    CountEmpty(mid, h);
    OldestConcat(mid, live[n..], h);
  }

  /** The link of an entry, with the position of its newer neighbour, gives that of its older neighbour. */
  lemma FollowLink(b: seq<byte>, live: seq<Entry>, hsize: nat, n: nat, h: nat, i: nat)
    requires Holds(b, live, hsize) && i < n <= |live| && live[i].head == h && Empty(live[..n][i + 1..], h)
    ensures Xor(Oldest(live[n..], h), Get4(b, live[i].pos)) == Newest(live[..i], h)
  {
    SearchStep(live, n, h, i);
    var newer, older := NewerOf(live, i), OlderOf(live, i);
    XorCommutes(newer, older);
    XorCommutes(newer, Xor(newer, older));
    XorCancels(older, newer);
  }

  lemma RankBehind(live: seq<Entry>, n: nat, h: nat, i: nat)
    requires i < n <= |live| && live[i].head == h
    ensures Rank(live, i) >= Count(live[n..], h)
  {
    assert live[i + 1..] == live[i + 1..n] + live[n..];
    CountConcat(live[i + 1..n], live[n..], h);
  }

  ghost predicate Hashed(live: seq<Entry>, hsize: nat)
    requires hsize >= 4
  {
    forall i :: 0 <= i < |live| ==> live[i].head == HeadOf(live[i].key, hsize)
  }

  lemma NoneBetween(live: seq<Entry>, n: nat, h: nat, i: nat, key: seq<byte>, hsize: nat)
    requires hsize >= 4 && Hashed(live, hsize) && h == HeadOf(key, hsize)
    requires i < n <= |live| && Empty(live[..n][i + 1..], h)
    requires forall j :: n <= j < |live| ==> live[j].key != key
    ensures forall j :: i < j < |live| ==> live[j].key != key
  {
    forall j | i < j < n
      ensures live[j].key != key
    {
      assert live[j] == live[..n][i + 1..][j - i - 1];
    }
  }

  lemma FarBehind(live: seq<Entry>, n: nat, h: nat, key: seq<byte>, hsize: nat, now: nat)
    requires hsize >= 4 && Hashed(live, hsize) && h == HeadOf(key, hsize)
    requires n <= |live| && Count(live[n..], h) > 100
    requires forall j :: n <= j < |live| ==> live[j].key != key
    ensures Lookup(live, key, now) == None
  {
    var i := Latest(live, key);
    if i >= 0 {
      RankBehind(live, n, h, i);
    }
  }

  lemma NowhereElse(live: seq<Entry>, n: nat, h: nat, key: seq<byte>, hsize: nat)
    requires hsize >= 4 && Hashed(live, hsize) && h == HeadOf(key, hsize)
    requires n <= |live| && Newest(live[..n], h) == 0
    requires forall j :: 0 <= j < |live| ==> live[j].pos > 0
    requires forall j :: n <= j < |live| ==> live[j].key != key
    ensures Latest(live, key) == -1
  {
    var i := NewestFound(live[..n], h);
  }

  /** The search has passed the entries of the bucket in `live[n..]` and none of them was for the key. */
  ghost predicate Searched(live: seq<Entry>, n: nat, h: nat, key: seq<byte>, pos: nat, prevpos: nat, loop: nat) {
    && n <= |live|
    && loop == Count(live[n..], h)
    && pos == Newest(live[..n], h) && prevpos == Oldest(live[n..], h)
    && forall j :: n <= j < |live| ==> live[j].key != key
  }

  lemma SearchNext(b: seq<byte>, live: seq<Entry>, hsize: nat, n: nat, h: nat, key: seq<byte>, pos: nat, prevpos: nat, loop: nat, now: nat)
    returns (i: nat)
    requires Holds(b, live, hsize) && Hashed(live, hsize) && h == HeadOf(key, hsize)
    requires Searched(live, n, h, key, pos, prevpos, loop) && pos != 0 && loop <= 100
    ensures i < n && live[i].pos == pos
    ensures live[i].key == key ==> Lookup(live, key, now) == Answer(live[i], now)
    ensures live[i].key != key ==> Searched(live, i, h, key, Xor(prevpos, Get4(b, pos)), pos, loop + 1)
  {
    i := NewestFound(live[..n], h);
    SearchStep(live, n, h, i);
    NoneBetween(live, n, h, i, key, hsize);
    FollowLink(b, live, hsize, n, h, i);
    if live[i].key == key {
      LatestIs(live, key, i);
    }
  }

  // ---------- writing the fields of an entry ----------

  function Fields(b: seq<byte>, e: Entry, link: uint32): (r: seq<byte>)
    requires e.End() <= |b| && |b| <= WORD && e.expire < TIME
    ensures |r| == |b|
  {
    var c1 := Put4(b, e.pos, link);
    var c2 := Put4(c1, e.pos + 4, |e.key|);
    var c3 := Put4(c2, e.pos + 8, |e.data|);
    var c4 := Overwrite(c3, e.pos + 12, Pack8(e.expire));
    var c5 := Overwrite(c4, e.pos + 20, e.key);
    Overwrite(c5, e.pos + 20 + |e.key|, e.data)
  }

  lemma OverwriteKeeps(b: seq<byte>, p: nat, s: seq<byte>, lo: nat, hi: nat)
    requires p + |s| <= |b| && lo <= hi <= |b| && (hi <= p || p + |s| <= lo)
    ensures Overwrite(b, p, s)[lo..hi] == b[lo..hi]
  {
  }

  lemma Numbers(b: seq<byte>, p: nat, u: uint32, v: uint32, w: uint32)
    requires p + 12 <= |b|
    ensures var c := Put4(Put4(Put4(b, p, u), p + 4, v), p + 8, w);
            && Get4(c, p) == u && Get4(c, p + 4) == v && Get4(c, p + 8) == w
            && |c| == |b| && forall i :: 0 <= i < |b| && !(p <= i < p + 12) ==> c[i] == b[i]
  {
    var c1 := Put4(b, p, u);
    var c2 := Put4(c1, p + 4, v);
    assert Get4(c2, p) == u;
    var c3 := Put4(c2, p + 8, w);
    assert Get4(c3, p) == u;
    assert Get4(c3, p + 4) == v;
  }

  lemma Tail(c: seq<byte>, e: Entry)
    requires e.End() <= |c| && e.expire < TIME
    ensures var c4 := Overwrite(c, e.pos + 12, Pack8(e.expire));
            var c5 := Overwrite(c4, e.pos + 20, e.key);
            var c6 := Overwrite(c5, e.pos + 20 + |e.key|, e.data);
            && c6[..e.pos + 12] == c[..e.pos + 12]
            && c6[e.pos + 12..e.pos + 20] == Pack8(e.expire)
            && c6[e.pos + 20..e.pos + 20 + |e.key|] == e.key
            && c6[e.pos + 20 + |e.key|..e.End()] == e.data
            && c6[e.End()..] == c[e.End()..]
  {
    var c4 := Overwrite(c, e.pos + 12, Pack8(e.expire));
    assert c4[e.pos + 12..e.pos + 20] == Pack8(e.expire);
    var c5 := Overwrite(c4, e.pos + 20, e.key);
    assert c5[e.pos + 20..e.pos + 20 + |e.key|] == e.key;
    OverwriteKeeps(c4, e.pos + 20, e.key, e.pos + 12, e.pos + 20);
    OverwriteKeeps(c5, e.pos + 20 + |e.key|, e.data, e.pos + 12, e.pos + 20);
    OverwriteKeeps(c5, e.pos + 20 + |e.key|, e.data, e.pos + 20, e.pos + 20 + |e.key|);
  }

  lemma SameNumbers(c: seq<byte>, r: seq<byte>, p: nat)
    requires p + 12 <= |c| == |r| && r[..p + 12] == c[..p + 12]
    ensures Get4(r, p) == Get4(c, p) && Get4(r, p + 4) == Get4(c, p + 4) && Get4(r, p + 8) == Get4(c, p + 8)
  {
    assert forall i :: 0 <= i < p + 12 ==> r[i] == r[..p + 12][i] == c[..p + 12][i] == c[i];
  }

  lemma WrittenFrom(b: seq<byte>, c: seq<byte>, r: seq<byte>, e: Entry, link: uint32)
    requires e.End() <= |b| == |c| == |r| && e.expire < TIME
    requires |e.key| <= MAX_KEY && |e.data| <= MAX_DATA
    requires forall i :: 0 <= i < |b| && !(e.pos <= i < e.pos + 12) ==> c[i] == b[i]
    requires Get4(c, e.pos) == link && Get4(c, e.pos + 4) == |e.key| && Get4(c, e.pos + 8) == |e.data|
    requires r[..e.pos + 12] == c[..e.pos + 12] && r[e.End()..] == c[e.End()..]
    requires r[e.pos + 12..e.pos + 20] == Pack8(e.expire)
    requires r[e.pos + 20..e.pos + 20 + |e.key|] == e.key
    requires r[e.pos + 20 + |e.key|..e.End()] == e.data
    ensures Written(b, r, e, link)
  {
    SameNumbers(c, r, e.pos);
    Get8Pack8(r, e.pos + 12, e.expire);
    assert forall i :: 0 <= i < e.pos ==> r[i] == r[..e.pos + 12][i] == c[..e.pos + 12][i];
    assert forall i :: e.End() <= i < |r| ==> r[i] == r[e.End()..][i - e.End()] == c[e.End()..][i - e.End()];
  }

  lemma FieldsWritten(b: seq<byte>, e: Entry, link: uint32)
    requires e.End() <= |b| && |b| <= WORD && e.expire < TIME
    requires |e.key| <= MAX_KEY && |e.data| <= MAX_DATA
    ensures Written(b, Fields(b, e, link), e, link)
  {
    hide Put4, Get4, Overwrite, Pack8, Written, Get8;
    var c := Put4(Put4(Put4(b, e.pos, link), e.pos + 4, |e.key|), e.pos + 8, |e.data|);
    Numbers(b, e.pos, link, |e.key|, |e.data|);
    Tail(c, e);
    WrittenFrom(b, c, Fields(b, e, link), e, link);
  }

  // ---------- the invariant ----------

  /** The cursors of the ring, the entries alive, oldest first, of which the first `k` are the old run, and every
      insertion accepted so far. */
  datatype State =
    State(hsize: nat, writer: nat, oldest: nat, unused: nat, live: seq<Entry>, k: nat, history: seq<Entry>)

  ghost predicate Sound(b: seq<byte>, s: State) {
    && 100 <= |b| <= 1000000000
    && IsTableSize(s.hsize) && 4 <= s.hsize && 16 * s.hsize <= |b|
    && Ring(s.live, s.k, s.hsize, s.writer, s.oldest, s.unused, |b|)
    && Hashed(s.live, s.hsize)
    && IsSuffix(s.live, s.history)
    && Holds(b, s.live, s.hsize)
  }

  /** Unlinking the oldest entry: what is written, and what is still there afterwards. */
  function Unlinked(b: seq<byte>, o: nat): (b': seq<byte>)
    requires o + 4 <= |b| && Get4(b, o) + 4 <= |b| && Xor(Get4(b, Get4(b, o)), o) < WORD
    ensures |b'| == |b|
  {
    Put4(b, Get4(b, o), Xor(Get4(b, Get4(b, o)), o))
  }

  lemma LinkRemains(p: nat, live: seq<Entry>, hsize: nat)
    requires live != [] && IsLink(p, live[1..], hsize)
    ensures IsLink(p, live, hsize)
  {
    hide IsHead;
    if !IsHead(p, hsize) {
      var m :| 0 <= m < |live[1..]| && live[1..][m].pos == p;
      assert live[m + 1].pos == p;
    }
  }

  lemma UnlinkKeeps(b: seq<byte>, live: seq<Entry>, hsize: nat)
    requires Holds(b, live, hsize) && live != [] && |b| <= WORD
    ensures var o := live[0].pos;
            && Get4(b, o) + 4 <= |b| && Xor(Get4(b, Get4(b, o)), o) < WORD
            && Stored(Unlinked(b, o), live[0])
            && Holds(Unlinked(b, o), live[1..], hsize)
  {
    hide Get4, Put4, Xor, Linked, Placed;
    var o := live[0].pos;
    var p := Get4(b, o);
    OldestIsTail(b, live, hsize);
    DropFirst(live, hsize, |b|);
    LinkRemains(p, live, hsize);
    HeadsApart(live, hsize, |b|, p, 0);
    XorWord(Get4(b, p), o);
    PutLink(b, live, hsize, p, Xor(Get4(b, p), o));
    EvictKeeps(b, live, hsize, p, Xor(Get4(b, p), o));
  }

  lemma DropSound(b: seq<byte>, s: State)
    requires Sound(b, s) && s.oldest < s.unused
    ensures s.k > 0 && s.live != [] && s.live[0].pos == s.oldest && s.live[0].End() <= s.unused
    ensures Get4(b, s.oldest) + 4 <= |b| && Xor(Get4(b, Get4(b, s.oldest)), s.oldest) < WORD
    ensures Stored(Unlinked(b, s.oldest), s.live[0])
    ensures var o := s.live[0].End();
            Sound(Unlinked(b, s.oldest), s.(oldest := if o == s.unused then |b| else o, unused := if o == s.unused then |b| else s.unused,
                                             live := s.live[1..], k := s.k - 1))
  {
    hide Holds, Ring, Stored, Unlinked, Xor, Get4, IsTableSize, IsSuffix, HeadOf, Hashed;
    HashedDrop(s.live, s.hsize);
    RingDrop(s.live, s.k, s.hsize, s.writer, s.oldest, s.unused, |b|);
    UnlinkKeeps(b, s.live, s.hsize);
    SuffixDrop(s.live, s.history);
  }

  lemma SoundSizes(b: seq<byte>, s: State)
    requires Sound(b, s)
    ensures 100 <= |b| <= 1000000000 && IsTableSize(s.hsize) && 4 <= s.hsize && 16 * s.hsize <= |b|
    ensures s.hsize <= s.writer <= s.oldest <= s.unused <= |b|
  {
  }

  predicate InsertReady(b: seq<byte>, e: Entry) {
    |b| <= WORD && e.End() <= |b| && e.expire < TIME && RelinkReady(b, e)
  }

  function Inserted(b: seq<byte>, e: Entry): (b': seq<byte>)
    requires InsertReady(b, e)
    ensures |b'| == |b|
  {
    Put4(Fields(Relinked(b, e), e, BackLink(b, e)), e.head, e.pos)
  }

  lemma HeadLink(b: seq<byte>, live: seq<Entry>, hsize: nat, h: nat)
    requires Holds(b, live, hsize) && IsHead(h, hsize)
    ensures h + 4 <= |b| && Get4(b, h) + 4 <= |b|
  {
    var n := NewestFound(live, h);
  }

  lemma InsertHolds(b: seq<byte>, live: seq<Entry>, hsize: nat, e: Entry)
    requires Holds(b, live, hsize) && |b| <= WORD
    requires Placed(live + [e], hsize, |b|) && IsHead(e.head, hsize)
    requires |e.key| <= MAX_KEY && |e.data| <= MAX_DATA && e.expire < TIME
    requires e.End() <= |b|
    ensures InsertReady(b, e) && Holds(Inserted(b, e), live + [e], hsize)
  {
    HeadLink(b, live, hsize, e.head);
    hide Holds, Linked, Placed, Fields, Relinked, Written, Xor, Stored;
    FieldsWritten(Relinked(b, e), e, BackLink(b, e));
    InsertKeeps(b, Fields(Relinked(b, e), e, BackLink(b, e)), live, hsize, e);
  }

  lemma InsertSound(b: seq<byte>, s: State, e: Entry)
    requires Sound(b, s)
    requires e.pos == s.writer && e.End() <= s.oldest && e.head == HeadOf(e.key, s.hsize)
    requires |e.key| <= MAX_KEY && |e.data| <= MAX_DATA && e.expire < TIME
    ensures InsertReady(b, e)
    ensures Sound(Inserted(b, e), s.(writer := e.End(), live := s.live + [e], history := s.history + [e]))
  {
    hide Hashed, Holds, Ring, IsSuffix, Inserted, InsertReady, IsTableSize, HeadOf;
    HeadInTable(e.key, s.hsize);
    InsertInRing(b, s.hsize, s.writer, s.oldest, s.unused, s.live, s.k, e);
    RingAdd(s.live, s.k, s.hsize, s.writer, s.oldest, s.unused, |b|, e);
    HashedAdd(s.live, e, s.hsize);
    SuffixAdd(s.live, s.history, e);
  }

  lemma HashedDrop(live: seq<Entry>, hsize: nat)
    requires hsize >= 4 && Hashed(live, hsize)
    ensures live != [] ==> Hashed(live[1..], hsize)
  {
  }

  lemma HashedAdd(live: seq<Entry>, e: Entry, hsize: nat)
    requires hsize >= 4 && Hashed(live, hsize) && e.head == HeadOf(e.key, hsize)
    ensures Hashed(live + [e], hsize)
  {
  }

  lemma InsertInRing(b: seq<byte>, hsize: nat, writer: nat, oldest: nat, unused: nat,
                     live: seq<Entry>, k: nat, e: Entry)
    requires Ring(live, k, hsize, writer, oldest, unused, |b|) && Holds(b, live, hsize) && |b| <= WORD
    requires e.pos == writer && e.End() <= oldest && IsHead(e.head, hsize)
    requires |e.key| <= MAX_KEY && |e.data| <= MAX_DATA && e.expire < TIME
    ensures InsertReady(b, e) && Holds(Inserted(b, e), live + [e], hsize)
  {
    hide Linked, Stored, Chain, Inserted, InsertReady;
    RingPlaced(live, k, hsize, writer, oldest, unused, |b|);
    PlaceLast(live, e, hsize, |b|);
    InsertHolds(b, live, hsize, e);
  }

  lemma EmptyHolds(b: seq<byte>, hsize: nat)
    requires 4 <= hsize <= |b| && forall i :: 0 <= i < |b| ==> b[i] == 0
    ensures Holds(b, [], hsize)
  {
  }

  lemma FlipSound(b: seq<byte>, s: State)
    requires Sound(b, s) && s.oldest == s.unused && s.hsize < s.writer
    ensures Sound(b, s.(writer := s.hsize, oldest := s.hsize, unused := s.writer, k := |s.live|))
  {
    RingFlip(s.live, s.k, s.hsize, s.writer, s.oldest, s.unused, |b|);
  }

  lemma SoundEmpty(b: seq<byte>, s: State)
    requires Sound(b, s) && s.oldest == s.unused && s.writer <= s.hsize
    ensures s.live == [] && s.oldest == |b|
  {
    ChainSeparates(s.live[..s.k], s.oldest, s.unused);
    ChainSeparates(s.live[s.k..], s.hsize, s.writer);
  }

  /** What `Set` accepts at all; the entry must also fit between the heads and the end of the array. */
  predicate Storable(key: seq<byte>, data: seq<byte>, ttl: nat) {
    |key| <= MAX_KEY && |data| <= MAX_DATA && ttl != 0
  }

  // ---------- the cache ----------

  class ResolverCache {
    var x: array?<byte>
    var size: nat
    var hsize: nat
    var writer: nat
    var oldest: nat
    var unused: nat
    var motion: uint64

    /** The entries alive, oldest first; `live[..k]` is the old run of the ring. */
    ghost var live: seq<Entry>
    ghost var k: nat
    /** Every insertion accepted since `Init`, oldest first. */
    ghost var history: seq<Entry>

    ghost function Now(): (s: State)
      reads this
    {
      State(hsize, writer, oldest, unused, live, k, history)
    }

    ghost predicate Shape()
      reads this, x
    {
      x != null && x.Length == size && Sound(x[..], Now())
    }

    ghost predicate Valid()
      reads this, x
    {
      x != null ==> Shape()
    }

    constructor ()
      ensures Valid() && x == null
    {
      x, size, hsize, writer, oldest, unused, motion := null, 0, 0, 0, 0, 0, 0;
      live, k, history := [], 0, [];
    }

    /** The heads take between a 32nd and a 16th of the array. */
    method SizeHeads()
      requires size >= 64
      modifies this`hsize
      ensures IsTableSize(hsize) && 4 <= hsize && 16 * hsize <= size && size / 32 < hsize
    {
      hsize := 4;
      ghost var n := 0;
      while hsize <= size / 32
        invariant hsize == 4 * Pow2(n) && 16 * hsize <= size
        decreases size - hsize
      {
        hsize := hsize * 2;
        n := n + 1;
      }
    }

    method Init(cachesize: uint32, granted: bool) returns (ok: bool)
      modifies this
      ensures Valid() && ok == granted && (x != null <==> ok)
      ensures ok ==> fresh(x) && size == if cachesize > 1000000000 then 1000000000 else if cachesize < 100 then 100 else cachesize
      ensures ok ==> live == [] && history == []
      ensures motion == old(motion)
    {
      x := null;
      var s := cachesize;
      if s > 1000000000 { s := 1000000000; }
      if s < 100 { s := 100; }
      size := s;
      SizeHeads();
      if !granted { return false; }
      x := new byte[size](_ => 0);
      writer, oldest, unused := hsize, size, size;
      live, k, history := [], 0, [];
      EmptyHolds(x[..], hsize);
      return true;
    }

    method Set4(pos: nat, u: uint32)
      requires x != null && x.Length == size >= 4 && pos + 4 <= size
      modifies x
      ensures x[..] == Put4(old(x[..]), pos, u)
    {
      if pos > size - 4 { assert false; }
      var s := Pack4(u);
      x[pos], x[pos + 1], x[pos + 2], x[pos + 3] := s[0], s[1], s[2], s[3];
    }

    method Copy(pos: nat, s: seq<byte>)
      requires x != null && pos + |s| <= x.Length
      modifies x
      ensures x[..] == Overwrite(old(x[..]), pos, s)
    {
      forall i | 0 <= i < |s| {
        x[pos + i] := s[i];
      }
    }

    method Read4(pos: nat) returns (u: uint32)
      requires x != null && x.Length == size >= 4 && pos + 4 <= size
      ensures u == Get4(x[..], pos)
    {
      if pos > size - 4 { assert false; }
      u := Word(x[pos], x[pos + 1], x[pos + 2], x[pos + 3]);
    }

    method Hash(key: seq<byte>) returns (h: nat)
      requires IsTableSize(hsize)
      ensures hsize >= 4 && h == HeadOf(key, hsize) && IsHead(h, hsize)
    {
      hide IsTableSize, And, DjbHash.Of;
      HeadInTable(key, hsize);
      var result := DjbHash.Compute(key);
      h := And(result * 4 % WORD, hsize - 4);
    }

    /** One entry of the list against the key. */
    method Match(key: seq<byte>, pos: nat, now: uint64, ghost e: Entry) returns (same: bool, r: Option<Hit>)
      requires x != null && x.Length == size >= 4 && Stored(x[..], e) && pos == e.pos
      ensures same <==> e.key == key
      ensures same ==> r == Answer(e, now)
    {
      hide Get8, Get4, Word;
      ghost var b := x[..];
      assert Stored(b, e);
      hide Stored;
      var keylen := Read4(pos + 4);
      if keylen != |key| { return false, None; }
      if pos + 20 + |key| > size { assert false; }
      if x[pos + 20..pos + 20 + |key|] != key { return false, None; }
      var expire := Get8(x[..], pos + 12);
      if expire < now { return true, None; }
      var d := expire - now;
      if d > MAX_TTL { d := MAX_TTL; }
      var u := Read4(pos + 8);
      if u > size - pos - 20 - |key| { assert false; }
      return true, Some(Hit(x[pos + 20 + |key|..pos + 20 + |key| + u], d));
    }

    method Search(key: seq<byte>, start: nat, now: uint64) returns (r: Option<Hit>)
      requires x != null && x.Length == size >= 4 && 4 <= hsize
      requires Holds(x[..], live, hsize) && Hashed(live, hsize)
      requires start == HeadOf(key, hsize) && IsHead(start, hsize)
      ensures r == Lookup(live, key, now)
    {
      ghost var b := x[..];
      var prevpos: nat := start;
      var pos: nat := Read4(prevpos);
      var loop: nat := 0;
      ghost var n := |live|;
      assert live[..n] == live && live[n..] == [];
      while pos != 0
        invariant Searched(live, n, start, key, pos, prevpos, loop) && loop <= 100
        decreases n
      {
        ghost var i := SearchNext(b, live, hsize, n, start, key, pos, prevpos, loop, now);
        var same, found := Match(key, pos, now, live[i]);
        if same { return found; }
        var link := Read4(pos);
        prevpos, pos := pos, Xor(prevpos, link);
        n, loop := i, loop + 1;
        if loop > 100 {
          FarBehind(live, n, start, key, hsize, now);
          return None;
        }
      }
      NowhereElse(live, n, start, key, hsize);
      return None;
    }

    method Get(key: seq<byte>, now: uint64) returns (r: Option<Hit>)
      requires Valid()
      ensures r == if x == null || |key| > MAX_KEY then None else Lookup(live, key, now)
    {
      if x == null { return None; }
      if |key| > MAX_KEY { return None; }
      var start := Hash(key);
      HeadInTable(key, hsize);
      r := Search(key, start, now);
    }

    /** Unlink the oldest entry and free its place. */
    method DropOldest()
      requires Shape() && oldest < unused
      modifies this`oldest, this`unused, this`live, this`k, x
      ensures Shape()
      ensures old(live) != [] && live == old(live)[1..] && old(live)[0].pos == old(oldest)
    {
      hide Sound, Unlinked, Stored, Xor, Get4;
      SoundSizes(x[..], Now());
      DropSound(x[..], Now());
      Unlink(oldest);
      Advance(live[0]);
      live, k := live[1..], k - 1;
    }

    method Unlink(o: nat)
      requires x != null && x.Length == size >= 4 && o + 4 <= size
      requires Get4(x[..], o) + 4 <= size && Xor(Get4(x[..], Get4(x[..], o)), o) < WORD
      modifies x
      ensures x[..] == old(Unlinked(x[..], o))
    {
      var pos := Read4(o);
      var link := Read4(pos);
      Set4(pos, Xor(link, o));
    }

    method Advance(ghost e: Entry)
      requires x != null && x.Length == size >= 4 && Stored(x[..], e) && e.pos == oldest && e.End() <= unused
      modifies this`oldest, this`unused
      ensures oldest == if e.End() == old(unused) then size else e.End()
      ensures unused == if e.End() == old(unused) then size else old(unused)
    {
      var keylen := Read4(oldest + 4);
      var datalen := Read4(oldest + 8);
      oldest := oldest + keylen + datalen + 20;
      if oldest > unused { assert false; }
      if oldest == unused {
        unused := size;
        oldest := size;
      }
    }

    /** Put a new entry at `writer`, at the front of its bucket list. */
    method Insert(key: seq<byte>, data: seq<byte>, expire: uint64)
      requires Shape() && |key| <= MAX_KEY && |data| <= MAX_DATA
      requires writer + |key| + |data| + 20 <= oldest
      modifies this`writer, this`motion, this`live, this`history, x
      ensures Shape()
      ensures live == old(live) + [Entry(old(writer), HeadOf(key, hsize), key, data, expire)]
      ensures history == old(history) + [Entry(old(writer), HeadOf(key, hsize), key, data, expire)]
    {
      hide Sound, InsertReady, Inserted, HeadOf, Xor, Get4;
      SoundSizes(x[..], Now());
      ghost var e := Entry(writer, HeadOf(key, hsize), key, data, expire);
      InsertSound(x[..], Now(), e);
      var keyhash := Hash(key);
      WriteEntry(keyhash, key, data, expire);
      writer := writer + |key| + |data| + 20;
      motion := (motion + |key| + |data| + 20) % TIME;
      live := live + [e];
      history := history + [e];
    }

    method WriteEntry(keyhash: nat, key: seq<byte>, data: seq<byte>, expire: uint64)
      requires x != null && x.Length == size && 4 <= size <= WORD
      requires InsertReady(x[..], Entry(writer, keyhash, key, data, expire))
      modifies x
      ensures x[..] == old(Inserted(x[..], Entry(writer, keyhash, key, data, expire)))
    {
      ghost var e := Entry(writer, keyhash, key, data, expire);
      var pos := Read4(keyhash);
      if pos != 0 {
        var link := Read4(pos);
        XorWord(link, keyhash);
        XorWord(Xor(link, keyhash), writer);
        Set4(pos, Xor(Xor(link, keyhash), writer));
      }
      XorWord(pos, keyhash);
      WriteFields(keyhash, key, data, expire, Xor(pos, keyhash));
      Set4(keyhash, writer);
    }

    method WriteFields(keyhash: nat, key: seq<byte>, data: seq<byte>, expire: uint64, link: uint32)
      requires x != null && x.Length == size && 4 <= size <= WORD && writer + 20 + |key| + |data| <= size
      modifies x
      ensures x[..] == old(Fields(x[..], Entry(writer, keyhash, key, data, expire), link))
    {
      hide Get4, Pack4, Pack8;
      Set4(writer, link);
      Set4(writer + 4, |key|);
      Set4(writer + 8, |data|);
      Copy(writer + 12, Pack8(expire));
      Copy(writer + 20, key);
      Copy(writer + 20 + |key|, data);
    }

    /** Make the new run the old one. */
    method Flip()
      requires Shape() && oldest == unused && hsize < writer
      modifies this`writer, this`oldest, this`unused, this`k
      ensures Shape() && writer == hsize && oldest == hsize < unused
    {
      hide Sound;
      FlipSound(x[..], Now());
      unused := writer;
      oldest := hsize;
      writer := hsize;
      k := |live|;
    }

    /** Evict the oldest entries until `entrylen` bytes are free at `writer`. */
    method MakeRoom(entrylen: nat) returns (ok: bool, ghost evicted: nat)
      requires Shape() && entrylen >= 20
      modifies this`writer, this`oldest, this`unused, this`live, this`k, x
      ensures Shape() && evicted <= |old(live)| && live == old(live)[evicted..]
      ensures ok <==> hsize + entrylen <= size
      ensures ok ==> writer + entrylen <= oldest
      ensures ok && evicted > 0 ==> writer <= old(live)[evicted - 1].pos < writer + entrylen
      ensures !ok ==> live == []
    {
      hide Sound;
      SoundSizes(x[..], Now());
      evicted := 0;
      while writer + entrylen > oldest
        invariant Shape() && hsize <= writer <= oldest <= unused <= size
        invariant evicted <= |old(live)| && live == old(live)[evicted..]
        invariant evicted > 0 ==> writer <= old(live)[evicted - 1].pos < writer + entrylen
        decreases |live|
      {
        if oldest == unused {
          if writer <= hsize {
            SoundEmpty(x[..], Now());
            return false, evicted;
          }
          Flip();
        }
        DropOldest();
        evicted := evicted + 1;
        SoundSizes(x[..], Now());
      }
      return true, evicted;
    }

    method Set(key: seq<byte>, data: seq<byte>, ttl: uint32, now: uint64) returns (ghost evicted: nat)
      requires Valid()
      modifies this, x
      ensures Valid() && x == old(x) && size == old(size) && hsize == old(hsize)
      ensures x != null && Storable(key, data, ttl) && hsize + 20 + |key| + |data| <= size ==>
                && live != []
                && (var e := Entry(live[|live| - 1].pos, HeadOf(key, hsize), key, data, (now + Min(ttl, MAX_TTL)) % TIME);
                    && evicted <= |old(live)| && live == old(live)[evicted..] + [e]
                    && history == old(history) + [e]
                    && (evicted > 0 ==> e.pos <= old(live)[evicted - 1].pos < e.End()))
      ensures x != null && Storable(key, data, ttl) && hsize + 20 + |key| + |data| > size ==>
                live == [] && history == old(history)
      ensures x == null || !Storable(key, data, ttl) ==> live == old(live) && history == old(history)
      ensures x != null && !Storable(key, data, ttl) ==> x[..] == old(x[..])
    {
      hide Sound;
      evicted := 0;
      if x == null { return; }
      if |key| > MAX_KEY { return; }
      if |data| > MAX_DATA { return; }
      if ttl == 0 { return; }
      var t := ttl;
      if t > MAX_TTL { t := MAX_TTL; }

      var ok;
      ok, evicted := MakeRoom(|key| + |data| + 20);
      if ok {
        SoundSizes(x[..], Now());
        Insert(key, data, (now + t) % TIME);
      }
    }
  }
}
