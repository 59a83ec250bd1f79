/** What the invariant of the resolver cache means for its bytes and for its callers. */
module CacheProperties {
  import opened Bytes
  import opened CacheLayout
  import opened Cache

  // ---------- the bytes ----------

  /** Positions of the entries met when a run is read back through its length fields. */
  function Parse(b: seq<byte>, lo: nat, hi: nat): (r: Option<seq<nat>>)
    decreases hi - lo
  {
    if lo == hi then Some([])
    else if lo + 20 > hi || hi > |b| then None
    else
      var next := lo + 20 + Get4(b, lo + 4) + Get4(b, lo + 8);
      if next > hi then None
      else match Parse(b, next, hi)
        case None => None
        case Some(rest) => Some([lo] + rest)
  }

  function Positions(s: seq<Entry>): (r: seq<nat>) {
    seq(|s|, i requires 0 <= i < |s| => s[i].pos)
  }

  lemma ParseStep(b: seq<byte>, e: Entry, hi: nat, rest: seq<nat>)
    requires Stored(b, e) && e.End() <= hi <= |b| && Parse(b, e.End(), hi) == Some(rest)
    ensures Parse(b, e.pos, hi) == Some([e.pos] + rest)
  {
    hide Get8;
    var next := e.pos + 20 + Get4(b, e.pos + 4) + Get4(b, e.pos + 8);
    assert next == e.End();
  }

  lemma {:induction false} RunParses(b: seq<byte>, s: seq<Entry>, lo: nat, hi: nat)
    requires Chain(s, lo, hi) && hi <= |b| && forall i :: 0 <= i < |s| ==> Stored(b, s[i])
    ensures Parse(b, lo, hi) == Some(Positions(s))
  {
    hide Stored;
    if s != [] {
      hide Parse;
      var e := s[0];
      assert forall i :: 0 <= i < |s| - 1 ==> s[1..][i] == s[i + 1];
      ChainSeparates(s[1..], e.End(), hi);
      RunParses(b, s[1..], e.End(), hi);
      ParseStep(b, e, hi, Positions(s[1..]));
      assert Positions(s) == [lo] + Positions(s[1..]);
    }
  }

  /** The live entries of bucket `h`, newest first. */
  function Bucket(s: seq<Entry>, h: nat): (r: seq<nat>) {
    if s == [] then []
    else (if s[|s| - 1].head == h then [s[|s| - 1].pos] else []) + Bucket(s[..|s| - 1], h)
  }

  /** Positions met when a list is walked by exclusive or. */
  function Walk(b: seq<byte>, prev: nat, pos: nat, steps: nat): (r: seq<nat>)
    decreases steps
  {
    if pos == 0 || steps == 0 || pos + 4 > |b| then []
    else [pos] + Walk(b, pos, Xor(prev, Get4(b, pos)), steps - 1)
  }

  lemma {:induction false} BucketSkip(s: seq<Entry>, i: nat, h: nat)
    requires i <= |s| && Empty(s[i..], h)
    ensures Bucket(s, h) == Bucket(s[..i], h)
    decreases |s|
  {
    if i < |s| {
      assert s[i..][|s| - i - 1] == s[|s| - 1];
      assert forall j :: 0 <= j < |s| - 1 - i ==> s[..|s| - 1][i..][j] == s[i..][j];
      BucketSkip(s[..|s| - 1], i, h);
      assert s[..|s| - 1][..i] == s[..i];
    } else {
      assert s[..i] == s;
    }
  }

  lemma {:induction false} WalkFrom(b: seq<byte>, live: seq<Entry>, hsize: nat, n: nat, h: nat, steps: nat)
    requires Holds(b, live, hsize) && n <= |live| && n <= steps
    ensures Walk(b, Oldest(live[n..], h), Newest(live[..n], h), steps) == Bucket(live[..n], h)
    decreases n
  {
    hide Xor, Stored, Get4, Linked, Oldest, Newest, Count;
    var prev, pos := Oldest(live[n..], h), Newest(live[..n], h);
    var i := NewestFound(live[..n], h);
    if pos == 0 {
      BucketSkip(live[..n], 0, h);
    } else {
      assert pos == live[i].pos && pos + 4 <= |b|;
      FollowLink(b, live, hsize, n, h, i);
      SearchStep(live, n, h, i);
      WalkFrom(b, live, hsize, i, h, steps - 1);
      assert Walk(b, prev, pos, steps) == [pos] + Bucket(live[..i], h);
      BucketSkip(live[..n], i + 1, h);
      BucketNewest(live[..n], i, h);
      assert live[..n][..i] == live[..i];
    }
  }

  lemma BucketNewest(s: seq<Entry>, i: nat, h: nat)
    requires i < |s| && s[i].head == h
    ensures Bucket(s[..i + 1], h) == [s[i].pos] + Bucket(s[..i], h)
  {
    assert s[..i + 1][..i] == s[..i];
  }

  /** In every state: the cursors are ordered, both regions parse exactly into the entries alive,
      and each bucket list enumerates exactly the live entries that hash to it, newest first. */
  lemma Structure(b: seq<byte>, s: State)
    requires Sound(b, s)
    ensures 4 <= s.hsize <= s.writer <= s.oldest <= s.unused <= |b| && 16 * s.hsize <= |b|
    ensures s.oldest == s.unused ==> s.unused == |b|
    ensures s.k <= |s.live|
    ensures Parse(b, s.oldest, s.unused) == Some(Positions(s.live[..s.k]))
    ensures Parse(b, s.hsize, s.writer) == Some(Positions(s.live[s.k..]))
    ensures forall h: nat :: IsHead(h, s.hsize) ==> Walk(b, h, Get4(b, h), |s.live|) == Bucket(s.live, h)
    ensures forall i :: 0 <= i < |s.live| ==> s.live[i].head == HeadOf(s.live[i].key, s.hsize) && Stored(b, s.live[i])
  {
    hide Parse, Walk, Linked, Stored;
    RegionsParse(b, s.hsize, s.writer, s.oldest, s.unused, s.live, s.k);
    ListsWalk(b, s.live, s.hsize);
  }

  lemma RegionsParse(b: seq<byte>, hsize: nat, writer: nat, oldest: nat, unused: nat, live: seq<Entry>, k: nat)
    requires Ring(live, k, hsize, writer, oldest, unused, |b|)
    requires forall i :: 0 <= i < |live| ==> Stored(b, live[i])
    ensures Parse(b, oldest, unused) == Some(Positions(live[..k]))
    ensures Parse(b, hsize, writer) == Some(Positions(live[k..]))
  {
    hide Stored;
    RunParses(b, live[..k], oldest, unused);
    RunParses(b, live[k..], hsize, writer);
  }

  lemma ListsWalk(b: seq<byte>, live: seq<Entry>, hsize: nat)
    requires Holds(b, live, hsize)
    ensures forall h: nat :: IsHead(h, hsize) ==> Walk(b, h, Get4(b, h), |live|) == Bucket(live, h)
  {
    hide Get4, Stored;
    forall h: nat | IsHead(h, hsize)
      ensures Walk(b, h, Get4(b, h), |live|) == Bucket(live, h)
    {
      assert live[|live|..] == [] && live[..|live|] == live;
      WalkFrom(b, live, hsize, |live|, h, |live|);
    }
  }

  lemma {:induction false} BucketOfOldest(live: seq<Entry>)
    requires live != []
    ensures Bucket(live, live[0].head) != []
    ensures Bucket(live, live[0].head)[|Bucket(live, live[0].head)| - 1] == live[0].pos
  {
    if |live| > 1 {
      BucketOfOldest(live[..|live| - 1]);
    } else {
      assert live[..0] == [];
    }
  }

  /** The globally oldest entry ends the list of its bucket, so that eviction never has to search. */
  lemma OldestEndsItsList(b: seq<byte>, s: State)
    requires Sound(b, s) && s.live != []
    ensures var w := Walk(b, s.live[0].head, Get4(b, s.live[0].head), |s.live|);
            w != [] && w[|w| - 1] == s.live[0].pos
  {
    Structure(b, s);
    BucketOfOldest(s.live);
  }

  // ---------- the callers ----------

  lemma {:induction false} LatestSuffix(s: seq<Entry>, t: seq<Entry>, key: seq<byte>)
    requires IsSuffix(s, t)
    ensures Latest(t, key) >= |t| - |s| ==> Latest(s, key) == Latest(t, key) - (|t| - |s|)
    ensures Latest(t, key) < |t| - |s| ==> Latest(s, key) == -1
  {
    var i, j := Latest(s, key), Latest(t, key);
    var d := |t| - |s|;
    if i >= 0 {
      assert t[d + i] == s[i];
      forall m | d + i < m < |t|
        ensures t[m].key != key
      {
        assert t[m] == s[m - d];
      }
      LatestIs(t, key, d + i);
    }
  }

  /** A lookup gives the data of the most recent insertion accepted for the key exactly when that
      insertion is still resident, has at most 100 newer entries in its bucket and has not expired;
      otherwise it gives nothing. An older value for the same key is never returned in its place. */
  lemma LookupIsLatest(live: seq<Entry>, history: seq<Entry>, key: seq<byte>, now: nat)
    requires IsSuffix(live, history)
    ensures var gone, j := |history| - |live|, Latest(history, key);
            if j < gone then Lookup(live, key, now) == None
            else if Rank(live, j - gone) > 100 || history[j].expire < now then Lookup(live, key, now) == None
            else Lookup(live, key, now) == Some(Hit(history[j].data, Min(history[j].expire - now, MAX_TTL)))
  {
    LatestSuffix(live, history, key);
    var gone, j := |history| - |live|, Latest(history, key);
    if j >= gone {
      SuffixAt(live, history, j);
    }
    hide Latest, Rank, IsSuffix;
  }

  lemma SuffixAt(s: seq<Entry>, t: seq<Entry>, j: nat)
    requires IsSuffix(s, t) && |t| - |s| <= j < |t|
    ensures s[j - (|t| - |s|)] == t[j]
  {
  }
}
