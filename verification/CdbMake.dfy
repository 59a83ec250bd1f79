/** Writing a constant database. */
module CdbMake {
  import opened Bytes
  import opened CdbTable
  import opened CdbFormat
  import DjbHash

  const CHUNK := 1000

  /** The entries collected so far, in chunks, the newest chunk first. */
  datatype HpList = Nil | Chunk(hp: seq<Hp>, next: HpList)

  function Flat(l: HpList): (xs: seq<Hp>) {
    match l
    case Nil => []
    case Chunk(hp, next) => Flat(next) + hp
  }

  /** Number of entries in the tables before table `b`. */
  function Base(xs: seq<Hp>, b: nat): (n: nat) {
    if b == 0 then 0 else Base(xs, b - 1) + |Bucket(xs, b - 1)|
  }

  lemma {:induction false} BucketConcat(xs: seq<Hp>, ys: seq<Hp>, b: nat)
    ensures Bucket(xs + ys, b) == Bucket(xs, b) + Bucket(ys, b)
  {
    if ys == [] {
      assert xs + ys == xs;
    } else {
      assert (xs + ys)[..|xs + ys| - 1] == xs + ys[..|ys| - 1];
      BucketConcat(xs, ys[..|ys| - 1], b);
    }
  }

  lemma BucketCons(x: Hp, ys: seq<Hp>, b: nat)
    ensures Bucket([x] + ys, b) == (if x.h % 256 == b then [x] else []) + Bucket(ys, b)
  {
    BucketConcat([x], ys, b);
    assert [x][..0] == [];
  }

  lemma BucketConsOther(x: Hp, ys: seq<Hp>, b: nat)
    requires x.h % 256 != b
    ensures Bucket([x] + ys, b) == Bucket(ys, b)
  {
    BucketCons(x, ys, b);
    assert [] + Bucket(ys, b) == Bucket(ys, b);
  }

  lemma BucketSnoc(xs: seq<Hp>, x: Hp, b: nat)
    ensures Bucket(xs + [x], b) == Bucket(xs, b) + if x.h % 256 == b then [x] else []
  {
    assert (xs + [x])[..|xs|] == xs;
  }

  lemma BaseMonotone(xs: seq<Hp>, b: nat, c: nat)
    requires b <= c
    ensures Base(xs, b) <= Base(xs, c)
    decreases c
  {
    if b < c { BaseMonotone(xs, b, c - 1); }
  }

  lemma {:induction false} BaseSnoc(xs: seq<Hp>, x: Hp, b: nat)
    ensures Base(xs + [x], b) == Base(xs, b) + if x.h % 256 < b then 1 else 0
  {
    hide Bucket;
    if b > 0 {
      BaseSnoc(xs, x, b - 1);
      BucketSnoc(xs, x, b - 1);
    }
  }

  lemma {:induction false} BaseTotal(xs: seq<Hp>)
    ensures Base(xs, 256) == |xs|
  {
    if xs == [] {
      BaseEmpty(256);
    } else {
      BaseTotal(xs[..|xs| - 1]);
      BaseSnoc(xs[..|xs| - 1], xs[|xs| - 1], 256);
      assert xs == xs[..|xs| - 1] + [xs[|xs| - 1]];
    }
  }

  lemma {:induction false} BaseEmpty(b: nat)
    ensures Base([], b) == 0
  {
    if b > 0 { BaseEmpty(b - 1); }
  }

  lemma Regroup<T>(a: seq<T>, b: seq<T>, x: T, d: seq<T>)
    ensures a + (b + [x]) + d == (a + b) + [x] + d == (a + b) + ([x] + d)
  {
  }

  // ---------- the counting split ----------

  ghost predicate Counted(count: seq<nat>, done: seq<Hp>) {
    |count| == 256 && forall b :: 0 <= b < 256 ==> count[b] == |Bucket(done, b)|
  }

  lemma CountedCons(count: seq<nat>, hp: Hp, done: seq<Hp>)
    requires Counted(count, done)
    ensures Counted(count[hp.h % 256 := count[hp.h % 256] + 1], [hp] + done)
  {
    forall b | 0 <= b < 256
      ensures |Bucket([hp] + done, b)| == |Bucket(done, b)| + if hp.h % 256 == b then 1 else 0
    {
      BucketCons(hp, done, b);
    }
  }

  method CountOne(hp: Hp, count: array<nat>, ghost done: seq<Hp>)
    requires Counted(count[..], done)
    modifies count
    ensures Counted(count[..], [hp] + done)
  {
    CountedCons(count[..], hp, done);
    hide Bucket;
    var b := hp.h % 256;
    count[b] := count[b] + 1;
    assert count[..] == old(count[..])[b := old(count[..])[b] + 1];
  }

  method CountBuckets(head: HpList, count: array<nat>)
    requires count.Length == 256
    modifies count
    ensures Counted(count[..], Flat(head))
  {
    for i := 0 to 256
      invariant forall b :: 0 <= b < i ==> count[b] == 0
    {
      count[i] := 0;
    }
    assert Counted(count[..], []);
    hide Counted;
    ghost var done := [];
    var x := head;
    while x != Nil
      invariant Flat(head) == Flat(x) + done
      invariant Counted(count[..], done)
      decreases x
    {
      var i := |x.hp|;
      assert x.hp[..i] == x.hp;
      while i > 0
        invariant 0 <= i <= |x.hp| && Flat(head) == Flat(x.next) + x.hp[..i] + done
        invariant Counted(count[..], done)
      {
        i := i - 1;
        Regroup(Flat(x.next), x.hp[..i], x.hp[i], done);
        assert x.hp[..i + 1] == x.hp[..i] + [x.hp[i]];
        CountOne(x.hp[i], count, done);
        done := [x.hp[i]] + done;
      }
      assert Flat(x.next) + x.hp[..0] == Flat(x.next);
      x := x.next;
    }
    assert [] + done == done;
  }

  method Starts(count: array<nat>, start: array<nat>, ghost xs: seq<Hp>)
    requires start.Length == 256 && count != start && Counted(count[..], xs)
    modifies start
    ensures forall b :: 0 <= b < 256 ==> start[b] == Base(xs, b + 1)
  {
    hide Bucket;
    var u := 0;
    assert forall b :: 0 <= b < 256 ==> count[b] == |Bucket(xs, b)| by {
      assert forall b :: 0 <= b < 256 ==> count[..][b] == count[b];
    }
    hide Counted;
    for i := 0 to 256
      invariant u == Base(xs, i)
      invariant forall b :: 0 <= b < i ==> start[b] == Base(xs, b + 1)
    {
      u := u + count[i];
      start[i] := u;
    }
  }

  /** `part` lies in `s` from `from` to `to`. */
  predicate Segment<T(==)>(s: seq<T>, from: nat, to: nat, part: seq<T>) {
    from + |part| == to <= |s| && s[from..to] == part
  }

  lemma SegmentGrows<T>(s: seq<T>, from: nat, to: nat, part: seq<T>, x: T)
    requires Segment(s, from, to, part) && 0 < from
    ensures from <= |s| && Segment(s[from - 1 := x], from - 1, to, [x] + part)
  {
  }

  lemma SegmentKept<T>(s: seq<T>, from: nat, to: nat, part: seq<T>, at: nat, x: T)
    requires Segment(s, from, to, part) && at < |s| && (at < from || to <= at)
    ensures Segment(s[at := x], from, to, part)
  {
  }

  /** The last entries of table `b` are in place, up to the end of its part of the split. */
  ghost predicate SplitAt(split: seq<Hp>, from: nat, xs: seq<Hp>, done: seq<Hp>, b: nat) {
    Segment(split, from, Base(xs, b + 1), Bucket(done, b))
  }

  lemma SplitSame(split: seq<Hp>, from: nat, xs: seq<Hp>, hp: Hp, done: seq<Hp>, b: nat)
    requires SplitAt(split, from, xs, done, b) && 0 < from && hp.h % 256 == b
    ensures from <= |split| && SplitAt(split[from - 1 := hp], from - 1, xs, [hp] + done, b)
  {
    hide Bucket, Base, Segment;
    BucketCons(hp, done, b);
    SegmentGrows(split, from, Base(xs, b + 1), Bucket(done, b), hp);
  }

  lemma SplitOther(split: seq<Hp>, from: nat, xs: seq<Hp>, hp: Hp, done: seq<Hp>, b: nat, at: nat)
    requires SplitAt(split, from, xs, done, b) && hp.h % 256 != b && Base(xs, b) <= from
    requires at < |split| && Base(xs, hp.h % 256) <= at < Base(xs, hp.h % 256 + 1)
    ensures SplitAt(split[at := hp], from, xs, [hp] + done, b)
  {
    hide Bucket, Base, Segment;
    var c := hp.h % 256;
    BucketConsOther(hp, done, b);
    if c < b {
      BaseMonotone(xs, c + 1, b);
    } else {
      BaseMonotone(xs, b + 1, c);
    }
    SegmentKept(split, from, Base(xs, b + 1), Bucket(done, b), at, hp);
  }

  lemma SplitAbove(split: seq<Hp>, from: nat, xs: seq<Hp>, early: seq<Hp>, done: seq<Hp>, b: nat)
    requires SplitAt(split, from, xs, done, b) && xs == early + done
    ensures Base(xs, b) <= from
  {
    BucketConcat(early, done, b);
  }

  /** Room for one more entry below the part of its table that is filled. */
  lemma SplitRoom(split: seq<Hp>, from: nat, xs: seq<Hp>, early: seq<Hp>, hp: Hp, done: seq<Hp>)
    requires SplitAt(split, from, xs, done, hp.h % 256) && xs == early + [hp] + done
    ensures Base(xs, hp.h % 256) < from
  {
    var b := hp.h % 256;
    BucketConcat(early + [hp], done, b);
    BucketSnoc(early, hp, b);
  }

  ghost predicate SplitDone(split: seq<Hp>, start: seq<nat>, xs: seq<Hp>, done: seq<Hp>) {
    |start| == 256 && forall b :: 0 <= b < 256 ==> SplitAt(split, start[b], xs, done, b)
  }

  lemma SplitNone(split: seq<Hp>, start: seq<nat>, xs: seq<Hp>)
    requires |start| == 256 && |split| == |xs| && forall b :: 0 <= b < 256 ==> start[b] == Base(xs, b + 1)
    ensures SplitDone(split, start, xs, [])
  {
    BaseTotal(xs);
    forall b | 0 <= b < 256
      ensures SplitAt(split, start[b], xs, [], b)
    {
      BaseMonotone(xs, b + 1, 256);
    }
  }

  lemma SplitOne(split: seq<Hp>, start: seq<nat>, xs: seq<Hp>, early: seq<Hp>, hp: Hp, done: seq<Hp>)
    requires SplitDone(split, start, xs, done) && xs == early + [hp] + done
    ensures 0 < start[hp.h % 256] <= |split|
    ensures var at := start[hp.h % 256] - 1;
            SplitDone(split[at := hp], start[hp.h % 256 := at], xs, [hp] + done)
  {
    hide Bucket, Base;
    var c := hp.h % 256;
    assert SplitAt(split, start[c], xs, done, c);
    SplitRoom(split, start[c], xs, early, hp, done);
    var at := start[c] - 1;
    var start' := start[c := at];
    forall b | 0 <= b < 256
      ensures SplitAt(split[at := hp], start'[b], xs, [hp] + done, b)
    {
      if b == c {
        SplitSame(split, start[b], xs, hp, done, b);
      } else {
        SplitAbove(split, start[b], xs, early + [hp], done, b);
        SplitOther(split, start[b], xs, hp, done, b, at);
      }
    }
  }

  method PutOne(hp: Hp, start: array<nat>, split: array<Hp>, ghost xs: seq<Hp>, ghost early: seq<Hp>, ghost done: seq<Hp>)
    requires SplitDone(split[..], start[..], xs, done) && start.Length == 256 && xs == early + [hp] + done
    modifies start, split
    ensures SplitDone(split[..], start[..], xs, [hp] + done)
  {
    hide SplitDone;
    var c := hp.h % 256;
    SplitOne(split[..], start[..], xs, early, hp, done);
    start[c] := start[c] - 1;
    split[start[c]] := hp;
    assert start[..] == old(start[..])[c := old(start[..])[c] - 1];
    assert split[..] == old(split[..])[old(start[..])[c] - 1 := hp];
  }

  /** One chunk, from its end. */
  method SplitChunk(hp: seq<Hp>, start: array<nat>, split: array<Hp>, ghost xs: seq<Hp>, ghost early: seq<Hp>, ghost done: seq<Hp>)
    requires SplitDone(split[..], start[..], xs, done) && start.Length == 256 && xs == early + hp + done
    modifies start, split
    ensures SplitDone(split[..], start[..], xs, hp + done)
  {
    hide SplitDone;
    var i := |hp|;
    assert hp[i..] + done == done && hp[..i] == hp;
    while i > 0
      invariant 0 <= i <= |hp| && xs == early + hp[..i] + (hp[i..] + done)
      invariant SplitDone(split[..], start[..], xs, hp[i..] + done)
    {
      i := i - 1;
      Regroup(early, hp[..i], hp[i], hp[i + 1..] + done);
      assert hp[..i + 1] == hp[..i] + [hp[i]];
      assert hp[i..] + done == [hp[i]] + (hp[i + 1..] + done);
      PutOne(hp[i], start, split, xs, early + hp[..i], hp[i + 1..] + done);
    }
    assert hp[0..] == hp;
  }

  /** The entries go to their tables from the end, so that each table keeps the order of insertion. */
  method Split(head: HpList, start: array<nat>, split: array<Hp>)
    requires start.Length == 256 && split.Length == |Flat(head)|
    requires forall b :: 0 <= b < 256 ==> start[b] == Base(Flat(head), b + 1)
    modifies start, split
    ensures SplitDone(split[..], start[..], Flat(head), Flat(head))
  {
    hide SplitDone;
    ghost var xs := Flat(head);
    assert forall b :: 0 <= b < 256 ==> start[..][b] == start[b];
    SplitNone(split[..], start[..], xs);
    ghost var done := [];
    var x := head;
    while x != Nil
      invariant xs == Flat(x) + done
      invariant SplitDone(split[..], start[..], xs, done)
      decreases x
    {
      SplitChunk(x.hp, start, split, xs, Flat(x.next), done);
      assert Flat(x.next) + x.hp + done == Flat(x.next) + (x.hp + done);
      done := x.hp + done;
      x := x.next;
    }
    assert [] + done == done;
  }

  // ---------- one hash table ----------

  lemma BuildSnoc(xs: seq<Hp>, x: Hp, len: nat)
    requires len > 0
    ensures Build(xs + [x], len) == Place(Build(xs, len), x)
  {
    assert (xs + [x])[..|xs|] == xs;
  }

  method PlaceOne(x: Hp, hash: array<Hp>, len: nat)
    requires 0 < len <= hash.Length && Used(hash[..len]) < len
    modifies hash
    ensures hash[..len] == Place(old(hash[..len]), x)
  {
    hide Start, Used;
    ghost var t := hash[..len];
    var where := Start(x.h, len);
    ghost var s, j := where, 0;
    RoomLeft(t, s);
    while hash[where].p != 0
      invariant hash[..len] == t
      invariant j < len && where == Slot(s, j, len) && Passed(t, s, 0) == Passed(t, s, j) < len
      decreases len - j
    {
      assert t[where] == hash[where];
      where := where + 1;
      if where == len { where := 0; }
      j := j + 1;
    }
    assert t[where] == hash[where];
    hash[where] := x;
    assert hash[..len] == t[where := x];
  }

  /** Linear probing into a table of twice as many slots as entries. */
  method FillTable(split: array<Hp>, lo: nat, count: nat, hash: array<Hp>)
    requires lo + count <= split.Length && 2 * count <= hash.Length && hash != split
    requires forall i :: lo <= i < lo + count ==> split[i].p != 0
    modifies hash
    ensures hash[..2 * count] == Build(split[lo..lo + count], 2 * count)
  {
    var len := 2 * count;
    for u := 0 to len
      invariant forall i :: 0 <= i < u ==> hash[i] == FREE
    {
      hash[u] := FREE;
    }
    assert hash[..len] == seq(len, i => FREE);
    assert split[lo..lo] == [];
    for u := 0 to count
      invariant hash[..len] == Build(split[lo..lo + u], len)
    {
      ghost var xs := split[lo..lo + u];
      assert split[lo..lo + u + 1] == xs + [split[lo + u]];
      BuildSnoc(xs, split[lo + u], len);
      Built(xs, len);
      PlaceOne(split[lo + u], hash, len);
    }
  }

  // ---------- the file while it grows ----------

  function SlotBytes(t: seq<Hp>): (s: seq<byte>)
    ensures |s| == 8 * |t|
  {
    if t == [] then [] else SlotBytes(t[..|t| - 1]) + Pack4(t[|t| - 1].h) + Pack4(t[|t| - 1].p)
  }

  lemma {:induction false} SlotBytesAt(f: seq<byte>, t: seq<Hp>)
    ensures SlotsAt(f + SlotBytes(t), |f|, t)
  {
    if t != [] {
      var u, x := t[..|t| - 1], t[|t| - 1];
      SlotBytesAt(f, u);
      var g := f + SlotBytes(u);
      var g' := g + (Pack4(x.h) + Pack4(x.p));
      assert f + SlotBytes(t) == g';
      forall i | 0 <= i < |t|
        ensures SlotAt(g', |f| + 8 * i, t[i])
      {
        if i < |u| {
          assert u[i] == t[i] && SlotAt(g, |f| + 8 * i, u[i]);
        } else {
          SlotPacked(g, x);
        }
      }
    }
  }

  lemma SlotPacked(g: seq<byte>, x: Hp)
    ensures SlotAt(g + (Pack4(x.h) + Pack4(x.p)), |g|, x)
  {
  }

  lemma RecordFrame(f: seq<byte>, f': seq<byte>, p: nat, r: Record)
    requires RecordAt(f, p, r) && p + r.Size() <= |f'|
    requires forall k :: p <= k < p + r.Size() ==> f'[k] == f[k]
    ensures RecordAt(f', p, r)
  {
    assert f'[p + 8..p + 8 + |r.key|] == f[p + 8..p + 8 + |r.key|];
    assert f'[p + 8 + |r.key|..p + r.Size()] == f[p + 8 + |r.key|..p + r.Size()];
  }

  lemma {:induction false} RecordsFrame(f: seq<byte>, f': seq<byte>, recs: seq<Record>)
    requires RecordsAt(f, recs) && End(recs) <= |f| && End(recs) <= |f'|
    requires forall k :: HEADER <= k < End(recs) ==> f'[k] == f[k]
    ensures RecordsAt(f', recs)
  {
    if recs != [] {
      RecordsFrame(f, f', recs[..|recs| - 1]);
      RecordFrame(f, f', End(recs[..|recs| - 1]), recs[|recs| - 1]);
    }
  }

  lemma TableFrame(f: seq<byte>, f': seq<byte>, b: nat, t: seq<Hp>)
    requires TableAt(f, b, t) && HEADER <= Get4(f, 8 * b) && |f| <= |f'|
    requires forall k :: HEADER <= k < |f| ==> f'[k] == f[k]
    requires forall k :: 8 * b <= k < 8 * b + 8 ==> f'[k] == f[k]
    ensures TableAt(f', b, t) && Get4(f', 8 * b) == Get4(f, 8 * b)
  {
    hide Get4;
    Get4Same(f, f', 8 * b);
    Get4Same(f, f', 8 * b + 4);
    var p := Get4(f, 8 * b);
    forall u | 0 <= u < |t|
      ensures SlotAt(f', p + 8 * u, t[u])
    {
      assert SlotAt(f, p + 8 * u, t[u]);
      Get4Same(f, f', p + 8 * u);
      Get4Same(f, f', p + 8 * u + 4);
    }
  }

  /** The first `i` tables are in place. */
  ghost predicate Tables(f: seq<byte>, recs: seq<Record>, i: nat)
    requires End(recs) <= WORD
  {
    i <= 256 && forall b :: 0 <= b < i ==> TableAt(f, b, TableOf(recs, b)) && HEADER <= Get4(f, 8 * b)
  }

  ghost predicate Partial(f: seq<byte>, recs: seq<Record>, i: nat) {
    && |f| < WORD && HEADER <= End(recs) <= |f|
    && RecordsAt(f, recs)
    && (if i == 0 then |f| == End(recs) else Get4(f, 0) == End(recs))
    && Tables(f, recs, i)
  }

  /** The file once table `i` has been appended and its header entry filled in. */
  function WithTable(final: seq<byte>, out: seq<byte>, i: nat, t: seq<Hp>): (f: seq<byte>)
    requires |final| == HEADER && HEADER + |out| < WORD && i < 256 && |t| < WORD
  {
    Put4(Put4(final, 8 * i, HEADER + |out|), 8 * i + 4, |t|) + (out + SlotBytes(t))
  }

  ghost predicate Extends(f: seq<byte>, f': seq<byte>, i: nat) {
    |f| <= |f'| && forall k :: 0 <= k < |f| && !(8 * i <= k < 8 * i + 8) ==> f'[k] == f[k]
  }

  lemma WithTableAt(final: seq<byte>, out: seq<byte>, i: nat, t: seq<Hp>)
    requires |final| == HEADER && HEADER + |out| < WORD && i < 256 && |t| < WORD
    ensures var f, f' := final + out, WithTable(final, out, i, t);
            |f'| == |f| + 8 * |t| && Get4(f', 8 * i) == |f| && TableAt(f', i, t) && Extends(f, f', i)
  {
    hide SlotBytes, Get4, SlotsAt;
    var f, f' := final + out, WithTable(final, out, i, t);
    var g := Put4(final, 8 * i, |f|);
    var h := Put4(g, 8 * i + 4, |t|);
    assert f' == h + out + SlotBytes(t);
    SlotBytesAt(h + out, t);
    Get4Same(g, h, 8 * i);
    Get4Same(h, f', 8 * i);
    Get4Same(h, f', 8 * i + 4);
  }

  lemma TablesFrame(f: seq<byte>, f': seq<byte>, recs: seq<Record>, i: nat)
    requires End(recs) <= WORD && Tables(f, recs, i) && i < 256 && Extends(f, f', i)
    ensures Tables(f', recs, i) && (i > 0 ==> HEADER <= |f| && Get4(f', 0) == Get4(f, 0))
  {
    forall b | 0 <= b < i
      ensures HEADER <= |f| && TableAt(f', b, TableOf(recs, b)) && HEADER <= Get4(f', 8 * b) && Get4(f', 8 * b) == Get4(f, 8 * b)
    {
      var t := TableOf(recs, b);
      assert TableAt(f, b, t);
      hide TableOf;
      TableFrame(f, f', b, t);
    }
    if i > 0 {
      assert TableAt(f, 0, TableOf(recs, 0));
      assert Get4(f', 8 * 0) == Get4(f, 8 * 0);
    }
  }

  lemma PartialStep(final: seq<byte>, out: seq<byte>, recs: seq<Record>, i: nat)
    requires |final| == HEADER && Partial(final + out, recs, i) && i < 256 && HEADER + |out| + 8 * |TableOf(recs, i)| < WORD
    ensures Partial(WithTable(final, out, i, TableOf(recs, i)), recs, i + 1)
  {
    hide TableOf, Get4, TableAt, WithTable;
    var t := TableOf(recs, i);
    var f, f' := final + out, WithTable(final, out, i, t);
    WithTableAt(final, out, i, t);
    TablesFrame(f, f', recs, i);
    assert End(recs) <= |f'| && RecordsAt(f', recs) by {
      RecordsFrame(f, f', recs);
    }
  }

  lemma PartialDone(f: seq<byte>, recs: seq<Record>)
    requires Partial(f, recs, 256)
    ensures IsCdb(f, recs)
  {
  }

  // ---------- the records ----------

  function RecordBytes(r: Record): (s: seq<byte>)
    requires |r.key| < WORD && |r.data| < WORD
    ensures |s| == r.Size()
  {
    Pack4(|r.key|) + Pack4(|r.data|) + r.key + r.data
  }

  lemma RecordBytesAt(f: seq<byte>, r: Record)
    requires |r.key| < WORD && |r.data| < WORD
    ensures RecordAt(f + RecordBytes(r), |f|, r)
  {
    hide Pack4, Get4;
    var g := f + RecordBytes(r);
    FourParts(f, Pack4(|r.key|), Pack4(|r.data|), r.key, r.data);
    Get4Packed(g, |f|, |r.key|);
    Get4Packed(g, |f| + 4, |r.data|);
  }

  lemma FourParts<T>(f: seq<T>, a: seq<T>, b: seq<T>, c: seq<T>, d: seq<T>)
    ensures var g := f + (a + b + c + d);
            && g[|f|..|f| + |a|] == a
            && g[|f| + |a|..|f| + |a| + |b|] == b
            && g[|f| + |a| + |b|..|f| + |a| + |b| + |c|] == c
            && g[|f| + |a| + |b| + |c|..] == d
  {
  }

  /** Everything added so far is in the file and in the list. */
  ghost predicate Collected(f: seq<byte>, l: HpList, recs: seq<Record>) {
    |f| < WORD && |f| == End(recs) && RecordsAt(f, recs) && Flat(l) == Hps(recs)
  }

  lemma CollectedAdd(f: seq<byte>, l: HpList, recs: seq<Record>, r: Record, l': HpList)
    requires Collected(f, l, recs) && |r.key| < WORD && |r.data| < WORD && |f| + r.Size() < WORD
    requires Flat(l') == Flat(l) + [Hp(DjbHash.Of(r.key), |f|)]
    ensures Collected(f + RecordBytes(r), l', recs + [r])
  {
    hide RecordAt, DjbHash.Of;
    var f', recs' := f + RecordBytes(r), recs + [r];
    assert recs'[..|recs|] == recs;
    RecordBytesAt(f, r);
    RecordsFrame(f, f', recs);
  }

  lemma CollectedIs(f: seq<byte>, l: HpList, recs: seq<Record>)
    requires Collected(f, l, recs)
    ensures |f| == End(recs) < WORD && Flat(l) == Hps(recs)
  {
    hide RecordsAt, Flat, Hps, End;
  }

  lemma EndNext(f: seq<byte>, l: HpList, recs: seq<Record>, r: Record)
    requires Collected(f, l, recs)
    ensures End(recs + [r]) == |f| + r.Size()
  {
    assert (recs + [r])[..|recs|] == recs;
  }

  /** The number of entries in the tables before table `b`. */
  ghost function SizeBefore(recs: seq<Record>, b: nat): (n: nat)
    requires End(recs) <= WORD
  {
    Base(Hps(recs), b)
  }

  lemma SizeNext(split: seq<Hp>, lo: nat, cnt: nat, recs: seq<Record>, b: nat)
    requires b < 256 && SplitFor(split, lo, cnt, recs, b)
    ensures SizeBefore(recs, b + 1) == SizeBefore(recs, b) + cnt && SizeBefore(recs, b + 1) <= |recs|
  {
    hide Bucket, Hps;
    BaseTotal(Hps(recs));
    BaseMonotone(Hps(recs), b + 1, 256);
  }

  lemma PartialEnds(f: seq<byte>, recs: seq<Record>)
    requires Partial(f, recs, 0)
    ensures End(recs) == |f| < WORD && SizeBefore(recs, 0) == 0
  {
  }

  lemma SizeOfAll(recs: seq<Record>)
    requires End(recs) <= WORD
    ensures SizeBefore(recs, 256) == |recs|
  {
    hide Hps;
    BaseTotal(Hps(recs));
  }

  /** When the memory that is needed could not be counted, the file would be too large as well. */
  lemma TooMany(l: HpList, count: seq<nat>, memsize: nat, recs: seq<Record>)
    requires End(recs) <= WORD && Flat(l) == Hps(recs) && Counted(count, Hps(recs))
    requires memsize == 1 || exists b :: 0 <= b < 256 && memsize == 2 * count[b]
    ensures memsize + |recs| > (WORD - 1) / 8 ==> End(recs) + 16 * |recs| >= WORD
  {
    hide Bucket, Hps;
    if memsize != 1 {
      var b :| 0 <= b < 256 && memsize == 2 * count[b];
      BaseTotal(Hps(recs));
      BaseMonotone(Hps(recs), b + 1, 256);
    }
  }

  lemma InBucket(split: seq<Hp>, lo: nat, cnt: nat, xs: seq<Hp>, b: nat)
    requires lo + cnt <= |split| && split[lo..lo + cnt] == Bucket(xs, b)
    requires forall i :: 0 <= i < |xs| ==> xs[i].p != 0
    ensures cnt == |Bucket(xs, b)| && forall i :: lo <= i < lo + cnt ==> split[i].p != 0
  {
    forall i | lo <= i < lo + cnt
      ensures split[i].p != 0
    {
      assert split[i] == Bucket(xs, b)[i - lo];
    }
  }

  lemma PartialNone(f: seq<byte>, l: HpList, recs: seq<Record>)
    requires Collected(f, l, recs)
    ensures Partial(f, recs, 0)
  {
  }

  /** Table `b` finds its entries at `lo`. */
  ghost predicate SplitFor(split: seq<Hp>, lo: nat, cnt: nat, recs: seq<Record>, b: nat) {
    && End(recs) <= WORD && lo + cnt <= |split|
    && split[lo..lo + cnt] == Bucket(Hps(recs), b)
  }

  lemma SplitReady(split: seq<Hp>, start: seq<nat>, count: seq<nat>, recs: seq<Record>)
    requires End(recs) <= WORD && SplitDone(split, start, Hps(recs), Hps(recs)) && Counted(count, Hps(recs))
    ensures |start| == 256 == |count|
    ensures forall b :: 0 <= b < 256 ==> SplitFor(split, start[b], count[b], recs, b)
  {
    hide Bucket, Base, Hps;
    forall b | 0 <= b < 256
      ensures SplitFor(split, start[b], count[b], recs, b)
    {
      assert SplitAt(split, start[b], Hps(recs), Hps(recs), b);
    }
  }

  lemma NextTable(final: seq<byte>, out: seq<byte>, split: seq<Hp>, lo: nat, cnt: nat, recs: seq<Record>, i: nat)
    returns (t: seq<Hp>)
    requires |final| == HEADER && Partial(final + out, recs, i) && i < 256 && SplitFor(split, lo, cnt, recs, i)
    ensures lo + cnt <= |split| && forall k :: lo <= k < lo + cnt ==> split[k].p != 0
    ensures t == Build(split[lo..lo + cnt], 2 * cnt) && HEADER + |out| < WORD
    ensures |t| < WORD && HEADER + |out| + 8 * |t| < WORD ==> Partial(WithTable(final, out, i, t), recs, i + 1)
  {
    t := TableOf(recs, i);
    InBucket(split, lo, cnt, Hps(recs), i);
    if HEADER + |out| + 8 * |t| < WORD {
      PartialStep(final, out, recs, i);
    }
  }

  lemma RecordPieces(f: seq<byte>, out: seq<byte>, r: Record)
    requires |r.key| < WORD && |r.data| < WORD
    ensures f + (out + (Pack4(|r.key|) + Pack4(|r.data|)) + r.key + r.data) == f + out + RecordBytes(r)
  {
    hide Pack4;
    var p := Pack4(|r.key|) + Pack4(|r.data|);
    assert out + p + r.key + r.data == out + RecordBytes(r);
    assert f + (out + RecordBytes(r)) == f + out + RecordBytes(r);
  }

  // ---------- the writer ----------

  class Writer {
    const final: array<byte>
    const count: array<nat>
    const start: array<nat>
    var head: HpList
    var numentries: nat
    var pos: uint32
    /** The bytes written from position 2048 on. */
    var out: seq<byte>
    ghost var recs: seq<Record>
    /** A write has failed, or memory could not be had. */
    ghost var lacked: bool

    ghost predicate Valid()
      reads this, final
    {
      && final.Length == HEADER && count.Length == 256 && start.Length == 256 && count != start
      && numentries == |Flat(head)| && pos == HEADER + |out| && !lacked
      && Collected(final[..] + out, head, recs)
    }

    constructor ()
      ensures Valid() && recs == []
      ensures fresh(final) && fresh(count) && fresh(start)
    {
      final := new byte[HEADER];
      count := new nat[256];
      start := new nat[256];
      head, numentries, pos, out, recs, lacked := Nil, 0, HEADER, [], [], false;
    }

    /** Memory, or the success of a write. */
    method Granted() returns (ok: bool)
      modifies this`lacked
      ensures if ok then lacked == old(lacked) else lacked
    {
      ok := *;
      if !ok { lacked := true; }
    }

    method PosPlus(len: uint32) returns (ok: bool)
      modifies this`pos
      ensures ok <==> old(pos) + len < WORD
      ensures pos == if ok then old(pos) + len else old(pos)
    {
      var newpos := (pos + len) % WORD;
      if newpos < len { return false; }
      pos := newpos;
      return true;
    }

    /** Buffered output; a write may fail. */
    method Put(s: seq<byte>) returns (ok: bool)
      modifies this`out, this`lacked
      ensures if ok then out == old(out) + s && lacked == old(lacked) else lacked
    {
      ok := Granted();
      out := out + s;
    }

    method AddBegin(keylen: uint32, datalen: uint32) returns (ok: bool)
      modifies this`out, this`lacked
      ensures if ok then out == old(out) + (Pack4(keylen) + Pack4(datalen)) && lacked == old(lacked) else lacked
    {
      ok := Put(Pack4(keylen) + Pack4(datalen));
    }

    method AddEnd(keylen: uint32, datalen: uint32, h: uint32) returns (ok: bool)
      modifies this`head, this`numentries, this`pos, this`lacked
      ensures ok ==> Flat(head) == old(Flat(head)) + [Hp(h, old(pos))] && numentries == old(numentries) + 1
      ensures if ok then lacked == old(lacked) else lacked || old(pos) + 8 + keylen + datalen >= WORD
      ensures ok ==> pos == old(pos) + 8 + keylen + datalen < WORD
    {
      if head == Nil || |head.hp| >= CHUNK {
        ok := Granted();
        if !ok { return; }
        head := Chunk([], head);
      }
      head := Chunk(head.hp + [Hp(h, pos)], head.next);
      numentries := numentries + 1;
      ok := PosPlus(8);
      if !ok { return; }
      ok := PosPlus(keylen);
      if !ok { return; }
      ok := PosPlus(datalen);
    }

    /** Adds one record, or fails and leaves the writer unusable: only for want of memory, because a write fails, or when
        the file would become too large. */
    method Add(key: seq<byte>, data: seq<byte>) returns (ok: bool)
      requires Valid() && |key| < WORD && |data| < WORD
      modifies this`head, this`numentries, this`pos, this`out, this`recs, this`lacked
      ensures ok ==> Valid() && recs == old(recs) + [Record(key, data)]
      ensures !ok ==> lacked || End(old(recs) + [Record(key, data)]) >= WORD
    {
      hide Collected, RecordBytes, Pack4;
      ghost var f, r := final[..] + out, Record(key, data);
      var h := DjbHash.Compute(key);
      ok := AddBegin(|key|, |data|);
      if !ok { return; }
      ok := Put(key);
      if !ok { return; }
      ok := Put(data);
      if !ok { return; }
      RecordPieces(final[..], old(out), r);
      EndNext(f, head, recs, r);
      assert |f| == pos;
      ghost var l := head;
      ok := AddEnd(|key|, |data|, h);
      if ok {
        CollectedAdd(f, l, recs, r, head);
        recs := recs + [r];
      }
    }

    method SetFinal(p: nat, u: uint32)
      requires p + 4 <= final.Length
      modifies final
      ensures final[..] == Put4(old(final[..]), p, u)
    {
      var s := Pack4(u);
      final[p], final[p + 1], final[p + 2], final[p + 3] := s[0], s[1], s[2], s[3];
    }

    /** Writes the slots of one table. */
    method Emit(hash: array<Hp>, len: nat) returns (ok: bool)
      requires len <= hash.Length && pos == HEADER + |out|
      modifies this`pos, this`out, this`lacked
      ensures ok ==> out == old(out) + SlotBytes(hash[..len]) && pos == HEADER + |out|
      ensures if ok then lacked == old(lacked) && pos == old(pos) + 8 * len else lacked || old(pos) + 8 * len >= WORD
    {
      assert hash[..0] == [];
      for u := 0 to len
        invariant out == old(out) + SlotBytes(hash[..u]) && pos == HEADER + |out| && lacked == old(lacked)
      {
        assert hash[..u + 1][..u] == hash[..u];
        ok := Put(Pack4(hash[u].h) + Pack4(hash[u].p));
        if !ok { return; }
        ok := PosPlus(8);
        if !ok { return; }
      }
      ok := true;
    }

    method Header(i: nat, len: uint32)
      requires final.Length == HEADER && i < 256
      modifies final
      ensures final[..] == Put4(Put4(old(final[..]), 8 * i, pos), 8 * i + 4, len)
    {
      SetFinal(8 * i, pos);
      SetFinal(8 * i + 4, len);
    }

    /** Fills in the header entry of table `i`, builds it and writes it. */
    method OneTable(i: nat, split: array<Hp>, lo: nat, cnt: nat, hash: array<Hp>, ghost t: seq<Hp>) returns (ok: bool)
      requires final.Length == HEADER && pos == HEADER + |out| && i < 256
      requires lo + cnt <= split.Length && 2 * cnt <= hash.Length && hash != split && 2 * cnt < WORD
      requires forall i :: lo <= i < lo + cnt ==> split[i].p != 0
      requires t == Build(split[lo..lo + cnt], 2 * cnt)
      modifies this`pos, this`out, this`lacked, final, hash
      ensures if ok then lacked == old(lacked) && pos == old(pos) + 16 * cnt else lacked || old(pos) + 16 * cnt >= WORD
      ensures ok ==> final[..] + out == WithTable(old(final[..]), old(out), i, t) && pos == HEADER + |out|
    {
      hide Build, SlotBytes;
      var len := cnt + cnt;
      Header(i, len);
      FillTable(split, lo, cnt, hash);
      ok := Emit(hash, len);
    }

    /** The size of the memory for the split and for the largest table. */
    method MemSize() returns (memsize: nat)
      requires count.Length == 256
      ensures forall b :: 0 <= b < 256 ==> 2 * count[b] <= memsize
      ensures memsize == 1 || exists b :: 0 <= b < 256 && memsize == 2 * count[b]
    {
      memsize := 1;
      for i := 0 to 256
        invariant forall b :: 0 <= b < i ==> 2 * count[b] <= memsize
        invariant memsize == 1 || exists b :: 0 <= b < 256 && memsize == 2 * count[b]
      {
        var u := count[i] * 2;
        if u > memsize { memsize := u; }
      }
    }

    /** The tables, one after the other. */
    method AllTables(split: array<Hp>, hash: array<Hp>) returns (ok: bool)
      requires final.Length == HEADER && count.Length == 256 && start.Length == 256 && hash != split
      requires pos == HEADER + |out| && Partial(final[..] + out, recs, 0)
      requires forall b :: 0 <= b < 256 ==> SplitFor(split[..], start[b], count[b], recs, b) && 2 * count[b] <= hash.Length
      requires 2 * hash.Length < WORD && !lacked
      modifies this`pos, this`out, this`lacked, final, hash
      ensures ok ==> IsCdb(final[..] + out, recs)
      ensures if ok then !lacked && pos == HEADER + |out| == old(pos) + 16 * |recs| else lacked || old(pos) + 16 * |recs| >= WORD
    {
      hide Partial, SplitFor, WithTable, Bucket, Base, Hps, IsCdb, End, SizeBefore, SlotBytes, Build;
      PartialEnds(final[..] + out, recs);
      for i := 0 to 256
        invariant Partial(final[..] + out, recs, i) && pos == HEADER + |out| && End(recs) < WORD
        invariant !lacked && pos == old(pos) + 16 * SizeBefore(recs, i)
      {
        SizeNext(split[..], start[i], count[i], recs, i);
        ghost var t := NextTable(final[..], out, split[..], start[i], count[i], recs, i);
        ok := OneTable(i, split, start[i], count[i], hash, t);
        if !ok { return; }
      }
      SizeOfAll(recs);
      PartialDone(final[..] + out, recs);
      ok := true;
    }

    /** Builds the 256 tables behind the records and then the header; fails only for want of memory, because a write
        fails, or when the file would become too large. */
    method Finish() returns (ok: bool, file: seq<byte>)
      requires Valid()
      modifies this`pos, this`out, this`lacked, final, count, start
      ensures ok ==> IsCdb(file, recs) && |file| == End(recs) + 16 * |recs|
      ensures ok <==> !lacked && End(recs) + 16 * |recs| < WORD
    {
      hide SplitDone, Counted, SplitFor, Partial, Collected, Bucket, Base, Hps, IsCdb, End;
      CollectedIs(final[..] + out, head, recs);
      file := [];
      ghost var xs := Hps(recs);
      CountBuckets(head, count);
      var memsize := MemSize();
      var total := memsize + numentries;
      TooMany(head, count[..], memsize, recs);
      if total > (WORD - 1) / 8 { return false, []; }
      ok := Granted();
      if !ok { return; }
      var split := new Hp[numentries](_ => FREE);
      var hash := new Hp[memsize](_ => FREE);
      Starts(count, start, xs);
      Split(head, start, split);
      PartialNone(final[..] + out, head, recs);
      SplitReady(split[..], start[..], count[..], recs);
      ok := AllTables(split, hash);
      if !ok { return; }
      ok := Granted();
      file := final[..] + out;
    }
  }
}
