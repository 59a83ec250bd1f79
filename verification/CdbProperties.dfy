/** A reader of a well-formed constant database finds exactly what was written, in order. */
module CdbProperties {
  import opened Bytes
  import opened CdbTable
  import opened CdbFormat
  import opened CdbRead
  import DjbHash

  // ---------- one table ----------

  /** The cursor at the `j`-th probe of the table `t` stored at `tpos`. */
  function At(t: seq<Hp>, tpos: uint32, h: uint32, j: nat): (c: Cursor)
    requires j < |t| && tpos + 8 * |t| < WORD
  {
    Cursor(j, h, tpos + 8 * Slot(Start(h, |t|), j, |t|), tpos, |t|)
  }

  /** The answers that the entries of the key's hash give. */
  function Hits(f: seq<byte>, key: seq<byte>, h: uint32, xs: seq<Hp>): (r: seq<Outcome>) {
    if xs == [] then []
    else (var o := Examine(f, key, h, xs[0].h, xs[0].p); if o == Missing then [] else [o]) + Hits(f, key, h, xs[1..])
  }

  lemma {:induction false} HitsConcat(f: seq<byte>, key: seq<byte>, h: uint32, xs: seq<Hp>, ys: seq<Hp>)
    ensures Hits(f, key, h, xs + ys) == Hits(f, key, h, xs) + Hits(f, key, h, ys)
  {
    hide Examine;
    if xs == [] {
      assert xs + ys == ys;
    } else {
      assert (xs + ys)[1..] == xs[1..] + ys;
      HitsConcat(f, key, h, xs[1..], ys);
    }
  }

  lemma AdvanceAt(t: seq<Hp>, tpos: uint32, h: uint32, j: nat)
    requires j + 1 < |t| && tpos + 8 * |t| < WORD
    ensures Advance(At(t, tpos, h, j)) == At(t, tpos, h, j + 1)
  {
    hide Start;
    var n := |t|;
    var s, i := Start(h, n), Slot(Start(h, n), j, n);
    NoWrap(tpos + 8 * i + 8);
    NoWrap(8 * n);
    NoWrap(tpos + 8 * n);
    assert Slot(s, j + 1, n) == if i + 1 == n then 0 else i + 1;
  }

  lemma NoWrap(x: int)
    requires 0 <= x < WORD
    ensures x % WORD == x
  {
  }

  ghost predicate TableIn(f: seq<byte>, tpos: uint32, t: seq<Hp>) {
    SlotsAt(f, tpos, t) && tpos + 8 * |t| < WORD && |t| > 0
  }

  lemma HitsProbed(f: seq<byte>, key: seq<byte>, h: uint32, t: seq<Hp>, j: nat)
    requires j < |t| && t[Slot(Start(h, |t|), j, |t|)].p != 0
    ensures var s := Start(h, |t|);
            var x := t[Slot(s, j, |t|)];
            var o := Examine(f, key, h, x.h, x.p);
            Hits(f, key, h, Probed(t, s, j, h)) ==
            (if o == Missing then [] else [o]) + Hits(f, key, h, Probed(t, s, j + 1, h))
  {
    var s := Start(h, |t|);
    var x := t[Slot(s, j, |t|)];
    HitsConcat(f, key, h, if x.h == h then [x] else [], Probed(t, s, j + 1, h));
    HitsOne(f, key, h, x);
    if Examine(f, key, h, x.h, x.p) != Missing {
      OtherHash(f, key, h, x);
    }
  }

  /** One call finds the first remaining answer and leaves the others for later calls. */
  lemma {:induction false} ProbeStep(f: seq<byte>, key: seq<byte>, h: uint32, tpos: uint32, t: seq<Hp>, j: nat)
    returns (k: nat)
    requires TableIn(f, tpos, t) && j <= Passed(t, Start(h, |t|), 0) < |t|
    ensures k <= Passed(t, Start(h, |t|), 0)
    ensures var hits := Hits(f, key, h, Probed(t, Start(h, |t|), j, h));
            var (o, c) := Probe(f, key, At(t, tpos, h, j));
            if hits == [] then o == Missing
            else k > j && o == hits[0] && c == At(t, tpos, h, k) && Hits(f, key, h, Probed(t, Start(h, |t|), k, h)) == hits[1..]
    decreases |t| - j
  {
    hide Examine, Get4, Start;
    var s, e := Start(h, |t|), Passed(t, Start(h, |t|), 0);
    var x := t[Slot(s, j, |t|)];
    assert SlotAt(f, tpos + 8 * Slot(s, j, |t|), x);
    k := j;
    if x.p != 0 {
      assert j < e;
      AdvanceAt(t, tpos, h, j);
      HitsProbed(f, key, h, t, j);
      hide Hits, Probed, Passed;
      k := j + 1;
      if Examine(f, key, h, x.h, x.p) == Missing {
        k := ProbeStep(f, key, h, tpos, t, j + 1);
      }
    }
  }

  lemma HitsOne(f: seq<byte>, key: seq<byte>, h: uint32, x: Hp)
    ensures Hits(f, key, h, []) == []
    ensures Hits(f, key, h, [x]) ==
            var o := Examine(f, key, h, x.h, x.p); if o == Missing then [] else [o]
  {
    assert [x][1..] == [];
  }

  lemma OtherHash(f: seq<byte>, key: seq<byte>, h: uint32, x: Hp)
    requires Examine(f, key, h, x.h, x.p) != Missing
    ensures x.h == h
  {
  }

  // ---------- the records ----------

  /** `o` is the answer for record `r`: where its data lies and how long it is. */
  predicate Answers(f: seq<byte>, o: Outcome, r: Record) {
    o.Found? && o.dpos + o.dlen <= |f| && f[o.dpos..o.dpos + o.dlen] == r.data
  }

  lemma ExamineRecord(f: seq<byte>, key: seq<byte>, p: uint32, r: Record)
    requires RecordAt(f, p, r) && |f| < WORD
    ensures var o := Examine(f, key, DjbHash.Of(key), DjbHash.Of(r.key), p);
            if r.key == key then Answers(f, o, r) else o == Missing
  {
    hide DjbHash.Of, Compare, Get4;
    if |r.key| == |key| {
      CompareInFile(f, key, p + 8);
      NoWrap(p + 8);
      NoWrap(p + 8 + |key|);
    }
  }

  ghost predicate AllAnswer(f: seq<byte>, hits: seq<Outcome>, recs: seq<Record>) {
    |hits| == |recs| && forall i :: 0 <= i < |hits| ==> Answers(f, hits[i], recs[i])
  }

  lemma AllAnswerSnoc(f: seq<byte>, hits: seq<Outcome>, recs: seq<Record>, o: Outcome, r: Record)
    requires AllAnswer(f, hits, recs)
    ensures AllAnswer(f, hits + [], recs + [])
    ensures Answers(f, o, r) ==> AllAnswer(f, hits + [o], recs + [r])
  {
    assert hits + [] == hits && recs + [] == recs;
  }

  lemma HitsSnoc(f: seq<byte>, key: seq<byte>, h: uint32, xs: seq<Hp>, x: Hp)
    ensures Hits(f, key, h, Select(xs + [x], h)) ==
            Hits(f, key, h, Select(xs, h)) + var o := Examine(f, key, h, x.h, x.p); if o == Missing then [] else [o]
  {
    SelectSnoc(xs, x, h);
    HitsConcat(f, key, h, Select(xs, h), if x.h == h then [x] else []);
    HitsOne(f, key, h, x);
    if Examine(f, key, h, x.h, x.p) != Missing {
      OtherHash(f, key, h, x);
    }
  }

  lemma {:induction false} HitsAreWanted(f: seq<byte>, recs: seq<Record>, key: seq<byte>)
    requires |f| < WORD && End(recs) <= |f| && RecordsAt(f, recs)
    ensures AllAnswer(f, Hits(f, key, DjbHash.Of(key), Select(Hps(recs), DjbHash.Of(key))), Wanted(recs, key))
  {
    hide DjbHash.Of, Examine, RecordAt, Hits, Select, AllAnswer;
    var h := DjbHash.Of(key);
    if recs == [] {
      NoHits(f, key, h);
    } else {
      var init, r := recs[..|recs| - 1], recs[|recs| - 1];
      var x := Hp(DjbHash.Of(r.key), End(init));
      HitsAreWanted(f, init, key);
      ExamineRecord(f, key, End(init), r);
      HitsSnoc(f, key, h, Hps(init), x);
      AllAnswerSnoc(f, Hits(f, key, h, Select(Hps(init), h)), Wanted(init, key), Examine(f, key, h, x.h, x.p), r);
    }
  }

  lemma NoHits(f: seq<byte>, key: seq<byte>, h: uint32)
    ensures AllAnswer(f, Hits(f, key, h, Select([], h)), [])
  {
  }

  lemma SelectSnoc(xs: seq<Hp>, x: Hp, h: uint32)
    ensures Select(xs + [x], h) == Select(xs, h) + if x.h == h then [x] else []
  {
    assert (xs + [x])[..|xs|] == xs;
  }

  // ---------- whole searches ----------

  /** Calling `Next` again and again gives these answers and then says that there are no more. */
  ghost predicate Yields(f: seq<byte>, key: seq<byte>, c: Cursor, answers: seq<Outcome>)
    decreases |answers|
  {
    var (o, c') := Next(f, key, c);
    if answers == [] then o == Missing else o == answers[0] && o.Found? && Yields(f, key, c', answers[1..])
  }

  lemma YieldsCons(f: seq<byte>, key: seq<byte>, c: Cursor, c': Cursor, answers: seq<Outcome>)
    requires answers != [] && answers[0].Found? && Next(f, key, c) == (answers[0], c') && Yields(f, key, c', answers[1..])
    ensures Yields(f, key, c, answers)
  {
  }

  lemma LaterCall(f: seq<byte>, key: seq<byte>, t: seq<Hp>, tpos: uint32, h: uint32, j: nat)
    requires 0 < j < |t| && tpos + 8 * |t| < WORD
    ensures Next(f, key, At(t, tpos, h, j)) == Probe(f, key, At(t, tpos, h, j))
  {
  }

  lemma {:induction false} YieldsFrom(f: seq<byte>, key: seq<byte>, h: uint32, tpos: uint32, t: seq<Hp>, j: nat, c: Cursor)
    requires TableIn(f, tpos, t) && j <= Passed(t, Start(h, |t|), 0) < |t|
    requires Next(f, key, c) == Probe(f, key, At(t, tpos, h, j))
    requires forall o :: o in Hits(f, key, h, Probed(t, Start(h, |t|), j, h)) ==> o.Found?
    ensures Yields(f, key, c, Hits(f, key, h, Probed(t, Start(h, |t|), j, h)))
    decreases |t| - j
  {
    hide Hits, Probe, Probed, Passed;
    var hits := Hits(f, key, h, Probed(t, Start(h, |t|), j, h));
    var k := ProbeStep(f, key, h, tpos, t, j);
    if hits != [] {
      hide Next, Yields;
      assert hits[0] in hits && forall o :: o in hits[1..] ==> o in hits;
      LaterCall(f, key, t, tpos, h, k);
      YieldsFrom(f, key, h, tpos, t, k, At(t, tpos, h, k));
      YieldsCons(f, key, c, At(t, tpos, h, k), hits);
    }
  }

  /** After `FindStart`, repeated `FindNext` for a key gives the data of exactly the records that were
      written with that key, in the order in which they were written, and then reports the end. */
  lemma FindsExactly(f: seq<byte>, recs: seq<Record>, key: seq<byte>, c: Cursor) returns (answers: seq<Outcome>)
    requires IsCdb(f, recs) && c.loop == 0
    ensures Yields(f, key, c, answers)
    ensures |answers| == |Wanted(recs, key)|
    ensures forall i :: 0 <= i < |answers| ==> Answers(f, answers[i], Wanted(recs, key)[i])
  {
    hide DjbHash.Of, Answers, Hits, RecordsAt, SlotsAt, Next, Build, Probe, Select, Yields, Wanted, Hps;
    var h := DjbHash.Of(key);
    var xs := Bucket(Hps(recs), h % 256);
    assert TableAt(f, h % 256, TableOf(recs, h % 256));
    HitsAreWanted(f, recs, key);
    SelectBucket(Hps(recs), h);
    answers := Hits(f, key, h, Select(xs, h));
    if xs == [] {
      NoneWanted(f, key, h, c);
    } else {
      ProbeFindsAll(xs, 2 * |xs|, h);
      var t, tpos := Build(xs, 2 * |xs|), Get4(f, 8 * (h % 256));
      InFile(f, tpos, t);
      StartAt(f, key, c, t, tpos);
      AllFound(f, answers, Wanted(recs, key));
      YieldsFrom(f, key, h, tpos, t, 0, c);
    }
  }

  lemma NoneWanted(f: seq<byte>, key: seq<byte>, h: uint32, c: Cursor)
    requires HEADER <= |f| && c.loop == 0 && h == DjbHash.Of(key) && Get4(f, 8 * (h % 256) + 4) == 0
    ensures Hits(f, key, h, Select([], h)) == [] && Yields(f, key, c, [])
  {
    hide DjbHash.Of, Get4;
  }

  lemma InFile(f: seq<byte>, tpos: uint32, t: seq<Hp>)
    requires SlotsAt(f, tpos, t) && |f| < WORD && |t| > 0
    ensures TableIn(f, tpos, t)
  {
  }

  lemma AllFound(f: seq<byte>, answers: seq<Outcome>, recs: seq<Record>)
    requires AllAnswer(f, answers, recs)
    ensures forall o :: o in answers ==> o.Found?
  {
  }

  lemma StartAt(f: seq<byte>, key: seq<byte>, c: Cursor, t: seq<Hp>, tpos: uint32)
    requires HEADER <= |f| < WORD && TableIn(f, tpos, t) && c.loop == 0
    requires Get4(f, 8 * (DjbHash.Of(key) % 256)) == tpos && Get4(f, 8 * (DjbHash.Of(key) % 256) + 4) == |t|
    ensures Next(f, key, c) == Probe(f, key, At(t, tpos, DjbHash.Of(key), 0))
  {
    hide DjbHash.Of, SlotsAt, Get4, Probe;
    var h := DjbHash.Of(key);
    NoWrap((h / 256 % |t|) * 8);
    NoWrap(tpos + (h / 256 % |t|) * 8);
    assert Slot(Start(h, |t|), 0, |t|) == h / 256 % |t|;
  }
}
