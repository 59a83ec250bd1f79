/** The sequential pass of the zone-transfer server over all records of a constant database. */
module CdbWalk {
  import opened Bytes
  import opened CdbFormat
  import opened Domain
  import opened Packet

  const KEY_SPACE := 512
  const DATA_SPACE := 32767

  /** What the pass makes of a record: it passes over locations, every other record belongs to a name. */
  datatype Visit = Passed(r: Record) | Named(owner: seq<byte>, r: Record)

  predicate IsLocation(key: seq<byte>) {
    |key| > 1 && key[0] == 0
  }

  /** The name that fills the key, if there is one. */
  function Owner(key: seq<byte>): (d: Option<seq<byte>>) {
    match Limited(Decode(key, 0, MAX_STEPS))
    case None => None
    case Some(d) => if d.end == |key| then Some(d.name) else None
  }

  /** The visit to a record that has been read, or None where the server gives up. */
  function Judge(r: Record): (v: Option<Visit>) {
    if IsLocation(r.key) then Some(Passed(r))
    else if |r.key| < 1 then None
    else match Owner(r.key)
      case None => None
      case Some(d) => Some(Named(d, r))
  }

  /** The visits from `pos` to the end of data, or None where the server gives up. */
  function WalkFrom(f: seq<byte>, pos: nat, eod: nat): (r: Option<seq<Visit>>)
    decreases eod - pos
  {
    if pos >= eod then Some([])
    else if eod - pos < 8 || pos + 8 > |f| then None
    else
      var klen, dlen := Get4(f, pos), Get4(f, pos + 4);
      var next := pos + 8 + klen + dlen;
      if next > eod || klen > KEY_SPACE || dlen > DATA_SPACE || next > |f| then None
      else match Judge(Record(f[pos + 8..pos + 8 + klen], f[pos + 8 + klen..next]))
        case None => None
        case Some(v) => Prepend([v], WalkFrom(f, next, eod))
  }

  /** The pass: header first, then record by record; it stops with None at the first record it cannot take. */
  method Walk(f: seq<byte>) returns (r: Option<seq<Visit>>)
    ensures r == if |f| < HEADER then None else WalkFrom(f, HEADER, Get4(f, 0))
  {
    hide Get4, Judge;
    if |f| < 4 { return None; }
    var eod := Get4(f, 0);
    var pos: nat := 4;
    while pos < HEADER
      invariant pos % 4 == 0 && pos <= HEADER && pos <= |f|
    {
      if pos + 4 > |f| { return None; }
      pos := pos + 4;
    }
    var visits: seq<Visit> := [];
    ghost var all := WalkFrom(f, HEADER, eod);
    PrependNone(all);
    while pos < eod
      invariant all == Prepend(visits, WalkFrom(f, pos, eod))
      decreases eod - pos
    {
      if eod - pos < 8 || pos + 8 > |f| { return None; }
      var klen, dlen := Get4(f, pos), Get4(f, pos + 4);
      pos := pos + 8;
      if eod - pos < klen { return None; }
      pos := pos + klen;
      if eod - pos < dlen { return None; }
      pos := pos + dlen;
      if klen > KEY_SPACE || pos - dlen > |f| { return None; }
      if dlen > DATA_SPACE || pos > |f| { return None; }
      var v := Visiting(Record(f[pos - dlen - klen..pos - dlen], f[pos - dlen..pos]));
      if v == None { return None; }
      PrependOne(visits, v.value, WalkFrom(f, pos, eod));
      visits := visits + [v.value];
    }
    assert visits + [] == visits;
    return Some(visits);
  }

  /** One record: a location, or a key that must be a name from its first byte to its last. */
  method Visiting(r: Record) returns (v: Option<Visit>)
    ensures v == Judge(r)
  {
    hide Decode, Limited;
    if |r.key| > 1 && r.key[0] == 0 { return Some(Passed(r)); }
    if |r.key| < 1 { return None; }
    var d := GetName(r.key, 0);
    if d == None || d.value.end != |r.key| { return None; }
    return Some(Named(d.value.name, r));
  }

  function Prepend(front: seq<Visit>, rest: Option<seq<Visit>>): (r: Option<seq<Visit>>) {
    match rest
    case None => None
    case Some(s) => Some(front + s)
  }

  lemma PrependNone(rest: Option<seq<Visit>>)
    ensures Prepend([], rest) == rest
  {
    assert rest.Some? ==> [] + rest.value == rest.value;
  }

  lemma PrependOne(front: seq<Visit>, next: Visit, rest: Option<seq<Visit>>)
    ensures Prepend(front, Prepend([next], rest)) == Prepend(front + [next], rest)
  {
    match rest
    case None =>
    case Some(s) => assert front + ([next] + s) == front + [next] + s;
  }

  lemma {:induction false} RecordAtIndex(f: seq<byte>, recs: seq<Record>, n: nat)
    requires RecordsAt(f, recs) && n < |recs|
    ensures RecordAt(f, End(recs[..n]), recs[n]) && End(recs[..n + 1]) == End(recs[..n]) + recs[n].Size() <= End(recs)
    decreases |recs|
  {
    assert recs[..n + 1][..n] == recs[..n];
    if n == |recs| - 1 {
      assert recs[..n + 1] == recs;
    } else {
      RecordAtIndex(f, recs[..|recs| - 1], n);
      assert recs[..|recs| - 1][..n] == recs[..n] && recs[..|recs| - 1][..n + 1] == recs[..n + 1];
    }
  }

  /** The record is no larger than the server's buffers, and its key is that of a location or a name. */
  predicate Fits(r: Record) {
    && |r.key| <= KEY_SPACE && |r.data| <= DATA_SPACE
    && (IsLocation(r.key) || Owner(r.key).Some?)
  }

  function SeenAs(r: Record): (v: Visit)
    requires Fits(r)
  {
    if IsLocation(r.key) then Passed(r) else Named(Owner(r.key).value, r)
  }

  predicate AllFit(recs: seq<Record>) {
    forall i :: 0 <= i < |recs| ==> Fits(recs[i])
  }

  function AllSeen(recs: seq<Record>): (vs: seq<Visit>)
    requires AllFit(recs)
  {
    seq(|recs|, i requires 0 <= i < |recs| => SeenAs(recs[i]))
  }

  /** What the pass makes of all records, None when one of them does not fit. */
  function Outcome(recs: seq<Record>): (r: Option<seq<Visit>>) {
    if AllFit(recs) then Some(AllSeen(recs)) else None
  }

  lemma JudgeFits(r: Record)
    requires |r.key| <= KEY_SPACE && |r.data| <= DATA_SPACE
    ensures Judge(r) == if Fits(r) then Some(SeenAs(r)) else None
  {
    if |r.key| < 1 { assert Decode(r.key, 0, MAX_STEPS) == None; }
  }

  lemma WalkStep(f: seq<byte>, p: nat, eod: nat, r: Record)
    requires RecordAt(f, p, r) && p + r.Size() <= eod <= |f|
    ensures WalkFrom(f, p, eod) == if Fits(r) then Prepend([SeenAs(r)], WalkFrom(f, p + r.Size(), eod)) else None
  {
    hide Get4, Judge, Owner, SeenAs;
    assert Get4(f, p) == |r.key| && Get4(f, p + 4) == |r.data|;
    if |r.key| <= KEY_SPACE && |r.data| <= DATA_SPACE { JudgeFits(r); }
  }

  lemma OutcomeCons(r: Record, recs: seq<Record>)
    ensures Outcome([r] + recs) == if Fits(r) then Prepend([SeenAs(r)], Outcome(recs)) else None
  {
    hide Fits, SeenAs;
    var all := [r] + recs;
    if AllFit(all) {
      assert Fits(all[0]);
      assert forall i :: 0 <= i < |recs| ==> recs[i] == all[i + 1];
      assert AllSeen(all) == [SeenAs(r)] + AllSeen(recs);
    } else if Fits(r) {
      var i :| 0 <= i < |all| && !Fits(all[i]);
      assert !Fits(recs[i - 1]);
    }
  }

  lemma {:induction false} WalkRest(f: seq<byte>, recs: seq<Record>, n: nat)
    requires RecordsAt(f, recs) && End(recs) <= |f| && n <= |recs|
    ensures WalkFrom(f, End(recs[..n]), End(recs)) == Outcome(recs[n..])
    decreases |recs| - n
  {
    hide *;
    if n == |recs| {
      assert recs[..n] == recs && recs[n..] == [];
      WalkDone(f, End(recs));
    } else {
      RecordAtIndex(f, recs, n);
      WalkStep(f, End(recs[..n]), End(recs), recs[n]);
      WalkRest(f, recs, n + 1);
      assert recs[n..] == [recs[n]] + recs[n + 1..];
      OutcomeCons(recs[n], recs[n + 1..]);
    }
  }

  lemma WalkDone(f: seq<byte>, p: nat)
    ensures WalkFrom(f, p, p) == Outcome([])
  {
    assert AllSeen([]) == [];
  }

  /** The pass visits the full list of records in the order in which they were added, locations being passed over
      and every other record under the name that its key is. It gives up if and only if some record exceeds the
      server's buffers or has a key that is neither a location nor, from its first byte to its last, a name. */
  lemma WalkYieldsRecords(f: seq<byte>, recs: seq<Record>)
    requires IsCdb(f, recs)
    ensures WalkFrom(f, HEADER, Get4(f, 0)) == if AllFit(recs) then Some(AllSeen(recs)) else None
  {
    WalkRest(f, recs, 0);
    assert recs[..0] == [] && recs[0..] == recs;
  }

  /** Names written out are taken for themselves, the root included. */
  lemma NamesAreTaken(key: seq<byte>)
    requires WellFormed(key) && |key| <= MAX_NAME
    ensures Owner(key) == Some(key) && !IsLocation(key)
  {
    DecodeLiteral(key, 0, key, MAX_STEPS);
    NotEmpty(key);
    hide WellFormed;
    assert key[0..0 + |key|] == key;
  }

  /** The pass gives up on a database whose one key is a letter without a length. */
  lemma LetterGivesUp(f: seq<byte>, data: seq<byte>)
    requires IsCdb(f, [Record([120], data)])
    ensures WalkFrom(f, HEADER, Get4(f, 0)) == None
  {
    var r := Record([120], data);
    WalkYieldsRecords(f, [r]);
    assert Decode([120], 0, MAX_STEPS) == None;
    assert !Fits([r][0]);
  }
}
