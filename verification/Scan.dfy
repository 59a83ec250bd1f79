/** What the resolver learns from a response packet before it goes through its records set by set. */
module Scan {
  import opened Bytes
  import opened Domain
  import opened Packet
  import opened Records

  const A: seq<byte> := [0, 1]
  const NS: seq<byte> := [0, 2]
  const CNAME: seq<byte> := [0, 5]
  const SOA: seq<byte> := [0, 6]
  const PTR: seq<byte> := [0, 12]
  const MX: seq<byte> := [0, 15]
  const AXFR: seq<byte> := [0, 252]
  const ANY: seq<byte> := [0, 255]

  predicate TypeMatch(rtype: seq<byte>, qtype: seq<byte>) {
    qtype == rtype || qtype == ANY
  }

  const MAX_TTL := 604800

  /** Times to live above 31 years are taken for negative numbers. */
  function TtlGet(b: seq<byte>): (ttl: nat)
    requires |b| == 4
    ensures ttl <= MAX_TTL
  {
    var ttl := Get4Big(b, 0);
    if ttl > 1000000000 then 0 else if ttl > MAX_TTL then MAX_TTL else ttl
  }

  // ---------- questions about one record ----------

  predicate About(r: Record, d: seq<byte>) {
    |r.header| == 10 && Same(r.name, d) && r.header[2..4] == CLASS_IN
  }

  /** The record answers the question. */
  function Answering(d: seq<byte>, dtype: seq<byte>): (f: Record -> bool) {
    (r: Record) => About(r, d) && TypeMatch(r.header[..2], dtype)
  }

  /** The record says that the name is an alias, which is not what was asked. */
  function Aliasing(d: seq<byte>, dtype: seq<byte>): (f: Record -> bool) {
    (r: Record) => About(r, d) && !TypeMatch(r.header[..2], dtype) && TypeMatch(r.header[..2], CNAME)
  }

  function OfType(rtype: seq<byte>): (f: Record -> bool) {
    (r: Record) => |r.header| == 10 && TypeMatch(r.header[..2], rtype)
  }

  predicate Holds(buf: seq<byte>, p: nat, test: Record -> bool) {
    match RecordAt(buf, p)
    case None => false
    case Some(r) => test(r)
  }

  /** The last of the records at `ps` that passes the test. */
  function LastOf(buf: seq<byte>, ps: seq<nat>, test: Record -> bool): (p: Option<nat>) {
    if ps == [] then None
    else if Holds(buf, ps[|ps| - 1], test) then Some(ps[|ps| - 1])
    else LastOf(buf, ps[..|ps| - 1], test)
  }

  lemma LastOfNext(buf: seq<byte>, ps: seq<nat>, p: nat, test: Record -> bool)
    ensures LastOf(buf, ps + [p], test) == if Holds(buf, p, test) then Some(p) else LastOf(buf, ps, test)
  {
    hide Holds;
    assert (ps + [p])[..|ps|] == ps;
  }

  /** It is there if and only if some record passes, and no record behind it does. */
  lemma {:induction false} LastOfIs(buf: seq<byte>, ps: seq<nat>, test: Record -> bool) returns (i: nat)
    ensures LastOf(buf, ps, test).Some? <==> exists p :: p in ps && Holds(buf, p, test)
    ensures LastOf(buf, ps, test).Some? ==>
              && i < |ps| && ps[i] == LastOf(buf, ps, test).value && Holds(buf, ps[i], test)
              && forall j :: i < j < |ps| ==> !Holds(buf, ps[j], test)
  {
    hide Holds;
    i := 0;
    if ps != [] {
      var n := |ps| - 1;
      assert ps[n] in ps && ps == ps[..n] + [ps[n]];
      i := LastOfIs(buf, ps[..n], test);
      if Holds(buf, ps[n], test) { i := n; }
    }
  }

  /** The name in the data of the record, with the record's time to live. */
  datatype Target = Target(name: seq<byte>, ttl: nat)

  function TargetAt(buf: seq<byte>, p: nat): (t: Option<Target>) {
    match RecordAt(buf, p)
    case None => None
    case Some(r) =>
      match Limited(Decode(buf, r.after + 10, MAX_STEPS))
      case None => None
      case Some(d) => Some(Target(d.name, TtlGet(r.header[4..8])))
  }

  lemma TargetSound(buf: seq<byte>, p: nat)
    ensures TargetAt(buf, p).Some? ==> WellFormed(TargetAt(buf, p).value.name) && |TargetAt(buf, p).value.name| <= MAX_NAME
  {
    match RecordAt(buf, p)
    case None =>
    case Some(r) => GetNameSound(buf, r.after + 10);
  }

  // ---------- the answers ----------

  /** Whether there is an answer; the alias, if there is one; the position behind the answers. */
  datatype AnswerScan = AnswerScan(out: bool, alias: Option<Target>, end: nat)

  /** The alias that the records at `ps` give for the name: that of the last one that gives any. */
  function AliasIn(buf: seq<byte>, ps: seq<nat>, d: seq<byte>, dtype: seq<byte>): (t: Option<Target>)
    ensures t.Some? ==> WellFormed(t.value.name) && |t.value.name| <= MAX_NAME
  {
    match LastOf(buf, ps, Aliasing(d, dtype))
    case None => None
    case Some(p) => TargetSound(buf, p); TargetAt(buf, p)
  }

  /** Every alias leads to a name that can be read. */
  ghost predicate AliasesReadable(buf: seq<byte>, ps: seq<nat>, d: seq<byte>, dtype: seq<byte>) {
    forall p :: p in ps && Holds(buf, p, Aliasing(d, dtype)) ==> TargetAt(buf, p).Some?
  }

  ghost predicate Scanned(buf: seq<byte>, ps: seq<nat>, d: seq<byte>, dtype: seq<byte>, out: bool, alias: Option<Target>) {
    && out == LastOf(buf, ps, Answering(d, dtype)).Some?
    && alias == AliasIn(buf, ps, d, dtype)
    && AliasesReadable(buf, ps, d, dtype)
  }

  lemma ScannedMore(buf: seq<byte>, ps: seq<nat>, p: nat, d: seq<byte>, dtype: seq<byte>, out: bool, alias: Option<Target>)
    requires Scanned(buf, ps, d, dtype, out, alias)
    requires Holds(buf, p, Aliasing(d, dtype)) ==> TargetAt(buf, p).Some?
    ensures Scanned(buf, ps + [p], d, dtype, out || Holds(buf, p, Answering(d, dtype)),
                    if Holds(buf, p, Aliasing(d, dtype)) then TargetAt(buf, p) else alias)
  {
    hide Holds, TargetAt, Answering, Aliasing, LastOf;
    LastOfNext(buf, ps, p, Answering(d, dtype));
    LastOfNext(buf, ps, p, Aliasing(d, dtype));
  }

  lemma ScannedNone(buf: seq<byte>, d: seq<byte>, dtype: seq<byte>)
    ensures Scanned(buf, [], d, dtype, false, None)
  {
  }

  /** An alias is there exactly when some record gives one. */
  lemma AliasThere(buf: seq<byte>, ps: seq<nat>, d: seq<byte>, dtype: seq<byte>)
    requires AliasesReadable(buf, ps, d, dtype)
    ensures AliasIn(buf, ps, d, dtype).Some? <==> exists p :: p in ps && Holds(buf, p, Aliasing(d, dtype))
  {
    hide Holds, TargetAt, Aliasing, LastOf;
    var _ := LastOfIs(buf, ps, Aliasing(d, dtype));
  }

  /** Judges one answer record. */
  method Judge(buf: seq<byte>, ghost p: nat, r: Record, d: seq<byte>, dtype: seq<byte>) returns (answers: bool, aliases: bool)
    requires RecordAt(buf, p) == Some(r) && WellFormed(d)
    ensures answers == Holds(buf, p, Answering(d, dtype)) && aliases == Holds(buf, p, Aliasing(d, dtype))
  {
    GetNameSound(buf, p);
    var same := Equal(r.name, d);
    if !same || r.header[2..4] != CLASS_IN { return false, false; }
    if TypeMatch(r.header[..2], dtype) { return true, false; }
    return false, TypeMatch(r.header[..2], CNAME);
  }

  /** Takes one answer record into account; not possible when it is an alias to an unreadable name. */
  method JudgeAnswer(buf: seq<byte>, ghost ps: seq<nat>, ghost p: nat, r: Record, d: seq<byte>, dtype: seq<byte>,
                     out0: bool, alias0: Option<Target>) returns (readable: bool, out: bool, alias: Option<Target>)
    requires RecordAt(buf, p) == Some(r) && WellFormed(d) && Scanned(buf, ps, d, dtype, out0, alias0)
    ensures readable ==> Scanned(buf, ps + [p], d, dtype, out, alias)
    ensures !readable ==> Holds(buf, p, Aliasing(d, dtype)) && TargetAt(buf, p) == None
  {
    hide Scanned, WellFormed, RecordAt, Holds, TargetAt, Answering, Aliasing;
    var answers, aliases := Judge(buf, p, r, d, dtype);
    readable, out, alias := true, out0 || answers, alias0;
    if aliases {
      alias := ReadTarget(buf, p, r);
      if alias == None { return false, out, alias; }
    }
    ScannedMore(buf, ps, p, d, dtype, out0, alias0);
  }

  method NextAnswer(buf: seq<byte>, ghost pos: nat, ghost n: nat, at: nat, ghost j: nat, ghost done: seq<nat>,
                    d: seq<byte>, dtype: seq<byte>, out0: bool, alias0: Option<Target>)
      returns (ok: bool, next: nat, out: bool, alias: Option<Target>)
    requires WellFormed(d) && Collected(buf, pos, n, at, j, done) && j < n && Scanned(buf, done, d, dtype, out0, alias0)
    ensures ok ==> Collected(buf, pos, n, next, j + 1, done + [at]) && Scanned(buf, done + [at], d, dtype, out, alias)
    ensures !ok ==> !AnswersReadable(buf, pos, n, d, dtype)
  {
    hide *;
    CollectStep(buf, pos, n, at, j, done);
    var r := ReadRecord(buf, at);
    if r == None {
      PositionsUnreadable(buf, pos, n, d, dtype);
      return false, at, out0, alias0;
    }
    ok, out, alias := JudgeAnswer(buf, done, at, r.value, d, dtype, out0, alias0);
    next := r.value.after + 10 + r.value.DataLength();
    if !ok { AliasUnreadable(buf, pos, n, next, j + 1, done, at, d, dtype); }
  }

  /** All records of the section can be read, and the names that aliases lead to. */
  ghost predicate AnswersReadable(buf: seq<byte>, pos: nat, n: nat, d: seq<byte>, dtype: seq<byte>) {
    Positions(buf, pos, n).Some? && AliasesReadable(buf, Positions(buf, pos, n).value, d, dtype)
  }

  lemma PositionsUnreadable(buf: seq<byte>, pos: nat, n: nat, d: seq<byte>, dtype: seq<byte>)
    requires Positions(buf, pos, n) == None
    ensures !AnswersReadable(buf, pos, n, d, dtype)
  {
  }

  lemma AliasUnreadable(buf: seq<byte>, pos: nat, n: nat, at: nat, j: nat, done: seq<nat>, p: nat, d: seq<byte>, dtype: seq<byte>)
    requires Collected(buf, pos, n, at, j, done + [p]) && Holds(buf, p, Aliasing(d, dtype)) && TargetAt(buf, p) == None
    ensures !AnswersReadable(buf, pos, n, d, dtype)
  {
    hide Collected, Holds, TargetAt, Aliasing, Positions;
    assert p in done + [p];
    CollectedHas(buf, pos, n, at, j, done + [p], p);
  }

  method Answers(buf: seq<byte>, pos: nat, n: nat, d: seq<byte>, dtype: seq<byte>) returns (s: Option<AnswerScan>)
    requires WellFormed(d)
    ensures s.Some? <==> AnswersReadable(buf, pos, n, d, dtype)
    ensures s.Some? ==> EndOf(buf, pos, n) == Some(s.value.end) && Positions(buf, pos, n).Some?
    ensures s.Some? ==> Scanned(buf, Positions(buf, pos, n).value, d, dtype, s.value.out, s.value.alias)
  {
    var at: nat := pos;
    var j: nat := 0;
    var out, alias := false, None;
    ghost var done: seq<nat> := [];
    CollectStart(buf, pos, n);
    ScannedNone(buf, d, dtype);
    hide *;
    while j < n
      invariant j <= n && Collected(buf, pos, n, at, j, done) && Scanned(buf, done, d, dtype, out, alias)
    {
      ghost var more := done + [at];
      var ok;
      ok, at, out, alias := NextAnswer(buf, pos, n, at, j, done, d, dtype, out, alias);
      if !ok { return None; }
      done := more;
      j := j + 1;
    }
    CollectEnd(buf, pos, n, at, done);
    ScannedReadable(buf, pos, n, d, dtype, out, alias);
    return Some(AnswerScan(out, alias, at));
  }

  lemma ScannedReadable(buf: seq<byte>, pos: nat, n: nat, d: seq<byte>, dtype: seq<byte>, out: bool, alias: Option<Target>)
    requires Positions(buf, pos, n).Some? && Scanned(buf, Positions(buf, pos, n).value, d, dtype, out, alias)
    ensures AnswersReadable(buf, pos, n, d, dtype)
  {
  }

  method ReadTarget(buf: seq<byte>, ghost p: nat, r: Record) returns (t: Option<Target>)
    requires RecordAt(buf, p) == Some(r)
    ensures t == TargetAt(buf, p)
  {
    var d := GetName(buf, r.after + 10);
    if d == None { return None; }
    return Some(Target(d.value.name, TtlGet(r.header[4..8])));
  }

  // ---------- the authority section ----------

  const MAX_SOA_TTL := 3600

  /** Whether there is an SOA, with the time to live of the last one; the owner of the last NS; the position behind. */
  datatype AuthorityScan = AuthorityScan(soa: bool, soattl: nat, referral: Option<seq<byte>>, end: nat)

  function SoaTtlAt(buf: seq<byte>, p: nat): (ttl: nat) {
    match RecordAt(buf, p)
    case None => 0
    case Some(r) => if TtlGet(r.header[4..8]) > MAX_SOA_TTL then MAX_SOA_TTL else TtlGet(r.header[4..8])
  }

  /** For how long the SOA among the records at `ps` lets the lack of records be kept. */
  function SoaTtlIn(buf: seq<byte>, ps: seq<nat>): (ttl: nat) {
    match LastOf(buf, ps, OfType(SOA))
    case None => 0
    case Some(p) => SoaTtlAt(buf, p)
  }

  function OwnerAt(buf: seq<byte>, p: nat): (d: Option<seq<byte>>)
    ensures d.Some? ==> WellFormed(d.value)
  {
    match RecordAt(buf, p)
    case None => None
    case Some(r) => GetNameSound(buf, p); Some(r.name)
  }

  /** The zone that the records at `ps` refer to: the owner of the last NS. */
  function ReferralIn(buf: seq<byte>, ps: seq<nat>): (d: Option<seq<byte>>)
    ensures d.Some? ==> WellFormed(d.value)
  {
    match LastOf(buf, ps, OfType(NS))
    case None => None
    case Some(p) => OwnerAt(buf, p)
  }

  ghost predicate AuthorityScanned(buf: seq<byte>, ps: seq<nat>, soa: bool, soattl: nat, referral: Option<seq<byte>>) {
    && soa == LastOf(buf, ps, OfType(SOA)).Some?
    && soattl == SoaTtlIn(buf, ps)
    && referral == ReferralIn(buf, ps)
  }

  lemma AuthorityMore(buf: seq<byte>, ps: seq<nat>, p: nat, soa: bool, soattl: nat, referral: Option<seq<byte>>)
    requires AuthorityScanned(buf, ps, soa, soattl, referral)
    ensures AuthorityScanned(buf, ps + [p], soa || Holds(buf, p, OfType(SOA)),
                             if Holds(buf, p, OfType(SOA)) then SoaTtlAt(buf, p) else soattl,
                             if Holds(buf, p, OfType(NS)) then OwnerAt(buf, p) else referral)
  {
    hide Holds, LastOf, SoaTtlAt, OwnerAt, OfType;
    LastOfNext(buf, ps, p, OfType(SOA));
    LastOfNext(buf, ps, p, OfType(NS));
  }

  lemma AuthorityNone(buf: seq<byte>)
    ensures AuthorityScanned(buf, [], false, 0, None)
  {
  }

  lemma OneType(buf: seq<byte>, p: nat, r: Record)
    requires RecordAt(buf, p) == Some(r)
    ensures Holds(buf, p, OfType(SOA)) <==> TypeMatch(r.header[..2], SOA)
    ensures Holds(buf, p, OfType(NS)) <==> TypeMatch(r.header[..2], NS)
    ensures !(Holds(buf, p, OfType(SOA)) && Holds(buf, p, OfType(NS)))
    ensures OwnerAt(buf, p) == Some(r.name)
    ensures SoaTtlAt(buf, p) == if TtlGet(r.header[4..8]) > MAX_SOA_TTL then MAX_SOA_TTL else TtlGet(r.header[4..8])
  {
  }

  /** Takes one authority record into account. */
  method JudgeAuthority(buf: seq<byte>, ghost ps: seq<nat>, ghost p: nat, r: Record, soa0: bool, soattl0: nat, referral0: Option<seq<byte>>)
      returns (soa: bool, soattl: nat, referral: Option<seq<byte>>)
    requires AuthorityScanned(buf, ps, soa0, soattl0, referral0) && RecordAt(buf, p) == Some(r)
    ensures AuthorityScanned(buf, ps + [p], soa, soattl, referral)
  {
    OneType(buf, p, r);
    AuthorityMore(buf, ps, p, soa0, soattl0, referral0);
    hide AuthorityScanned, RecordAt, Holds, SoaTtlAt, OwnerAt, TtlGet;
    soa, soattl, referral := soa0, soattl0, referral0;
    if TypeMatch(r.header[..2], SOA) {
      soa, soattl := true, TtlGet(r.header[4..8]);
      if soattl > MAX_SOA_TTL { soattl := MAX_SOA_TTL; }
    } else if TypeMatch(r.header[..2], NS) {
      referral := Some(r.name);
    }
  }

  method NextAuthority(buf: seq<byte>, ghost pos: nat, ghost n: nat, at: nat, ghost j: nat, ghost done: seq<nat>,
                       soa0: bool, soattl0: nat, referral0: Option<seq<byte>>)
      returns (ok: bool, next: nat, soa: bool, soattl: nat, referral: Option<seq<byte>>)
    requires Collected(buf, pos, n, at, j, done) && j < n && AuthorityScanned(buf, done, soa0, soattl0, referral0)
    ensures ok ==> Collected(buf, pos, n, next, j + 1, done + [at]) && AuthorityScanned(buf, done + [at], soa, soattl, referral)
    ensures !ok ==> Positions(buf, pos, n) == None
  {
    hide *;
    CollectStep(buf, pos, n, at, j, done);
    var r := ReadRecord(buf, at);
    if r == None { return false, at, soa0, soattl0, referral0; }
    soa, soattl, referral := JudgeAuthority(buf, done, at, r.value, soa0, soattl0, referral0);
    return true, r.value.after + 10 + r.value.DataLength(), soa, soattl, referral;
  }

  method Authority(buf: seq<byte>, pos: nat, n: nat) returns (s: Option<AuthorityScan>)
    ensures s.Some? <==> Positions(buf, pos, n).Some?
    ensures s.Some? ==> EndOf(buf, pos, n) == Some(s.value.end)
    ensures s.Some? ==> AuthorityScanned(buf, Positions(buf, pos, n).value, s.value.soa, s.value.soattl, s.value.referral)
  {
    var at: nat := pos;
    var j: nat := 0;
    var soa, referral := false, None;
    var soattl: nat := 0;
    ghost var done: seq<nat> := [];
    CollectStart(buf, pos, n);
    AuthorityNone(buf);
    hide *;
    while j < n
      invariant j <= n && Collected(buf, pos, n, at, j, done) && AuthorityScanned(buf, done, soa, soattl, referral)
    {
      ghost var more := done + [at];
      var ok;
      ok, at, soa, soattl, referral := NextAuthority(buf, pos, n, at, j, done, soa, soattl, referral);
      if !ok { return None; }
      done := more;
      j := j + 1;
    }
    CollectEnd(buf, pos, n, at, done);
    return Some(AuthorityScan(soa, soattl, referral, at));
  }

  lemma OwnerSound(buf: seq<byte>, p: nat)
    ensures RecordAt(buf, p).Some? ==> WellFormed(RecordAt(buf, p).value.name)
  {
    GetNameSound(buf, p);
  }
}
