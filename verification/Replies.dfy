/** What the resolver takes out of packets and out of the data in its cache: records for the response, servers to
    ask. */
module Replies {
  import opened Bytes
  import opened Domain
  import opened Packet
  import opened Records
  import opened Scan
  import opened ResolverState
  import opened SetData
  import opened CacheSets

  function NoNames(): (list: seq<Dn>)
    ensures ServerNames(list)
  {
    seq(SERVERS, _ => [])
  }

  function NoServers(): (list: seq<Ip>)
    ensures |list| == SERVERS
  {
    seq(SERVERS, _ => NO_IP)
  }

  // ---------- server lists ----------

  function First<T(==)>(s: seq<T>, x: T): (i: nat)
    requires x in s
    ensures i < |s| && s[i] == x && forall j :: 0 <= j < i ==> s[j] != x
  {
    if s[0] == x then 0 else 1 + First(s[1..], x)
  }

  /** A server list with one more address, in its first free slot. */
  function PutIn(list: seq<Ip>, ip: Ip): (r: seq<Ip>)
    ensures |r| == |list|
  {
    if NO_IP in list then list[First(list, NO_IP) := ip] else list
  }

  function PutAll(list: seq<Ip>, ips: seq<Ip>): (r: seq<Ip>)
    ensures |r| == |list|
  {
    if ips == [] then list else PutIn(PutAll(list, ips[..|ips| - 1]), ips[|ips| - 1])
  }

  lemma PutOneMore(list: seq<Ip>, ips: seq<Ip>, ip: Ip)
    ensures PutAll(list, ips + [ip]) == PutIn(PutAll(list, ips), ip)
  {
    hide PutIn;
    assert (ips + [ip])[..|ips|] == ips;
  }

  /** The addresses in the data of a set of address records. */
  function IpsIn(data: seq<byte>): (ips: seq<Ip>)
    ensures |ips| == |data| / 4
  {
    seq(|data| / 4, i requires 0 <= i < |data| / 4 => data[4 * i..4 * i + 4])
  }

  /** Puts an address in the first free slot of a server list, if there is one. */
  method PutServer(list: seq<Ip>, ip: Ip) returns (r: seq<Ip>)
    ensures r == PutIn(list, ip)
  {
    var k: nat := 0;
    while k < |list|
      invariant k <= |list| && forall j :: 0 <= j < k ==> list[j] != NO_IP
    {
      if list[k] == NO_IP { return list[k := ip]; }
      k := k + 1;
    }
    return list;
  }

  /** The address that the record at `p` gives for the name, if it gives one. */
  function AddressAt(buf: seq<byte>, p: nat, d: Dn): (ip: Option<Ip>) {
    match RecordAt(buf, p)
    case None => None
    case Some(r) =>
      if Answering(d, A)(r) && r.DataLength() == 4 && r.after + 14 <= |buf| then Some(buf[r.after + 10..r.after + 14])
      else None
  }

  /** The addresses that the records at `ps` give for the name, in order. */
  function AddressesIn(buf: seq<byte>, ps: seq<nat>, d: Dn): (ips: seq<Ip>) {
    if ps == [] then []
    else
      AddressesIn(buf, ps[..|ps| - 1], d)
      + match AddressAt(buf, ps[|ps| - 1], d) case None => [] case Some(ip) => [ip]
  }

  lemma AddressesNext(buf: seq<byte>, ps: seq<nat>, p: nat, d: Dn, list: seq<Ip>)
    ensures AddressesIn(buf, [], d) == [] && PutAll(list, []) == list
    ensures PutAll(list, AddressesIn(buf, ps + [p], d)) ==
            match AddressAt(buf, p, d)
            case None => PutAll(list, AddressesIn(buf, ps, d))
            case Some(ip) => PutIn(PutAll(list, AddressesIn(buf, ps, d)), ip)
  {
    hide AddressAt, PutIn;
    assert (ps + [p])[..|ps|] == ps;
    match AddressAt(buf, p, d)
    case None => Nothing(AddressesIn(buf, ps, d));
    case Some(ip) => PutOneMore(list, AddressesIn(buf, ps, d), ip);
  }

  /** The record would give an address, but the packet ends in it. */
  ghost predicate AddressCut(buf: seq<byte>, p: nat, d: Dn) {
    match RecordAt(buf, p)
    case None => false
    case Some(r) => Answering(d, A)(r) && r.DataLength() == 4 && r.after + 14 > |buf|
  }

  /** All records of the section can be read, and the addresses in them. */
  ghost predicate AddressesReadable(buf: seq<byte>, pos: nat, n: nat, d: Dn) {
    Positions(buf, pos, n).Some? && forall p :: p in Positions(buf, pos, n).value ==> !AddressCut(buf, p, d)
  }

  lemma AddressesUnreadable(buf: seq<byte>, pos: nat, n: nat, at: nat, j: nat, done: seq<nat>, p: nat, d: Dn)
    requires Positions(buf, pos, n) == None || (Collected(buf, pos, n, at, j, done + [p]) && AddressCut(buf, p, d))
    ensures !AddressesReadable(buf, pos, n, d)
  {
    hide Collected, AddressCut, Positions;
    assert p in done + [p];
    if Positions(buf, pos, n).Some? { CollectedHas(buf, pos, n, at, j, done + [p], p); }
  }

  /** Puts the address of the next record of the answer section into the list, if it is one for the name. */
  method NextAddress(buf: seq<byte>, ghost pos: nat, ghost n: nat, at: nat, ghost j: nat, ghost done: seq<nat>, d: Dn, list0: seq<Ip>)
      returns (ok: bool, next: nat, list: seq<Ip>)
    requires WellFormed(d) && Collected(buf, pos, n, at, j, done) && j < n
    ensures |list| == |list0|
    ensures ok ==> Collected(buf, pos, n, next, j + 1, done + [at])
    ensures ok ==> list == match AddressAt(buf, at, d) case None => list0 case Some(ip) => PutIn(list0, ip)
    ensures !ok ==> !AddressesReadable(buf, pos, n, d)
  {
    hide Collected, RecordAt, WellFormed, Same, First, Positions, EndOf, AddressesReadable;
    CollectStep(buf, pos, n, at, j, done);
    var r := ReadRecord(buf, at);
    if r == None {
      AddressesUnreadable(buf, pos, n, at, j, done, at, d);
      return false, at, list0;
    }
    var rec := r.value;
    next := rec.after + 10 + rec.DataLength();
    if !(Same(rec.name, d) && TypeMatch(rec.header[..2], A) && rec.header[2..4] == CLASS_IN && rec.DataLength() == 4)
       || NO_IP !in list0 {
      return true, next, list0;
    }
    var ip := Copy(buf, rec.after + 10, 4);
    if ip == None {
      AddressesUnreadable(buf, pos, n, next, j + 1, done, at, d);
      return false, at, list0;
    }
    list := PutServer(list0, ip.value);
    return true, next, list;
  }

  /** Puts all addresses that the answer section has for the name into the list, as far as there is room. */
  method GatherAddresses(buf: seq<byte>, pos: nat, n: nat, d: Dn, list0: seq<Ip>) returns (ok: bool, list: seq<Ip>)
    requires WellFormed(d)
    ensures |list| == |list0|
    ensures ok ==> Positions(buf, pos, n).Some?
    ensures ok ==> list == PutAll(list0, AddressesIn(buf, Positions(buf, pos, n).value, d))
    ensures !ok ==> !AddressesReadable(buf, pos, n, d)
  {
    hide Collected, AddressAt, PutIn, WellFormed, Positions, EndOf, AddressesIn, PutAll, AddressesReadable;
    var at: nat := pos;
    var j: nat := 0;
    ghost var done: seq<nat> := [];
    list := list0;
    CollectStart(buf, pos, n);
    AddressesNext(buf, done, at, d, list0);
    while j < n
      invariant j <= n && Collected(buf, pos, n, at, j, done) && list == PutAll(list0, AddressesIn(buf, done, d))
    {
      ghost var more := done + [at];
      AddressesNext(buf, done, at, d, list0);
      ok, at, list := NextAddress(buf, pos, n, at, j, done, d, list);
      if !ok { return; }
      done := more;
      j := j + 1;
    }
    CollectEnd(buf, pos, n, at, done);
    ok := true;
  }

  // ---------- names of servers ----------

  /** As many of the names as there is room for, and empty slots behind them. */
  function Slots(ds: seq<Dn>): (list: seq<Dn>)
    ensures |list| == SERVERS
  {
    seq(SERVERS, i requires 0 <= i < SERVERS => if i < |ds| then ds[i] else [])
  }

  ghost predicate AllDomains(ds: seq<Dn>) {
    forall i :: 0 <= i < |ds| ==> WellFormed(ds[i])
  }

  lemma SlotsAreNames(ds: seq<Dn>)
    requires AllDomains(ds)
    ensures ServerNames(Slots(ds))
  {
    hide WellFormed;
  }

  lemma NoSlots()
    ensures Slots([]) == NoNames()
  {
  }

  lemma NextSlot(ds: seq<Dn>, d: Dn)
    ensures |ds| < SERVERS ==> Slots(ds)[|ds| := d] == Slots(ds + [d])
    ensures |ds| >= SERVERS ==> Slots(ds) == Slots(ds + [d])
  {
  }

  /** The names in the data, one behind the other, until one cannot be read. */
  function NamesFrom(data: seq<byte>, pos: nat): (ds: seq<Dn>)
    requires pos <= |data|
    decreases |data| - pos
  {
    GetNameSound(data, pos);
    match Limited(Decode(data, pos, MAX_STEPS))
    case None => []
    case Some(d) => [d.name] + NamesFrom(data, d.end)
  }

  lemma {:induction false} NamesFromDomains(data: seq<byte>, pos: nat)
    requires pos <= |data|
    ensures AllDomains(NamesFrom(data, pos))
    decreases |data| - pos
  {
    hide Decode, Limited, WellFormed;
    GetNameSound(data, pos);
    match Limited(Decode(data, pos, MAX_STEPS))
    case None =>
    case Some(d) => NamesFromDomains(data, d.end);
  }

  lemma ReadOneName(data: seq<byte>, pos: nat)
    requires pos <= |data|
    ensures ReadItem(data, pos, 0, 1) == match Limited(Decode(data, pos, MAX_STEPS))
                                         case None => None
                                         case Some(d) => Some((Item([], [d.name]), d.end))
  {
    hide Decode, Limited;
    match Limited(Decode(data, pos, MAX_STEPS))
    case None => assert ReadNames(data, pos, 1) == None;
    case Some(d) =>
      assert ReadNames(data, d.end, 0) == Some(([], d.end)) && [d.name] + [] == [d.name];
      assert ReadNames(data, pos, 1) == Some(([d.name], d.end));
  }

  /** The servers out of the cache are the names of the records of the set that was kept, in order. */
  lemma {:induction false} NamesAreItems(data: seq<byte>, pos: nat)
    requires pos <= |data|
    ensures var ds, items := NamesFrom(data, pos), ReadItems(data, pos, 0, 1);
            |ds| == |items| && forall i :: 0 <= i < |ds| ==> items[i].names == [ds[i]]
    decreases |data| - pos
  {
    hide Decode, Limited, ReadItem;
    GetNameSound(data, pos);
    ReadOneName(data, pos);
    match Limited(Decode(data, pos, MAX_STEPS))
    case None =>
    case Some(d) => NamesAreItems(data, d.end);
  }

  /** The names in front of `pos`. */
  ghost predicate NamesRead(data: seq<byte>, done: seq<Dn>, pos: nat) {
    pos <= |data| && NamesFrom(data, 0) == done + NamesFrom(data, pos)
  }

  lemma NoNamesRead(data: seq<byte>)
    ensures NamesRead(data, [], 0)
  {
    assert [] + NamesFrom(data, 0) == NamesFrom(data, 0);
  }

  lemma ReadNameNext(data: seq<byte>, done: seq<Dn>, pos: nat)
    requires NamesRead(data, done, pos)
    ensures match Limited(Decode(data, pos, MAX_STEPS))
            case None => NamesFrom(data, 0) == done
            case Some(d) => NamesRead(data, done + [d.name], d.end) && pos < d.end <= |data|
  {
    hide Decode, Limited;
    GetNameSound(data, pos);
    match Limited(Decode(data, pos, MAX_STEPS))
    case None => Nothing(done);
    case Some(d) => Regroup2(done, d.name, NamesFrom(data, d.end));
  }

  /** The names in the data of a set of NS records, as many as there is room for. */
  method ServersFrom(data: seq<byte>) returns (list: seq<Dn>)
    ensures list == Slots(NamesFrom(data, 0)) && ServerNames(list)
  {
    hide Decode, Limited, NamesFrom, NamesRead, Slots, ServerNames, AllDomains;
    list := NoNames();
    var pos: nat := 0;
    var j: nat := 0;
    ghost var done: seq<Dn> := [];
    NoSlots();
    NoNamesRead(data);
    while true
      invariant pos <= |data| && NamesRead(data, done, pos) && list == Slots(done) && j == (if |done| < SERVERS then |done| else SERVERS)
      decreases |data| - pos
    {
      ReadNameNext(data, done, pos);
      var d := GetName(data, pos);
      if d == None {
        NamesFromDomains(data, 0);
        SlotsAreNames(done);
        return;
      }
      NextSlot(done, d.value.name);
      if j < SERVERS {
        list := list[j := d.value.name];
        j := j + 1;
      }
      done := done + [d.value.name];
      pos := d.value.end;
    }
  }

  // ---------- answers out of a set in the cache ----------

  function PartsOf(it: Item, rawFirst: bool): (ps: seq<Part>) {
    var ns := seq(|it.names|, i requires 0 <= i < |it.names| => Name(it.names[i]));
    if it.raw == [] then ns else if rawFirst then [Raw(it.raw)] + ns else ns + [Raw(it.raw)]
  }

  function AnswersOf(d: Dn, rtype: seq<byte>, ttl: nat, items: seq<Item>, rawFirst: bool): (es: seq<Event>) {
    seq(|items|, i requires 0 <= i < |items| => Answer(d, rtype, ttl, PartsOf(items[i], rawFirst)))
  }

  /** Data out of the cache, with what is left of its time to live. */
  datatype Cached = Cached(data: seq<byte>, ttl: nat)

  /** The records of a set in the cache have been put behind `front`, all of them and in order. */
  ghost predicate SetFollows(front: seq<Event>, back: seq<Event>, d: Dn, rtype: seq<byte>, c: Cached)
    requires HasOwnForm(rtype)
  {
    back == front + AnswersOf(d, rtype, c.ttl, ReadItems(c.data, 0, RawOf(rtype), NamesOf(rtype)), rtype != SOA)
  }

  lemma OneMoreAnswer(d: Dn, rtype: seq<byte>, ttl: nat, items: seq<Item>, it: Item, rawFirst: bool, front: seq<Event>)
    ensures front + AnswersOf(d, rtype, ttl, items, rawFirst) + [Answer(d, rtype, ttl, PartsOf(it, rawFirst))] ==
            front + AnswersOf(d, rtype, ttl, items + [it], rawFirst)
  {
    hide PartsOf;
  }

  /** The items in front of `pos`. */
  ghost predicate ItemsRead(data: seq<byte>, raw: nat, names: nat, done: seq<Item>, pos: nat) {
    raw + names > 0 && pos <= |data| && ReadItems(data, 0, raw, names) == done + ReadItems(data, pos, raw, names)
  }

  lemma NothingRead(data: seq<byte>, raw: nat, names: nat, es: seq<Event>)
    requires raw + names > 0
    ensures ItemsRead(data, raw, names, [], 0)
    ensures forall d, rtype, ttl, rawFirst :: es + AnswersOf(d, rtype, ttl, [], rawFirst) == es
  {
    assert [] + ReadItems(data, 0, raw, names) == ReadItems(data, 0, raw, names);
  }

  lemma ReadItemsNext(data: seq<byte>, pos: nat, raw: nat, names: nat)
    requires raw + names > 0 && pos <= |data|
    ensures ReadItems(data, pos, raw, names) == match ReadItem(data, pos, raw, names)
                                                case None => []
                                                case Some(it) => [it.0] + ReadItems(data, it.1, raw, names)
  {
    hide ReadItem;
  }

  lemma ReadOne(data: seq<byte>, raw: nat, names: nat, done: seq<Item>, pos: nat)
    requires ItemsRead(data, raw, names, done, pos)
    ensures raw + names > 0 && match ReadItem(data, pos, raw, names)
                               case None => ReadItems(data, 0, raw, names) == done
                               case Some(it) => ItemsRead(data, raw, names, done + [it.0], it.1)
  {
    ReadItemsNext(data, pos, raw, names);
    hide ReadItem;
    match ReadItem(data, pos, raw, names)
    case None => Nothing(done);
    case Some(it) => Regroup2(done, it.0, ReadItems(data, it.1, raw, names));
  }

  lemma Nothing<T>(s: seq<T>)
    ensures s + [] == s
  {
  }

  lemma AddressItem(data: seq<byte>, pos: nat)
    requires pos <= |data|
    ensures ReadItem(data, pos, 4, 0) == if pos + 4 > |data| then None else Some((Item(data[pos..pos + 4], []), pos + 4))
    ensures pos + 4 <= |data| ==> PartsOf(Item(data[pos..pos + 4], []), true) == [Raw(data[pos..pos + 4])]
  {
  }

  function RawAnswers(d: Dn, rtype: seq<byte>, ttl: nat, ds: seq<seq<byte>>): (es: seq<Event>) {
    seq(|ds|, i requires 0 <= i < |ds| => Answer(d, rtype, ttl, [Raw(ds[i])]))
  }

  lemma OneMoreRaw(d: Dn, rtype: seq<byte>, ttl: nat, ds: seq<seq<byte>>, x: seq<byte>, front: seq<Event>)
    ensures front + RawAnswers(d, rtype, ttl, ds) + [Answer(d, rtype, ttl, [Raw(x)])] ==
            front + RawAnswers(d, rtype, ttl, ds + [x])
  {
  }

  /** The records in front of `pos`. */
  ghost predicate RawsRead(data: seq<byte>, done: seq<seq<byte>>, pos: nat) {
    pos <= |data| && ReadRaws(data, 0) == match ReadRaws(data, pos)
                                          case None => None
                                          case Some(rest) => Some(done + rest)
  }

  lemma NoRawsRead(data: seq<byte>, es: seq<Event>)
    ensures RawsRead(data, [], 0)
    ensures forall d, rtype, ttl :: es + RawAnswers(d, rtype, ttl, []) == es
  {
    assert forall rest: seq<seq<byte>> :: [] + rest == rest;
  }

  lemma ReadOneRaw(data: seq<byte>, done: seq<seq<byte>>, pos: nat)
    requires RawsRead(data, done, pos) && pos + 2 <= |data|
    ensures var n := Get2Big(data, pos);
            if n > |data| - pos - 2 then ReadRaws(data, 0) == None
            else RawsRead(data, done + [data[pos + 2..pos + 2 + n]], pos + 2 + n)
  {
    var n := Get2Big(data, pos);
    hide Get2Big;
    if n <= |data| - pos - 2 && ReadRaws(data, pos + 2 + n).Some? {
      Regroup2(done, data[pos + 2..pos + 2 + n], ReadRaws(data, pos + 2 + n).value);
    }
  }

  lemma AllRawsRead(data: seq<byte>, done: seq<seq<byte>>, pos: nat)
    requires RawsRead(data, done, pos) && pos + 2 > |data|
    ensures ReadRaws(data, 0) == Some(done)
  {
    Nothing(done);
  }

  /** Where the sections of a packet are, and how many records each has. */
  datatype Sections =
    Sections(posanswers: nat, numanswers: nat, posauthority: nat, numauthority: nat, numglue: nat)

  /** What a packet says about the question. */
  datatype Reply = Reply(sections: Sections, missing: bool, an: AnswerScan, au: AuthorityScan)

  /** Where the sections are, by the header and the lengths of the records. */
  ghost predicate HasSections(buf: seq<byte>, s: Sections) {
    && |buf| >= 12 && Skip(buf, 12) == Some(s.posanswers - 4)
    && s.numanswers == Get2Big(buf, 6) && s.numauthority == Get2Big(buf, 8) && s.numglue == Get2Big(buf, 10)
    && EndOf(buf, s.posanswers, s.numanswers) == Some(s.posauthority)
  }

  /** The response code says whether the name is missing; the answers and the authority section behind them have
      been judged record by record. */
  ghost predicate IsReply(buf: seq<byte>, d: Dn, dtype: seq<byte>, r: Reply) {
    var s := r.sections;
    && HasSections(buf, s)
    && (buf[3] % 16 == 0 || buf[3] % 16 == 3) && r.missing == (buf[3] % 16 == 3)
    && Positions(buf, s.posanswers, s.numanswers).Some?
    && Scanned(buf, Positions(buf, s.posanswers, s.numanswers).value, d, dtype, r.an.out, r.an.alias)
    && Positions(buf, s.posauthority, s.numauthority).Some?
    && AuthorityScanned(buf, Positions(buf, s.posauthority, s.numauthority).value, r.au.soa, r.au.soattl, r.au.referral)
  }

  /** Where the sections lie in the packet, if its header, its question and its answers can be passed over. */
  function SectionsOf(buf: seq<byte>): (s: Option<Sections>) {
    if |buf| < 12 then None
    else match Skip(buf, 12)
      case None => None
      case Some(p) =>
        match EndOf(buf, p + 4, Get2Big(buf, 6))
        case None => None
        case Some(q) => Some(Sections(p + 4, Get2Big(buf, 6), q, Get2Big(buf, 8), Get2Big(buf, 10)))
  }

  /** What the packet says about the question: None unless the response code is one of two and everything up to the
      end of the authority section can be read. */
  ghost function ReplyIn(buf: seq<byte>, d: Dn, dtype: seq<byte>): (r: Option<Reply>) {
    match SectionsOf(buf)
    case None => None
    case Some(s) =>
      if (buf[3] % 16 != 0 && buf[3] % 16 != 3) || !AnswersReadable(buf, s.posanswers, s.numanswers, d, dtype) then None
      else
        match (Positions(buf, s.posauthority, s.numauthority), EndOf(buf, s.posauthority, s.numauthority))
        case (Some(us), Some(end)) =>
          Some(Reply(s, buf[3] % 16 == 3, ScanOf(buf, Positions(buf, s.posanswers, s.numanswers).value, d, dtype, s.posauthority),
                     AuthorityOf(buf, us, end)))
        case _ => None
  }

  function ScanOf(buf: seq<byte>, ps: seq<nat>, d: Dn, dtype: seq<byte>, end: nat): (an: AnswerScan) {
    AnswerScan(LastOf(buf, ps, Answering(d, dtype)).Some?, AliasIn(buf, ps, d, dtype), end)
  }

  function AuthorityOf(buf: seq<byte>, ps: seq<nat>, end: nat): (au: AuthorityScan) {
    AuthorityScan(LastOf(buf, ps, OfType(SOA)).Some?, SoaTtlIn(buf, ps), ReferralIn(buf, ps), end)
  }

  /** What the reply means. */
  lemma ReplyIs(buf: seq<byte>, d: Dn, dtype: seq<byte>)
    requires ReplyIn(buf, d, dtype).Some?
    ensures IsReply(buf, d, dtype, ReplyIn(buf, d, dtype).value)
  {
    hide Positions, EndOf, Get2Big, Skip, AliasIn, ReferralIn, SoaTtlIn, LastOf, AliasesReadable;
  }

  lemma ReplyUnreadable(buf: seq<byte>, d: Dn, dtype: seq<byte>)
    requires match SectionsOf(buf)
             case None => true
             case Some(s) =>
               || (buf[3] % 16 != 0 && buf[3] % 16 != 3)
               || !AnswersReadable(buf, s.posanswers, s.numanswers, d, dtype)
               || Positions(buf, s.posauthority, s.numauthority) == None
    ensures ReplyIn(buf, d, dtype) == None
  {
    hide Positions, EndOf, Get2Big, Skip, ScanOf, AuthorityOf, AnswersReadable;
  }

  lemma {:induction false} PositionsEnd(buf: seq<byte>, pos: nat, k: nat)
    ensures Positions(buf, pos, k).Some? <==> EndOf(buf, pos, k).Some?
    decreases k
  {
    hide RecordAt;
    if k > 0 && RecordAt(buf, pos).Some? {
      var r := RecordAt(buf, pos).value;
      PositionsEnd(buf, r.after + 10 + r.DataLength(), k - 1);
    }
  }

  method ReadReply(buf: seq<byte>, d: Dn, dtype: seq<byte>) returns (r: Option<Reply>)
    requires WellFormed(d)
    ensures r == ReplyIn(buf, d, dtype)
    ensures r.Some? && r.value.an.alias.Some? ==> WellFormed(r.value.an.alias.value.name)
    ensures r.Some? && r.value.au.referral.Some? ==> WellFormed(r.value.au.referral.value)
  {
    hide Positions, EndOf, WellFormed, Get2Big, Skip, AliasIn, ReferralIn, SoaTtlIn, LastOf, AnswersReadable;
    var header := Copy(buf, 0, 12);
    if header == None { return None; }
    var question := SkipName(buf, 12);
    if question == None { return None; }
    var posanswers := question.value + 4;
    var h := header.value;
    HeaderCounts(buf);
    var numanswers, numauthority, numglue := Get2Big(h, 6), Get2Big(h, 8), Get2Big(h, 10);
    PositionsEnd(buf, posanswers, numanswers);
    var rcode := h[3] % 16;
    if rcode != 0 && rcode != 3 {
      ReplyUnreadable(buf, d, dtype);
      return None;
    }
    var an := Answers(buf, posanswers, numanswers, d, dtype);
    if an == None {
      ReplyUnreadable(buf, d, dtype);
      return None;
    }
    var au := Authority(buf, an.value.end, numauthority);
    if au == None {
      ReplyUnreadable(buf, d, dtype);
      return None;
    }
    var sections := Sections(posanswers, numanswers, an.value.end, numauthority, numglue);
    return Some(Reply(sections, rcode == 3, an.value, au.value));
  }

  lemma HeaderCounts(buf: seq<byte>)
    requires |buf| >= 12
    ensures var h := buf[0..12];
            && h[3] == buf[3] && Get2Big(h, 6) == Get2Big(buf, 6) && Get2Big(h, 8) == Get2Big(buf, 8)
            && Get2Big(h, 10) == Get2Big(buf, 10)
  {
  }

  // ---------- the records that answer ----------

  /** The record is kept in the cache when it can be read: of addresses those of four bytes, of SOAs those of the answer
      section. */
  predicate ToBeKept(buf: seq<byte>, p: nat, rtype: seq<byte>, posauthority: nat) {
    match RecordAt(buf, p)
    case None => false
    case Some(r) => (rtype == A ==> r.DataLength() == 4) && (rtype == SOA ==> p < posauthority)
  }

  /** An answer out of the cache says of a record what an answer out of the packet would say, and a record is broken for
      the cache exactly when it is for the answer, wrong addresses apart. */
  lemma CachedLikeFresh(buf: seq<byte>, p: nat, rtype: seq<byte>, posauthority: nat)
    requires HasOwnForm(rtype) && RecordAt(buf, p).Some? && RecordAt(buf, p).value.header[..2] == rtype
    ensures match Take(buf, p, rtype, posauthority)
            case Broken => AnswerAt(buf, p) == None && (rtype == A ==> ToBeKept(buf, p, rtype, posauthority))
            case Skipped => !ToBeKept(buf, p, rtype, posauthority)
            case Kept(it) =>
              && ToBeKept(buf, p, rtype, posauthority)
              && AnswerAt(buf, p).Some? && AnswerAt(buf, p).value.parts == PartsOf(it, rtype != SOA)
  {
    hide RecordAt, ReadNames, Decode;
    RecordFits(buf, p);
    var r := RecordAt(buf, p).value;
    if rtype == A { AddressItem(buf, r.after + 10); }
  }

  lemma RecordFits(buf: seq<byte>, p: nat)
    requires RecordAt(buf, p).Some?
    ensures RecordAt(buf, p).value.after + 10 <= |buf|
  {
    hide Decode, Limited;
  }

  /** What is kept of a set of the packet, put into the response later, gives the records of the set in order. */
  lemma KeptSetAnswers(buf: seq<byte>, g: seq<nat>, rtype: seq<byte>, posauthority: nat, front: seq<Event>, back: seq<Event>,
                       d: Dn, ttl: nat)
    requires HasOwnForm(rtype) && ItemsOf(buf, g, rtype, posauthority).Some?
    requires SetFollows(front, back, d, rtype, Cached(EncodeAll(ItemsOf(buf, g, rtype, posauthority).value), ttl))
    ensures back == front + AnswersOf(d, rtype, ttl, ItemsOf(buf, g, rtype, posauthority).value, rtype != SOA)
  {
    KeptIsRead(buf, g, rtype, posauthority);
  }

  /** The data of an answer record, its names written out; in a packet the bytes of an SOA stand behind its names. */
  function PartsIn(buf: seq<byte>, pos: nat, rtype: seq<byte>, datalen: nat): (parts: Option<seq<Part>>) {
    if rtype == NS || rtype == CNAME || rtype == PTR || rtype == MX then
      match ReadItem(buf, pos, if rtype == MX then 2 else 0, 1)
      case None => None
      case Some(it) => Some(PartsOf(it.0, true))
    else if rtype == SOA then
      match ReadNames(buf, pos, 2)
      case None => None
      case Some(ds) =>
        if ds.1 + 20 > |buf| then None else Some(PartsOf(Item(buf[ds.1..ds.1 + 20], ds.0), false))
    else if pos + datalen > |buf| then None
    else Some([Raw(buf[pos..pos + datalen])])
  }

  function AnswerAt(buf: seq<byte>, p: nat): (e: Option<Event>) {
    match RecordAt(buf, p)
    case None => None
    case Some(r) =>
      match PartsIn(buf, r.after + 10, r.header[..2], r.DataLength())
      case None => None
      case Some(parts) => Some(Answer(r.name, r.header[..2], TtlGet(r.header[4..8]), parts))
  }

  /** The records among those at `ps` that answer the question, in order, or None when one of them is broken. */
  function AnswersIn(buf: seq<byte>, ps: seq<nat>, d: Dn, dtype: seq<byte>): (es: Option<seq<Event>>) {
    if ps == [] then Some([])
    else match AnswersIn(buf, ps[..|ps| - 1], d, dtype)
      case None => None
      case Some(es) =>
        if !Holds(buf, ps[|ps| - 1], Answering(d, dtype)) then Some(es)
        else match AnswerAt(buf, ps[|ps| - 1]) case None => None case Some(e) => Some(es + [e])
  }

  lemma AnswersInNext(buf: seq<byte>, ps: seq<nat>, p: nat, d: Dn, dtype: seq<byte>)
    requires AnswersIn(buf, ps, d, dtype).Some?
    ensures AnswersIn(buf, ps + [p], d, dtype) ==
            if !Holds(buf, p, Answering(d, dtype)) then AnswersIn(buf, ps, d, dtype)
            else match AnswerAt(buf, p) case None => None case Some(e) => Some(AnswersIn(buf, ps, d, dtype).value + [e])
  {
    hide Holds, AnswerAt;
    assert (ps + [p])[..|ps|] == ps;
  }

  lemma {:induction false} AnswersBroken(buf: seq<byte>, ps: seq<nat>, more: seq<nat>, d: Dn, dtype: seq<byte>)
    requires AnswersIn(buf, ps, d, dtype) == None
    ensures AnswersIn(buf, ps + more, d, dtype) == None
    decreases |more|
  {
    hide Holds, AnswerAt;
    if more == [] {
      assert ps + more == ps;
    } else {
      var n := |more| - 1;
      AnswersBroken(buf, ps, more[..n], d, dtype);
      assert (ps + more)[..|ps| + n] == ps + more[..n];
    }
  }

  /** All records of the section can be read, and the data of those that answer. */
  ghost predicate DataReadable(buf: seq<byte>, pos: nat, n: nat, d: Dn, dtype: seq<byte>) {
    Positions(buf, pos, n).Some? && AnswersIn(buf, Positions(buf, pos, n).value, d, dtype).Some?
  }

  lemma DataUnreadable(buf: seq<byte>, pos: nat, n: nat, d: Dn, dtype: seq<byte>)
    requires Positions(buf, pos, n) == None
    ensures !DataReadable(buf, pos, n, d, dtype)
  {
  }

  lemma AnswerUnreadable(buf: seq<byte>, pos: nat, n: nat, at: nat, j: nat, done: seq<nat>, d: Dn, dtype: seq<byte>)
    requires Collected(buf, pos, n, at, j, done) && AnswersIn(buf, done, d, dtype) == None
    ensures !DataReadable(buf, pos, n, d, dtype)
  {
    hide AnswersIn, EndOf;
    if Positions(buf, pos, n).Some? {
      AnswersBroken(buf, done, Positions(buf, at, n - j).value, d, dtype);
    }
  }

  method RecordParts(buf: seq<byte>, pos: nat, rtype: seq<byte>, datalen: nat) returns (parts: Option<seq<Part>>)
    requires |rtype| == 2
    ensures parts == PartsIn(buf, pos, rtype, datalen)
  {
    hide ReadItem, ReadNames, PartsOf;
    if TypeMatch(rtype, NS) || TypeMatch(rtype, CNAME) || TypeMatch(rtype, PTR) {
      var it := ItemAt(buf, pos, 0, 1);
      parts := if it == None then None else Some(PartsOf(it.value.0, true));
    } else if TypeMatch(rtype, MX) {
      var it := ItemAt(buf, pos, 2, 1);
      parts := if it == None then None else Some(PartsOf(it.value.0, true));
    } else if TypeMatch(rtype, SOA) {
      parts := NamesThenBytes(buf, pos);
    } else if pos + datalen > |buf| {
      parts := None;
    } else {
      parts := Some([Raw(buf[pos..pos + datalen])]);
    }
  }

  /** The records of a section that answer have been put behind `front`. */
  ghost predicate AnswersFollow(front: seq<Event>, back: seq<Event>, buf: seq<byte>, pos: nat, n: nat, d: Dn, dtype: seq<byte>) {
    && Positions(buf, pos, n).Some?
    && var es := AnswersIn(buf, Positions(buf, pos, n).value, d, dtype); es.Some? && back == front + es.value
  }

  method EventOf(buf: seq<byte>, ghost p: nat, r: Record) returns (e: Option<Event>)
    requires RecordAt(buf, p) == Some(r)
    ensures e == AnswerAt(buf, p)
  {
    hide PartsIn;
    var parts := RecordParts(buf, r.after + 10, r.header[..2], r.DataLength());
    e := if parts == None then None else Some(Answer(r.name, r.header[..2], TtlGet(r.header[4..8]), parts.value));
  }

  lemma AnswerIsProper(buf: seq<byte>, p: nat, d: Dn, dtype: seq<byte>)
    requires Holds(buf, p, Answering(d, dtype)) && AnswerAt(buf, p).Some?
    ensures Proper(AnswerAt(buf, p).value, d, dtype)
  {
    hide PartsIn;
  }

  /** The next record of the answer section, as an answer if it is one. */
  method NextEvent(buf: seq<byte>, ghost pos: nat, ghost n: nat, at: nat, ghost j: nat, ghost done: seq<nat>, d: Dn, dtype: seq<byte>)
      returns (ok: bool, next: nat, e: Option<Event>)
    requires WellFormed(d) && Collected(buf, pos, n, at, j, done) && j < n && AnswersIn(buf, done, d, dtype).Some?
    ensures ok ==> Collected(buf, pos, n, next, j + 1, done + [at])
    ensures !ok ==> !DataReadable(buf, pos, n, d, dtype)
    ensures ok ==> if Holds(buf, at, Answering(d, dtype)) then e.Some? && AnswerAt(buf, at) == e else e == None
    ensures ok && e.Some? ==> Proper(e.value, d, dtype)
  {
    hide *;
    CollectStep(buf, pos, n, at, j, done);
    var r := ReadRecord(buf, at);
    if r == None {
      DataUnreadable(buf, pos, n, d, dtype);
      return false, at, None;
    }
    next := r.value.after + 10 + r.value.DataLength();
    var answers, _ := Judge(buf, at, r.value, d, dtype);
    if !answers { return true, next, None; }
    e := EventOf(buf, at, r.value);
    if e == None {
      AnswersInNext(buf, done, at, d, dtype);
      AnswerUnreadable(buf, pos, n, next, j + 1, done + [at], d, dtype);
      return false, at, None;
    }
    AnswerIsProper(buf, at, d, dtype);
    return true, next, e;
  }

  method NamesThenBytes(buf: seq<byte>, pos: nat) returns (parts: Option<seq<Part>>)
    ensures parts == match ReadNames(buf, pos, 2)
                     case None => None
                     case Some(ds) =>
                       if ds.1 + 20 > |buf| then None else Some(PartsOf(Item(buf[ds.1..ds.1 + 20], ds.0), false))
  {
    hide ReadNames, PartsOf;
    var ds := NamesAt(buf, pos, 2);
    if ds == None { return None; }
    var misc := Copy(buf, ds.value.1, 20);
    if misc == None { return None; }
    return Some(PartsOf(Item(misc.value, ds.value.0), false));
  }

  /** The servers that the records at `ps` name for the zone, in order, as many as there is room for; None when the
      name of one that is taken cannot be read. */
  function ReferredIn(buf: seq<byte>, ps: seq<nat>, zone: Dn): (ds: Option<seq<Dn>>)
    ensures ds.Some? ==> |ds.value| <= SERVERS && AllDomains(ds.value)
  {
    if ps == [] then Some([])
    else match ReferredIn(buf, ps[..|ps| - 1], zone)
      case None => None
      case Some(ds) =>
        var p := ps[|ps| - 1];
        if |ds| >= SERVERS || !Holds(buf, p, Answering(zone, NS)) then Some(ds)
        else
          TargetSound(buf, p);
          match TargetAt(buf, p) case None => None case Some(t) => Some(ds + [t.name])
  }

  lemma ReferredNext(buf: seq<byte>, ps: seq<nat>, p: nat, zone: Dn)
    requires ReferredIn(buf, ps, zone).Some?
    ensures var ds := ReferredIn(buf, ps, zone).value;
            ReferredIn(buf, ps + [p], zone) ==
            if |ds| >= SERVERS || !Holds(buf, p, Answering(zone, NS)) then Some(ds)
            else match TargetAt(buf, p) case None => None case Some(t) => Some(ds + [t.name])
  {
    hide Holds, TargetAt, Answering, AllDomains;
    assert (ps + [p])[..|ps|] == ps;
  }

  lemma {:induction false} ReferredBroken(buf: seq<byte>, ps: seq<nat>, more: seq<nat>, zone: Dn)
    requires ReferredIn(buf, ps, zone) == None
    ensures ReferredIn(buf, ps + more, zone) == None
    decreases |more|
  {
    hide Holds, TargetAt, Answering, AllDomains;
    if more == [] {
      assert ps + more == ps;
    } else {
      var n := |more| - 1;
      ReferredBroken(buf, ps, more[..n], zone);
      assert (ps + more)[..|ps| + n] == ps + more[..n];
    }
  }

  /** All records of the section can be read, and the names of the servers that are taken. */
  ghost predicate ReferralReadable(buf: seq<byte>, pos: nat, n: nat, zone: Dn) {
    Positions(buf, pos, n).Some? && ReferredIn(buf, Positions(buf, pos, n).value, zone).Some?
  }

  /** Takes the next record of the authority section into account. */
  method NextReferred(buf: seq<byte>, ghost pos: nat, ghost n: nat, at: nat, ghost j: nat, ghost done: seq<nat>, zone: Dn,
                      ds: seq<Dn>) returns (ok: bool, next: nat, more: seq<Dn>)
    requires WellFormed(zone) && Collected(buf, pos, n, at, j, done) && j < n && ReferredIn(buf, done, zone) == Some(ds)
    ensures ok ==> Collected(buf, pos, n, next, j + 1, done + [at]) && ReferredIn(buf, done + [at], zone) == Some(more)
    ensures !ok ==> !ReferralReadable(buf, pos, n, zone)
  {
    hide *;
    CollectStep(buf, pos, n, at, j, done);
    var r := ReadRecord(buf, at);
    if r == None {
      ReferralUnreadable(buf, pos, n, zone);
      return false, at, ds;
    }
    next := r.value.after + 10 + r.value.DataLength();
    ReferredNext(buf, done, at, zone);
    var answers, _ := Judge(buf, at, r.value, zone, NS);
    if !answers || |ds| >= SERVERS { return true, next, ds; }
    var t := ReadTarget(buf, at, r.value);
    if t == None {
      ServerUnreadable(buf, pos, n, next, j + 1, done + [at], zone);
      return false, at, ds;
    }
    return true, next, ds + [t.value.name];
  }

  lemma ReferralUnreadable(buf: seq<byte>, pos: nat, n: nat, zone: Dn)
    requires Positions(buf, pos, n) == None
    ensures !ReferralReadable(buf, pos, n, zone)
  {
  }

  lemma ServerUnreadable(buf: seq<byte>, pos: nat, n: nat, at: nat, j: nat, done: seq<nat>, zone: Dn)
    requires Collected(buf, pos, n, at, j, done) && ReferredIn(buf, done, zone) == None
    ensures !ReferralReadable(buf, pos, n, zone)
  {
    hide ReferredIn, EndOf;
    if Positions(buf, pos, n).Some? {
      ReferredBroken(buf, done, Positions(buf, at, n - j).value, zone);
    }
  }

  /** The servers that the authority section names for the zone, as many as there is room for. */
  method ReferralServers(buf: seq<byte>, zone: Dn, posauthority: nat, numauthority: nat) returns (list: Option<seq<Dn>>)
    requires WellFormed(zone)
    ensures list.Some? <==> ReferralReadable(buf, posauthority, numauthority, zone)
    ensures list.Some? ==> ServerNames(list.value)
    ensures list.Some? ==> Positions(buf, posauthority, numauthority).Some?
    ensures list.Some? ==> ReferredIn(buf, Positions(buf, posauthority, numauthority).value, zone).Some?
    ensures list.Some? ==> list.value == Slots(ReferredIn(buf, Positions(buf, posauthority, numauthority).value, zone).value)
  {
    var at: nat := posauthority;
    var j: nat := 0;
    var ds: seq<Dn> := [];
    ghost var done: seq<nat> := [];
    CollectStart(buf, posauthority, numauthority);
    hide Collected, Positions, WellFormed, Holds, TargetAt, Answering;
    while j < numauthority
      invariant j <= numauthority && Collected(buf, posauthority, numauthority, at, j, done)
      invariant ReferredIn(buf, done, zone) == Some(ds)
    {
      ghost var more := done + [at];
      var ok;
      ok, at, ds := NextReferred(buf, posauthority, numauthority, at, j, done, zone, ds);
      if !ok { return None; }
      done := more;
      j := j + 1;
    }
    CollectEnd(buf, posauthority, numauthority, at, done);
    SlotsAreNames(ds);
    return Some(Slots(ds));
  }
}
