/** One query of the iterative resolver. What is seen of the cache and the list of root servers are inputs; whether a
    question can be sent and whether the response has room is arbitrary. */
module Resolver {
  import opened Bytes
  import opened Domain
  import opened Records
  import opened Scan
  import opened ResolverState
  import opened SetData
  import opened CacheSets
  import opened Roots
  import opened Replies
  import opened CacheView
  import opened QuerySteps

  /** `s` with the elements behind `j` moved one place down. */
  function Shifted<T>(s: seq<T>, j: nat): (r: seq<T>)
    requires j < |s|
  {
    s[..j + 1] + s[j..|s| - 1]
  }

  lemma ShiftedNext<T>(s: seq<T>, j: nat)
    requires 0 < j < |s|
    ensures |Shifted(s, j)| == |s| && Shifted(s, j)[j := Shifted(s, j)[j - 1]] == Shifted(s, j - 1)
  {
  }

  lemma ShiftedEnds<T>(s: seq<T>, x: T)
    requires s != []
    ensures Shifted(s, |s| - 1) == s
    ensures |Shifted(s, 0)| == |s| && Shifted(s, 0)[0 := x] == [x] + s[..|s| - 1]
  {
  }

  class Query {
    const forwardOnly: bool
    const roots: seq<Root>
    /** The address that a name consists of, if it is one written as a name. */
    const addressIn: Dn -> Option<Ip>

    /** What is seen of the cache, which other queries change while this one waits. */
    var cache: View
    var loop: nat
    var level: nat
    var name: seq<Dn>
    var control: seq<nat>
    var ns: seq<seq<Dn>>
    var servers: seq<seq<Ip>>
    var alias: seq<Dn>
    var aliasttl: seq<nat>
    var qtype: seq<byte>
    var qclass: seq<byte>
    var response: seq<Event>

    /** The names from the one asked for to the current one, and the times to live of the aliases between them;
        the measure at every visit of a counted label; the questions sent. */
    ghost var visited: seq<Dn>
    /** Room in the response, memory or a transmission could not be had. */
    ghost var short: bool
    ghost var ttls: seq<nat>
    ghost var visits: seq<nat>
    ghost var asked: seq<Ask>
    /** What has been put into the cache. */
    ghost var kept: seq<Stored>

    ghost predicate Core()
      reads this
    {
      && Valid() && Names(name, level) && AllServerNames(ns)
      && Aliases(alias, aliasttl, name[0], visited, ttls)
      && Asks(asked) && |asked| <= |visits| && |asked| <= MAX_ASKED
      && loop < LOOPS && |qtype| == 2 && !short
      && (visits == [] ==> loop == 0 && level == 0)
    }

    /** What holds when the query is about to go to a label. */
    ghost predicate Ready(next: Next)
      reads this
    {
      match next
      case NewName => Core() && Zones(name, control, level) && Progress(visits, Measure(loop, level) - 1)
      case HaveNs => Core() && Zones(name, control, level + 1) && Progress(visits, Measure(loop, level)) && |asked| < |visits|
      case LowerLevel => Between() && level >= 1
      case Cname(target, _) => Between() && WellFormed(target)
      case NxDomain => Between()
      case ServFail => Between()
      case Die => Counted()
      case Done(result) =>
        && Counted()
        && (result == 0 ==> Waiting())
        && (result == 1 ==> Answered(response, visited, ttls, qtype, qclass))
    }

    /** What outlasts a query. */
    ghost predicate Valid()
      reads this
    {
      && level < LEVELS && |control| == LEVELS && AllServers(servers) && |aliasttl| == ALIASES
      && RootsOk(roots) && ViewOk(cache)
    }

    /** The budget has been kept to. */
    ghost predicate Counted()
      reads this
    {
      Valid() && loop <= LOOPS && Progress(visits, Measure(loop, level)) && |asked| <= MAX_ASKED
    }

    /** A counted label has been visited, and the zone of the current level may be out of date. */
    ghost predicate Between()
      reads this
    {
      Core() && Zones(name, control, level) && Progress(visits, Measure(loop, level)) && visits != []
    }

    /** A question is out. */
    ghost predicate Waiting()
      reads this
    {
      Between() && Zones(name, control, level + 1)
    }

    /** Working on a visit during which nothing was sent yet. */
    ghost predicate Working()
      reads this
    {
      Between() && |asked| < |visits|
    }

    ghost function Given(): (e: Settings)
      reads this`qtype, this`qclass
    {
      Settings(forwardOnly, roots, addressIn, qtype, qclass)
    }

    ghost function Now(): (s: Snapshot)
      reads this
    {
      Snapshot(loop, level, name, control, ns, servers, response, cache, kept, visited, ttls, asked, short)
    }

    function DType(): (t: seq<byte>)
      reads this
    {
      if level > 0 then A else qtype
    }

    constructor (forward: bool, list: seq<Root>, addresses: Dn -> Option<Ip>)
      requires RootsOk(list)
      ensures Valid() && forwardOnly == forward && roots == list && addressIn == addresses
    {
      forwardOnly, roots, addressIn, cache := forward, list, addresses, map[];
      level, loop := 0, 0;
      control := seq(LEVELS, _ => 0);
      servers := seq(LEVELS, _ => seq(SERVERS, _ => NO_IP));
      aliasttl := seq(ALIASES, _ => 0);
    }

    // ---------- answers of other parts ----------

    method Maybe() returns (b: bool) {
      b := *;
    }

    /** Room in the response, memory, or a transmission, if there is any. */
    method Granted() returns (ok: bool)
      modifies this`short
      ensures if ok then short == old(short) else short
    {
      ok := Maybe();
      if !ok { short := true; }
    }

    /** What may be seen of the cache after entries were put into it. */
    method Look(puts: seq<Stored>)
      requires ViewOk(cache) && forall s :: s in puts ==> AliasIsName(s.key, s.data)
      modifies this`cache
      ensures ViewOk(cache) && Becomes(old(cache), puts, cache)
    {
      hide ViewOk, AliasIsName, Becomes;
      var w: View := *;
      StaysSeen(cache, puts);
      if !Becomes(cache, puts, w) { w := cache; }
      BecomesOk(cache, puts, w);
      cache := w;
    }

    /** Entries are put into the cache, which may drop others, and time passes. */
    method Remember(puts: seq<Stored>)
      requires ViewOk(cache) && forall s :: s in puts ==> AliasIsName(s.key, s.data)
      modifies this`cache, this`kept
      ensures ViewOk(cache) && Becomes(old(cache), puts, cache) && kept == old(kept) + puts
    {
      Look(puts);
      kept := kept + puts;
    }

    method TimePasses()
      requires ViewOk(cache)
      modifies this`cache
      ensures ViewOk(cache) && Becomes(old(cache), [], cache)
    {
      Look([]);
    }

    // ---------- building the response ----------

    /** Adds a record to the response, when there is room. */
    method Emit(e: Event) returns (ok: bool)
      requires Answered(response, visited, ttls, qtype, qclass) && Proper(e, visited[|ttls|], qtype)
      modifies this`response, this`short
      ensures Answered(response, visited, ttls, qtype, qclass)
      ensures if ok then response == old(response) + [e] && short == old(short) else short
    {
      ok := Granted();
      AnsweredMore(response, e, visited, ttls, qtype, qclass);
      if ok { response := response + [e]; }
    }

    /** Starts the response with the question as it was asked and the aliases found since. */
    method Rqa() returns (ok: bool)
      requires |name| > 0 && Aliases(alias, aliasttl, name[0], visited, ttls)
      modifies this`response, this`short
      ensures ok ==> Answered(response, visited, ttls, qtype, qclass)
      ensures ok ==> |visited| == |ttls| + 1 && response == Chain(visited, ttls, qtype, qclass)
      ensures if ok then short == old(short) else short
    {
      ChainFirst(alias, aliasttl, name[0], visited, ttls, qtype, qclass);
      ChainDone(visited, ttls, qtype, qclass);
      var i: nat := ALIASES;
      while i > 0
        invariant |ttls| <= i <= ALIASES && short == old(short)
      {
        i := i - 1;
        AliasesArePrefix(alias, aliasttl, name[0], visited, ttls, i);
        if alias[i] != [] {
          ok := RqaFrom(i);
          return;
        }
      }
      response := [Question(name[0], qtype, qclass)];
      ok := Granted();
    }

    method RqaFrom(top: nat) returns (ok: bool)
      requires |name| > 0 && Aliases(alias, aliasttl, name[0], visited, ttls) && top + 1 == |ttls|
      modifies this`response, this`short
      ensures ok ==> Answered(response, visited, ttls, qtype, qclass)
      ensures ok ==> |visited| == |ttls| + 1 && response == Chain(visited, ttls, qtype, qclass)
      ensures if ok then short == old(short) else short
    {
      ChainFirst(alias, aliasttl, name[0], visited, ttls, qtype, qclass);
      ChainDone(visited, ttls, qtype, qclass);
      hide Aliases, Answered, Chain;
      var i := top;
      response := [Question(alias[i], qtype, qclass)];
      ok := Granted();
      if !ok { return; }
      while i > 0
        invariant i <= top && response == Chain(visited[..top - i + 1], ttls[..top - i], qtype, qclass) && short == old(short)
      {
        ChainLink(alias, aliasttl, name[0], visited, ttls, qtype, qclass, i);
        response := response + [Alias(alias[i], alias[i - 1], aliasttl[i])];
        ok := Granted();
        if !ok { return; }
        i := i - 1;
      }
      ChainLink(alias, aliasttl, name[0], visited, ttls, qtype, qclass, 0);
      response := response + [Alias(alias[0], name[0], aliasttl[0])];
      ok := Granted();
    }

    /** On level 0 the current name is the last one visited. */
    lemma TopName()
      requires Core()
      ensures |name| > 0 && WellFormed(name[0]) && |visited| == |ttls| + 1 && name[0] == visited[|ttls|]
    {
    }

    /** How long the lists are. */
    lemma Shape()
      requires Core()
      ensures level < LEVELS == |name| == |control| == |servers| == |ns| && WellFormed(name[level])
      ensures |visited| == |ttls| + 1 && |servers[level]| == SERVERS
    {
    }

    lemma Fits()
      requires Core()
      ensures Shaped(Now()) && WellFormed(name[level]) && |name| == LEVELS
    {
      hide Aliases, Asks, Progress, Boundary, WellFormed;
      Shape();
    }

    lemma FitsZone()
      requires Core() && Zones(name, control, level + 1)
      ensures Zoned(Now()) && WellFormed(name[level]) && WellFormed(name[level][control[level]..])
    {
      hide Aliases, Asks, Progress, Boundary, WellFormed, Zones;
      Fits();
      ZoneIsName();
    }

    method Cleanup()
      modifies this`alias, this`name, this`ns
      ensures alias == seq(ALIASES, _ => []) && name == seq(LEVELS, _ => []) && AllServerNames(ns)
    {
      alias := seq(ALIASES, _ => []);
      name := seq(LEVELS, _ => []);
      ns := seq(LEVELS, _ => NoNames());
    }

    // ---------- NEWNAME ----------

    method NewName() returns (next: Next)
      requires Ready(Next.NewName)
      modifies this`loop, this`visits, this`response, this`short, this`servers, this`control, this`ns, this`alias, this`name, this`cache
      ensures Ready(next) && !next.NewName?
      ensures Named(Given(), old(Now()), next, Now()) && Falls(Next.NewName, old(Now()), next, Now())
    {
      hide Aliases, Asks, Zones, Progress, Answered, Chain, WellFormed, ServerNames, AllServerNames, AllServers, Becomes, ViewOk, RootsOk,
        Leads;
      ghost var s := Now();
      Count();
      TimePasses();
      if loop == LOOPS { return Die; }
      ghost var between := Now();
      next := Lead();
      StillLeads(Given(), s, between, next, Now());
    }

    /** The search, once it is counted. */
    method Lead() returns (next: Next)
      requires Working()
      modifies this`response, this`short, this`servers, this`control, this`ns, this`alias, this`name
      ensures Ready(next) && !next.NewName?
      ensures Leads(Given(), old(Now()), next, Now())
    {
      hide Aliases, Asks, Zones, Progress, Answered, Chain, WellFormed, Consult, Told, ZoneFrom, BuiltInFor, ServerNames, AllServerNames,
        AllServers, WithFound, ViewOk, RootsOk, BuiltInLeads, FoundLeads, ZoneLeads;
      Fits();
      var special := Special();
      if special.Some? { return special.value; }
      if |name[level]| <= MAX_NAME {
        var cached := FromCache();
        if cached.Some? { return cached.value; }
      }
      next := FindZone();
    }

    /** Takes one loop off the budget. */
    method Count()
      requires loop < LOOPS && Core() && Zones(name, control, level)
      requires Progress(visits, Measure(loop, level) - 1) && |asked| <= |visits|
      modifies this`loop, this`visits
      ensures loop == old(loop) + 1 && visits == old(visits) + [Measure(loop, level)]
      ensures Counted() && (loop < LOOPS ==> Working())
    {
      loop := loop + 1;
      Visit(visits, Measure(loop - 1, level) - 1, Measure(loop, level));
      visits := visits + [Measure(loop, level)];
    }

    /** Names with a built-in answer. */
    method Special() returns (next: Option<Next>)
      requires Working()
      modifies this`response, this`short, this`servers, this`alias, this`name, this`ns
      ensures next == None <==> BuiltInFor(addressIn, old(name[level])) == None
      ensures next == None ==> Working() && Now() == old(Now())
      ensures next.Some? ==> Ready(next.value) && !next.value.NewName?
      ensures next.Some? ==> Leads(Given(), old(Now()), next.value, Now())
    {
      hide Aliases, Asks, Zones, Progress, Answered, Chain, WellFormed, BuiltInFor, BuiltInAnswer;
      Fits();
      var x := BuiltInFor(addressIn, name[level]);
      if x == None { return None; }
      if level > 0 {
        if x.value.Address? { TakeServer(x.value.ip); }
        return Some(LowerLevel);
      }
      var n := BuiltIn(x.value);
      return Some(n);
    }

    /** One more address for the level below. */
    method TakeServer(ip: Ip)
      requires AllServers(servers) && 0 < level < LEVELS
      modifies this`servers
      ensures AllServers(servers) && servers == old(servers)[level - 1 := PutIn(old(servers)[level - 1], ip)]
    {
      var list := PutServer(servers[level - 1], ip);
      servers := servers[level - 1 := list];
    }

    method BuiltIn(x: BuiltInAs) returns (next: Next)
      requires Working() && level == 0
      modifies this`response, this`short, this`alias, this`name, this`ns
      ensures Ready(next) && ((next == Die && short) || next == Done(1))
      ensures |visited| == |ttls| + 1
      ensures next == Done(1) ==> response == Chain(visited, ttls, qtype, qclass) + BuiltInAnswer(old(name[0]), qtype, x)
    {
      hide Aliases, Names, AllServerNames, AllServers, Asks, Zones, Progress, Answered, Chain, TypeMatch;
      TopName();
      var ok := Rqa();
      if !ok { return Die; }
      if TypeMatch(BuiltInType(x), DType()) {
        ok := Emit(Answer(name[0], BuiltInType(x), BUILT_IN_TTL, BuiltInParts(x)));
        if !ok { return Die; }
      }
      Cleanup();
      return Done(1);
    }

    // ---------- answers out of the cache ----------

    method FromCache() returns (next: Option<Next>)
      requires Working() && BuiltInFor(addressIn, name[level]) == None && |name[level]| <= MAX_NAME
      modifies this`response, this`short, this`servers, this`alias, this`name, this`ns
      ensures next == None <==> Consult(cache, old(name[level]), old(DType())) == Unknown
      ensures next == None ==> Working() && Now() == old(Now())
      ensures next.Some? ==> Ready(next.value) && !next.value.NewName?
      ensures next.Some? ==> Leads(Given(), old(Now()), next.value, Now())
    {
      hide Aliases, Names, AllServerNames, AllServers, Asks, Zones, Progress, Answered, Chain, SetFollows, RawAnswers, WellFormed,
        TypeMatch, HasOwnForm, Consult, ViewOk, RootsOk, ReadRaws, PutAll, BuiltInFor;
      Fits();
      ConsultSound(cache, name[level], DType());
      var f := Consult(cache, name[level], DType());
      match f
      case Unknown => return None;
      case Missing => return Some(NxDomain);
      case Aliased(c) =>
        if !TypeMatch(CNAME, DType()) { return Some(Cname(c.data, c.ttl)); }
        var n := AnswerAlias(c);
        return Some(n);
      case HasSet(rtype, c) =>
        if level > 0 {
          TakeCached(c.data);
          return Some(LowerLevel);
        }
        var n := AnswerSet(rtype, c);
        return Some(n);
      case HasRaw(c) =>
        var n := AnswerRaw(c);
        return Some(n);
    }

    method AnswerAlias(c: Cached) returns (next: Next)
      requires Working() && level == 0 && TypeMatch(CNAME, qtype)
      modifies this`response, this`short, this`alias, this`name, this`ns
      ensures Ready(next) && ((next == Die && short) || next == Done(1)) && |visited| == |ttls| + 1
      ensures next == Done(1) ==>
                response == Chain(visited, ttls, qtype, qclass) + [Alias(old(name[0]), c.data, c.ttl)]
    {
      hide Aliases, Names, AllServerNames, AllServers, Asks, Zones, Progress, Answered, Chain;
      TopName();
      var ok := Rqa();
      if !ok { return Die; }
      ok := Emit(Alias(name[0], c.data, c.ttl));
      if !ok { return Die; }
      Cleanup();
      return Done(1);
    }

    method AnswerSet(rtype: seq<byte>, c: Cached) returns (next: Next)
      requires Working() && level == 0 && TypeMatch(rtype, qtype) && HasOwnForm(rtype)
      modifies this`response, this`short, this`alias, this`name, this`ns
      ensures Ready(next) && ((next == Die && short) || next == Done(1)) && |visited| == |ttls| + 1
      ensures next == Done(1) ==> SetFollows(Chain(visited, ttls, qtype, qclass), response, old(name[0]), rtype, c)
    {
      if rtype == A { next := AnswerAddresses(c); } else { next := AnswerParts(rtype, c); }
    }

    method AnswerParts(rtype: seq<byte>, c: Cached) returns (next: Next)
      requires Working() && level == 0 && TypeMatch(rtype, qtype) && HasOwnForm(rtype)
      modifies this`response, this`short, this`alias, this`name, this`ns
      ensures Ready(next) && ((next == Die && short) || next == Done(1)) && |visited| == |ttls| + 1
      ensures next == Done(1) ==>
                SetFollows(Chain(visited, ttls, qtype, qclass), response, old(name[0]), rtype, c)
    {
      hide Aliases, Names, AllServerNames, AllServers, Asks, Zones, Progress, Answered, Chain, SetFollows, RawAnswers, ViewOk, RootsOk,
        WellFormed, TypeMatch, HasOwnForm, ReadRaws;
      TopName();
      var ok := Rqa();
      if !ok { return Die; }
      ok := EmitParts(rtype, c);
      if !ok { return Die; }
      Cleanup();
      return Done(1);
    }

    /** Answers with every record of a set in the cache. */
    method EmitParts(rtype: seq<byte>, c: Cached) returns (ok: bool)
      requires Answered(response, visited, ttls, qtype, qclass) && |name| > 0 && HasOwnForm(rtype)
      requires name[0] == visited[|ttls|] && TypeMatch(rtype, qtype)
      modifies this`response, this`short
      ensures Answered(response, visited, ttls, qtype, qclass)
      ensures if ok then SetFollows(old(response), response, name[0], rtype, c) && short == old(short) else short
    {
      var raw, names, rawFirst := RawOf(rtype), NamesOf(rtype), rtype != SOA;
      var pos: nat := 0;
      ghost var done: seq<Item> := [];
      NothingRead(c.data, raw, names, response);
      hide Answered, ItemsRead;
      while true
        invariant Answered(response, visited, ttls, qtype, qclass) && pos <= |c.data| && short == old(short)
        invariant ItemsRead(c.data, raw, names, done, pos)
        invariant response == old(response) + AnswersOf(name[0], rtype, c.ttl, done, rawFirst)
        decreases |c.data| - pos
      {
        var it := ItemAt(c.data, pos, raw, names);
        ReadOne(c.data, raw, names, done, pos);
        if it == None { return true; }
        ok := Emit(Answer(name[0], rtype, c.ttl, PartsOf(it.value.0, rawFirst)));
        if !ok { return; }
        OneMoreAnswer(name[0], rtype, c.ttl, done, it.value.0, rawFirst, old(response));
        done := done + [it.value.0];
        pos := it.value.1;
      }
    }

    method AnswerAddresses(c: Cached) returns (next: Next)
      requires Working() && level == 0 && TypeMatch(A, qtype)
      modifies this`response, this`short, this`alias, this`name, this`ns
      ensures Ready(next) && ((next == Die && short) || next == Done(1)) && |visited| == |ttls| + 1
      ensures next == Done(1) ==>
                SetFollows(Chain(visited, ttls, qtype, qclass), response, old(name[0]), A, c)
    {
      hide Aliases, Names, AllServerNames, AllServers, Asks, Zones, Progress, Answered, Chain, SetFollows, RawAnswers, ViewOk, RootsOk,
        WellFormed, TypeMatch, HasOwnForm, ReadRaws;
      TopName();
      var ok := Rqa();
      if !ok { return Die; }
      ok := EmitAddresses(c);
      if !ok { return Die; }
      Cleanup();
      return Done(1);
    }

    /** All addresses in the cache for the level below, as far as there is room. */
    method TakeCached(data: seq<byte>)
      requires AllServers(servers) && 0 < level < LEVELS
      modifies this`servers
      ensures AllServers(servers)
      ensures servers == old(servers)[level - 1 := PutAll(old(servers)[level - 1], IpsIn(data))]
    {
      var pos: nat := 0;
      ghost var i: nat := 0;
      ghost var list := servers[level - 1];
      assert IpsIn(data)[..0] == [];
      while pos + 4 <= |data|
        invariant AllServers(servers) && pos == 4 * i && i <= |IpsIn(data)|
        invariant servers == old(servers)[level - 1 := PutAll(list, IpsIn(data)[..i])]
      {
        assert IpsIn(data)[..i + 1] == IpsIn(data)[..i] + [data[pos..pos + 4]];
        PutOneMore(list, IpsIn(data)[..i], data[pos..pos + 4]);
        TakeServer(data[pos..pos + 4]);
        pos := pos + 4;
        i := i + 1;
      }
      assert IpsIn(data)[..i] == IpsIn(data);
    }

    method EmitAddresses(c: Cached) returns (ok: bool)
      requires Answered(response, visited, ttls, qtype, qclass) && |name| > 0
      requires name[0] == visited[|ttls|] && TypeMatch(A, qtype)
      modifies this`response, this`short
      ensures Answered(response, visited, ttls, qtype, qclass)
      ensures if ok then SetFollows(old(response), response, name[0], A, c) && short == old(short) else short
    {
      var pos: nat := 0;
      ghost var done: seq<Item> := [];
      NothingRead(c.data, 4, 0, response);
      hide Answered, ItemsRead;
      while pos + 4 <= |c.data|
        invariant Answered(response, visited, ttls, qtype, qclass) && pos <= |c.data| && short == old(short)
        invariant ItemsRead(c.data, 4, 0, done, pos)
        invariant response == old(response) + AnswersOf(name[0], A, c.ttl, done, true)
      {
        ghost var it := Item(c.data[pos..pos + 4], []);
        AddressItem(c.data, pos);
        ReadOne(c.data, 4, 0, done, pos);
        ok := Emit(Answer(name[0], A, c.ttl, [Raw(c.data[pos..pos + 4])]));
        if !ok { return; }
        OneMoreAnswer(name[0], A, c.ttl, done, it, true, old(response));
        done := done + [it];
        pos := pos + 4;
      }
      AddressItem(c.data, pos);
      ReadOne(c.data, 4, 0, done, pos);
      return true;
    }

    method AnswerRaw(c: Cached) returns (next: Next)
      requires Working() && level == 0
      modifies this`response, this`short, this`alias, this`name, this`ns
      ensures Ready(next) && (next == Die || next == Done(1)) && |visited| == |ttls| + 1
      ensures next == Die ==> short || ReadRaws(c.data, 0) == None
      ensures next == Done(1) ==> ReadRaws(c.data, 0).Some?
      ensures next == Done(1) ==>
                response == Chain(visited, ttls, qtype, qclass) + RawAnswers(old(name[0]), qtype, c.ttl, ReadRaws(c.data, 0).value)
    {
      hide Aliases, Names, AllServerNames, AllServers, Asks, Zones, Progress, Answered, Chain, SetFollows, RawAnswers, ViewOk, RootsOk,
        WellFormed, TypeMatch, HasOwnForm, ReadRaws;
      TopName();
      var ok := Rqa();
      if !ok { return Die; }
      ok := EmitRaw(c);
      if !ok { return Die; }
      Cleanup();
      return Done(1);
    }

    /** Records each behind its length; not possible when a length is wrong. */
    method EmitRaw(c: Cached) returns (ok: bool)
      requires Answered(response, visited, ttls, qtype, qclass) && |name| > 0 && name[0] == visited[|ttls|]
      modifies this`response, this`short
      ensures Answered(response, visited, ttls, qtype, qclass)
      ensures if ok then ReadRaws(c.data, 0).Some? && short == old(short) else short || ReadRaws(c.data, 0) == None
      ensures ok ==> response == old(response) + RawAnswers(name[0], qtype, c.ttl, ReadRaws(c.data, 0).value)
    {
      var pos: nat := 0;
      ghost var done: seq<seq<byte>> := [];
      NoRawsRead(c.data, response);
      hide Answered, RawsRead;
      while pos + 2 <= |c.data|
        invariant Answered(response, visited, ttls, qtype, qclass) && pos <= |c.data| && short == old(short)
        invariant RawsRead(c.data, done, pos)
        invariant response == old(response) + RawAnswers(name[0], qtype, c.ttl, done)
      {
        ReadOneRaw(c.data, done, pos);
        var datalen := Get2Big(c.data, pos);
        pos := pos + 2;
        if datalen > |c.data| - pos { return false; }
        ok := Emit(Answer(name[0], qtype, c.ttl, [Raw(c.data[pos..pos + datalen])]));
        if !ok { return; }
        OneMoreRaw(name[0], qtype, c.ttl, done, c.data[pos..pos + datalen], old(response));
        done := done + [c.data[pos..pos + datalen]];
        pos := pos + datalen;
      }
      AllRawsRead(c.data, done, pos);
      return true;
    }

    // ---------- whom to ask ----------

    /** The closest enclosing zone with known servers. */
    method FindZone() returns (next: Next)
      requires Working()
      requires BuiltInFor(addressIn, name[level]) == None
      requires |name[level]| <= MAX_NAME ==> Consult(cache, name[level], DType()) == Unknown
      modifies this`servers, this`control, this`ns
      ensures Ready(next) && (next.HaveNs? || next.Die?)
      ensures Leads(Given(), old(Now()), next, Now())
    {
      hide WellFormed, Boundary, Aliases, Asks, Progress, Slots, NamesFrom, ServerNames, RootsOk, ViewOk, Roots.Find, Lookup, Zones,
        BuiltInFor, Consult, Told, WithFound, WithBuiltIn, BuiltInAnswer, Chain;
      Fits();
      var d := name[level];
      var at: nat := 0;
      StartsAtBoundary(d);
      while true
        invariant Working() && d == name[level] && at < |d| && Boundary(d, at)
        invariant control == old(control) && servers == old(servers) && ns == old(ns)
        invariant ZoneFrom(cache, roots, !forwardOnly && level < 2, d, 0) == ZoneFrom(cache, roots, !forwardOnly && level < 2, d, at)
        decreases |d| - at
      {
        BoundaryTail(d, at);
        var z := KnownZone(d, at);
        if z.Some? {
          SetZone(at, z.value.servers, z.value.names);
          assert ZoneLeads(old(Now()), HaveNs, Now(), z);
          return HaveNs;
        }
        if d[at] == 0 { return Die; }
        BoundaryStep(d, at);
        at := at + 1 + d[at];
        BoundaryTail(d, at);
      }
    }

    /** What the administrator or the cache knows of one zone. */
    method KnownZone(d: Dn, at: nat) returns (z: Option<Zone>)
      requires RootsOk(roots) && at < |d| && WellFormed(d[at..])
      ensures z == ZoneAt(cache, roots, !forwardOnly && level < 2, d, at)
      ensures z.Some? ==> z.value.at == at && |z.value.servers| == SERVERS && ServerNames(z.value.names)
    {
      hide WellFormed, Slots, NamesFrom, ServerNames, Roots.Find, Lookup;
      var i := FindRoot(roots, d[at..]);
      if i.Some? { return Some(Zone(at, roots[i.value].servers, NoNames())); }
      if forwardOnly || level >= 2 || |d| - at >= 255 { return None; }
      var c := Lookup(cache, NS, d[at..]);
      if c == None || c.value.data == [] { return None; }
      var list := ServersFrom(c.value.data);
      return Some(Zone(at, NoServers(), list));
    }

    method SetZone(at: nat, list: seq<Ip>, names: seq<Dn>)
      requires Working() && Boundary(name[level], at) && |list| == SERVERS && ServerNames(names)
      modifies this`servers, this`control, this`ns
      ensures Ready(HaveNs) && |old(servers)| == |old(control)| == |old(ns)| == LEVELS
      ensures control == old(control)[level := at] && servers == old(servers)[level := list] && ns == old(ns)[level := names]
    {
      control := control[level := at];
      servers := servers[level := list];
      ns := ns[level := names];
    }

    // ---------- HAVENS ----------

    /** The names of servers on this level come first; on the last level they are of no use. */
    method HaveServers() returns (next: Next)
      requires Ready(HaveNs)
      modifies this`name, this`ns, this`level, this`asked, this`short
      ensures Ready(next) && (next.NewName? || next.ServFail? || next.Die? || next == Done(0))
      ensures Served(Given(), old(Now()), next, Now()) && Falls(HaveNs, old(Now()), next, Now())
    {
      hide Ready, NoAddress, NoName, IsFirst, Descended, Emptied;
      ZoneHere();
      ghost var list := ns[level];
      var j: nat := 0;
      Unchanged(list);
      while j < SERVERS
        invariant j <= SERVERS && Ready(HaveNs) && level == old(level) && name == old(name) && asked == old(asked) && short == old(short)
        invariant if level + 1 < LEVELS then ns == old(ns) && NoName(list[..j]) else ns == old(ns)[level := Emptied(list, j)]
      {
        EmptiedNext(list, j);
        if ns[level][j] != [] {
          if level + 1 < LEVELS {
            FirstHere(list, j);
            next := Descend(j);
            return;
          }
          Drop(j);
        }
        j := j + 1;
      }
      NoneLeft(list);
      next := AskServers();
    }

    lemma ZoneHere()
      requires Ready(HaveNs)
      ensures Zoned(Now())
    {
      hide Aliases, Asks, Progress, ViewOk, RootsOk, WellFormed, AllServerNames, AllServers, Zones;
      FitsZone();
    }

    /** The name of a server is of no use. */
    method Drop(j: nat)
      requires Ready(HaveNs) && |ns| == LEVELS && level < LEVELS && j < |ns[level]|
      modifies this`ns
      ensures Ready(HaveNs) && ns == old(ns)[level := old(ns)[level][j := []]]
    {
      hide Aliases, Asks, Progress, ViewOk, RootsOk, WellFormed, Names, Zones, AllServers;
      ns := ns[level := ns[level][j := []]];
    }

    /** Asks the servers of the zone, if an address of one is known. */
    method AskServers() returns (next: Next)
      requires Ready(HaveNs)
      modifies this`asked, this`short
      ensures Ready(next) && Zoned(old(Now()))
      ensures if NoAddress(servers[level]) then next == ServFail && asked == old(asked)
              else (next == Die && short) || (next == Done(0) && asked == old(asked) + [AskedAt(Given(), old(Now()))])
    {
      hide Aliases, Asks, Progress, AllServerNames, InZone, WellFormed;
      FitsZone();
      if forall k :: 0 <= k < SERVERS ==> servers[level][k] == NO_IP { return ServFail; }
      var ok := Granted();
      if !ok { return Die; }
      Send();
      return Done(0);
    }

    /** First the address of a server is needed. */
    method Descend(j: nat) returns (next: Next)
      requires Ready(HaveNs) && level + 1 < LEVELS && |ns| == LEVELS && j < |ns[level]| && ns[level][j] != []
      modifies this`name, this`ns, this`level, this`short
      ensures Ready(next) && Shaped(old(Now())) && Falls(HaveNs, old(Now()), next, Now())
      ensures (next == Die && Now() == old(Now()).(short := true)) || (next == Next.NewName && Descended(old(Now()), Now(), j))
    {
      hide Aliases, Asks, ViewOk, RootsOk, WellFormed;
      Fits();
      var ok := Granted();
      if !ok { return Die; }
      name := name[level + 1 := ns[level][j]];
      ns := ns[level := ns[level][j := []]];
      level := level + 1;
      return Next.NewName;
    }

    method Send()
      requires Ready(HaveNs)
      modifies this`asked
      ensures Waiting() && control[level] <= |name[level]|
      ensures asked == old(asked) + [Ask(name[level], name[level][control[level]..], DType())]
    {
      hide WellFormed, Asks, Boundary, Aliases, AllServerNames, AllServers, Progress;
      assert InZone(name[level], control[level]);
      AsksMore(asked, name[level], control[level], DType());
      VisitsBounded(visits, Measure(loop, level));
      asked := asked + [Ask(name[level], name[level][control[level]..], DType())];
    }

    // ---------- LOWERLEVEL ----------

    method Lower() returns (next: Next)
      requires Ready(LowerLevel)
      modifies this`name, this`ns, this`level, this`visits
      ensures Ready(next) && visits == old(visits) + [Measure(loop, level)]
      ensures Lowered(old(Now()), next, Now()) && Falls(LowerLevel, old(Now()), next, Now())
    {
      hide Aliases, Asks, ViewOk, RootsOk, WellFormed, Boundary, AllServers;
      Fits();
      name := name[level := []];
      ns := ns[level := NoNames()];
      level := level - 1;
      Visit(visits, Measure(loop, level + 1), Measure(loop, level));
      visits := visits + [Measure(loop, level)];
      return HaveNs;
    }

    // ---------- CNAME, NXDOMAIN, SERVFAIL ----------

    method FollowCname(target: Dn, ttl: nat) returns (next: Next)
      requires Ready(Cname(target, ttl))
      modifies this`alias, this`aliasttl, this`name, this`visited, this`ttls, this`short
      ensures Ready(next) && (next.NewName? || next.Die?)
      ensures Renamed(target, ttl, old(Now()), next, Now()) && Falls(Cname(target, ttl), old(Now()), next, Now())
      ensures old(visited) <= visited
    {
      hide WellFormed, Aliases, AllServerNames, AllServers, Asks, Zones, InZone, ViewOk, RootsOk, Progress;
      Shape();
      Fits();
      AliasCount();
      ZonesBelow(name, control, level, target);
      ProgressLess(visits, Measure(loop, level));
      AliasesArePrefix(alias, aliasttl, name[0], visited, ttls, ALIASES - 1);
      if level == 0 && alias[ALIASES - 1] != [] { return Die; }
      var ok := Granted();
      if level == 0 { Shift(target, ttl); }
      if !ok { return Die; }
      name := name[level := target];
      return Next.NewName;
    }

    lemma AliasCount()
      requires Core()
      ensures |alias| == |aliasttl| == ALIASES && |ttls| <= ALIASES
    {
    }

    /** Makes room for the current name in front of the aliases, and moves it there. */
    method Shift(ghost target: Dn, ttl: nat)
      requires |name| == LEVELS && Aliases(alias, aliasttl, name[0], visited, ttls) && alias[ALIASES - 1] == [] && WellFormed(target)
      modifies this`alias, this`aliasttl, this`visited, this`ttls
      ensures Aliases(alias, aliasttl, target, visited, ttls) && |aliasttl| == ALIASES
      ensures visited == old(visited) + [target] && ttls == old(ttls) + [ttl]
    {
      FollowAlias(alias, aliasttl, name[0], visited, ttls, target, ttl);
      ghost var a, t := alias, aliasttl;
      assert |a| == |t| == ALIASES && |name| == LEVELS;
      hide Aliases, Names, AllServerNames, AllServers, Asks, Progress, WellFormed, Shifted;
      var j: nat := ALIASES - 1;
      ShiftedEnds(a, name[0]);
      ShiftedEnds(t, ttl);
      while j > 0
        modifies this`alias, this`aliasttl
        invariant j < ALIASES == |alias| == |aliasttl| && alias == Shifted(a, j) && aliasttl == Shifted(t, j)
      {
        ShiftedNext(a, j);
        ShiftedNext(t, j);
        alias := alias[j := alias[j - 1]];
        aliasttl := aliasttl[j := aliasttl[j - 1]];
        j := j - 1;
      }
      alias := alias[0 := name[0]];
      aliasttl := aliasttl[0 := ttl];
      visited := visited + [target];
      ttls := ttls + [ttl];
    }

    /** Gives up on this level, or answers without records. */
    method Without(e: Event) returns (next: Next)
      requires Between() && (e == NoSuchName || e == Failure)
      modifies this`response, this`short, this`alias, this`name, this`ns
      ensures Ready(next) && GivenUp(Given(), e, old(Now()), next, Now())
      ensures Falls(NxDomain, old(Now()), next, Now()) && Falls(ServFail, old(Now()), next, Now())
    {
      hide Aliases, Names, AllServerNames, AllServers, Asks, Zones, Progress, Answered, Chain, WellFormed, ViewOk, RootsOk, TypeMatch;
      TopName();
      Fits();
      if level > 0 { return LowerLevel; }
      var ok := Rqa();
      if !ok { return Die; }
      AnsweredMore(response, e, visited, ttls, qtype, qclass);
      response := response + [e];
      Cleanup();
      return Done(1);
    }

    // ---------- HAVEPACKET ----------

    method HavePacket(buf: seq<byte>, from: Option<nat>) returns (next: Next, ghost puts: seq<Stored>)
      requires Waiting()
      modifies this`loop, this`visits, this`response, this`short, this`servers, this`control, this`ns, this`alias, this`name,
        this`cache, this`kept
      ensures Ready(next)
      ensures Heard(Given(), old(Now()), buf, from, puts, next, Now())
    {
      hide Ready, Working, Core, Counted, WellFormed, Zones, Progress, Weighed, ReplyIn, Becomes;
      WaitsInZone();
      ghost var s := Now();
      CountPacket();
      if loop == LOOPS { return Die, []; }
      ghost var counted, r := Now(), ReplyIn(buf, name[level], DType());
      next, puts := Hear(buf, from);
      if r.Some? { StillWeighed(Given(), s, counted, buf, from, r.value, puts, next, Now()); }
    }

    /** Goes through a packet, if it can be read. */
    method Hear(buf: seq<byte>, from: Option<nat>) returns (next: Next, ghost puts: seq<Stored>)
      requires Working() && Zones(name, control, level + 1)
      modifies this`response, this`short, this`servers, this`control, this`ns, this`alias, this`name, this`cache, this`kept
      ensures Ready(next) && Zoned(old(Now()))
      ensures match ReplyIn(buf, old(name[level]), old(DType()))
              case None => next == Die && puts == [] && Now() == old(Now())
              case Some(r) => Weighed(Given(), old(Now()), buf, from, r, puts, next, Now())
    {
      hide WellFormed, Aliases, AllServerNames, Asks, Progress, RootsOk, ViewOk, Weighed, AllServers, ReplyIn, Zones, Names;
      FitsZone();
      var r := ReadReply(buf, name[level], DType());
      if r == None { return Die, []; }
      next, puts := Weigh(buf, from, r.value);
    }

    lemma WaitsInZone()
      requires Waiting()
      ensures Zoned(Now()) && WellFormed(name[level])
    {
      hide Aliases, AllServerNames, AllServers, Asks, Progress, WellFormed, Zones, ViewOk, RootsOk, Names;
      FitsZone();
    }

    /** A packet counts as a loop. */
    method CountPacket()
      requires Waiting()
      modifies this`loop, this`visits
      ensures loop == old(loop) + 1 <= LOOPS && Ready(Die)
      ensures loop < LOOPS ==> Working() && Zones(name, control, level + 1)
    {
      hide Aliases, AllServerNames, AllServers, Asks, Progress, WellFormed, Zones, ViewOk, RootsOk, Names;
      ProgressLess(visits, Measure(loop, level));
      Count();
    }

    /** What to do with a packet that has been gone through. */
    method Weigh(buf: seq<byte>, from: Option<nat>, r: Reply) returns (next: Next, ghost puts: seq<Stored>)
      requires Working() && Zones(name, control, level + 1)
      requires r.an.alias.Some? ==> WellFormed(r.an.alias.value.name)
      requires r.au.referral.Some? ==> WellFormed(r.au.referral.value)
      modifies this`response, this`short, this`servers, this`control, this`ns, this`alias, this`name,
        this`cache, this`kept
      ensures Ready(next)
      ensures Weighed(Given(), old(Now()), buf, from, r, puts, next, Now())
    {
      hide WellFormed, Aliases, AllServerNames, Asks, Progress, Becomes, RootsOk, ViewOk, Same, IsSuffix, Zones, Weighed;
      FitsZone();
      ghost var s := Now();
      var refers := r.an.alias == None && !r.missing && !r.an.out && r.au.referral.Some? && !r.au.soa;
      if refers {
        var lame := Lame(r.au.referral.value);
        if lame {
          StaysSeen(cache, []);
          ForgetServer(from);
          LameIsWeighed(Given(), s, buf, from, r, Now());
          return HaveNs, [];
        }
      }
      next, puts := Settle(buf, from, r);
    }

    /** What to do with a packet that is not lame: store its sets, and go where it leads. */
    method Settle(buf: seq<byte>, ghost from: Option<nat>, r: Reply) returns (next: Next, ghost puts: seq<Stored>)
      requires Working() && Zones(name, control, level + 1)
      requires r.an.alias.Some? ==> WellFormed(r.an.alias.value.name)
      requires r.au.referral.Some? ==> WellFormed(r.au.referral.value)
      requires Zoned(Now()) && !IsLame(r, name[level][control[level]..])
      modifies this`response, this`short, this`servers, this`control, this`ns, this`alias, this`name,
        this`cache, this`kept
      ensures Ready(next)
      ensures Weighed(Given(), old(Now()), buf, from, r, puts, next, Now())
    {
      hide Ready, Working, Core, Zones, WellFormed, Becomes, StoredFrom, Lack, LeadsOn, IsLame, PutsFrom, MayFail, IsSuffix, Weighed,
        RootsOk, FromGroups, Positions, AllInside, Same, EndsIn;
      ghost var s := Now();
      EndsInZone();
      ghost var lack := Lack(name[level], DType(), r.missing, r.an, r.au);
      var ok;
      ghost var groups, stored;
      ok, groups, stored := Store(buf, r.sections);
      ghost var between := Now();
      PutsAre(buf, r, name[level][control[level]..], roots, name[level], DType(), ok, stored);
      if !ok {
        Nothing(stored);
        SpoiltIsWeighed(Given(), s, buf, from, r, stored, Now());
        return Die, stored;
      }
      next := Decide(buf, from, r);
      puts := stored + lack;
      SettledIsWeighed(Given(), s, between, buf, from, r, stored, next, Now());
    }

    lemma EndsInZone()
      requires Working() && Zones(name, control, level + 1)
      ensures level < |name| && level < |control| && control[level] <= |name[level]|
      ensures WellFormed(name[level]) && IsSuffix(name[level], name[level][control[level]..]) && |DType()| == 2
    {
      hide WellFormed, Aliases, AllServerNames, Asks, RootsOk, ViewOk, IsSuffix, Boundary, AllServers;
      assert InZone(name[level], control[level]);
      ZoneIsSuffix(name[level], control[level]);
    }

    lemma ZoneIsName()
      requires Zones(name, control, level + 1)
      ensures level < |name| && level < |control| && control[level] < |name[level]| && WellFormed(name[level][control[level]..])
    {
      assert InZone(name[level], control[level]);
      BoundaryTail(name[level], control[level]);
    }

    /** Where to go once the sets of the packet are stored. The lack of a name or of records is kept as well. */
    method Decide(buf: seq<byte>, ghost from: Option<nat>, r: Reply) returns (next: Next)
      requires Working() && Zones(name, control, level + 1)
      requires r.an.alias.Some? ==> WellFormed(r.an.alias.value.name)
      requires r.au.referral.Some? ==> WellFormed(r.au.referral.value)
      requires Zoned(Now()) && !IsLame(r, name[level][control[level]..])
      modifies this`response, this`short, this`servers, this`control, this`ns, this`alias, this`name,
        this`cache, this`kept
      ensures Ready(next)
      ensures Becomes(old(cache), Lack(old(name[level]), old(DType()), r.missing, r.an, r.au), cache)
      ensures kept == old(kept) + Lack(old(name[level]), old(DType()), r.missing, r.an, r.au)
      ensures if next == Die then MayFail(buf, r, old(level), old(name[level]), old(DType()), short)
              else LeadsOn(Given(), old(Now()), buf, from, r, next, Now())
    {
      hide AnswersFollow, Answered, WellFormed, Aliases, AllServerNames, Asks, Progress, Becomes, RootsOk, ViewOk, Chain, Lack,
        TookAddresses, Zones, AliasIsName, MayFail, AllServers, WentOn, IsLame;
      FitsZone();
      ghost var s := Now();
      LackIsNoAlias(name[level], DType(), r.missing, r.an, r.au);
      Remember(Lack(name[level], DType(), r.missing, r.an, r.au));
      if r.an.alias.Some? { return Cname(r.an.alias.value.name, r.an.alias.value.ttl); }
      if r.missing { return NxDomain; }
      ghost var between := Now();
      next := Conclude(buf, from, r);
      if next != Die { StillLeadsOn(Given(), s, between, buf, from, r, next, Now()); }
    }

    /** The name exists: take the answer, or go on to the servers that the packet refers to. */
    method Conclude(buf: seq<byte>, ghost from: Option<nat>, r: Reply) returns (next: Next)
      requires Working() && Zones(name, control, level + 1)
      requires r.an.alias == None && !r.missing
      requires r.au.referral.Some? ==> WellFormed(r.au.referral.value)
      requires Zoned(Now()) && !IsLame(r, name[level][control[level]..])
      modifies this`response, this`short, this`servers, this`control, this`ns, this`alias, this`name
      ensures Ready(next)
      ensures if next == Die then MayFail(buf, r, old(level), old(name[level]), old(DType()), short)
              else LeadsOn(Given(), old(Now()), buf, from, r, next, Now())
    {
      hide AnswersFollow, Answered, WellFormed, Same, IsSuffix, Aliases, AllServerNames, Asks, Progress, RootsOk, ViewOk, Chain,
        NamesServers, TookAddresses, Zones, AddressesReadable, ReferralReadable, DataReadable, AllServers, WentOn;
      FitsZone();
      if r.an.out || r.au.soa || r.au.referral == None {
        if level > 0 {
          next := TakeAddresses(buf, r.sections);
        } else {
          next := AnswerFrom(buf, r.sections);
        }
        return;
      }
      next := FollowReferral(buf, r.au.referral.value, r.sections);
    }

    /** Sorts the records of the packet and puts the sets into the cache that the zone asked may speak for: all of
        them, up to the first one with a broken record. */
    method Store(buf: seq<byte>, s: Sections) returns (ok: bool, ghost groups: seq<seq<nat>>, ghost stored: seq<Stored>)
      requires Working() && Zones(name, control, level + 1)
      modifies this`cache, this`kept
      ensures Working() && Ready(Die) && Becomes(old(cache), stored, cache) && kept == old(kept) + stored
      ensures level < |name| && level < |control| && control[level] <= |name[level]|
      ensures match Positions(buf, s.posanswers, s.numanswers + s.numauthority + s.numglue)
              case None => !ok && stored == []
              case Some(ps) => FromGroups(buf, ps, s.posauthority, name[level][control[level]..], roots, groups, ok, stored)
      ensures StoredFrom(buf, s, name[level][control[level]..], roots, ok, stored)
    {
      hide WellFormed, Boundary, Grouped, Listed, AllGood, Positions, RootsOk, ViewOk, Becomes, Entries, Zones, AliasIsName;
      ZoneIsName();
      StaysSeen(cache, []);
      var n := s.numanswers + s.numauthority + s.numglue;
      var found := SortAndGroup(buf, s.posanswers, n);
      if found == None { return false, [], []; }
      PositionsListed(buf, s.posanswers, n);
      GroupsGood(buf, Positions(buf, s.posanswers, n).value, found.value);
      var puts;
      ok, puts := StoreSets(buf, name[level][control[level]..], s.posauthority, roots, found.value);
      groups, stored := found.value, puts;
      assert FromGroups(buf, Positions(buf, s.posanswers, n).value, s.posauthority, name[level][control[level]..], roots, groups, ok, stored);
      AliasesAreNames(buf, name[level][control[level]..], s.posauthority, roots, groups);
      Remember(puts);
    }

    /** Whether the servers sent us somewhere that is not inside their zone. */
    method Lame(referral: Dn) returns (lame: bool)
      requires Zones(name, control, level + 1) && WellFormed(referral)
      ensures level < |name| && level < |control|
      ensures control[level] <= |name[level]| && WellFormed(name[level][control[level]..])
      ensures var zone := name[level][control[level]..]; lame <==> Same(referral, zone) || !IsSuffix(referral, zone)
    {
      hide WellFormed, Same, IsSuffix, Boundary, Zones;
      ZoneIsName();
      var zone := name[level][control[level]..];
      lame := Equal(referral, zone);
      if lame { return; }
      var inside := Suffix(referral, zone);
      lame := !inside;
    }

    /** Forgets the server that answered; when the question was merged with another query's, that query does. */
    method ForgetServer(from: Option<nat>)
      requires AllServers(servers) && level < LEVELS
      modifies this`servers
      ensures AllServers(servers) && old(level) < |old(servers)| && |old(servers)[level]| == SERVERS
      ensures servers == if from.Some? && from.value < SERVERS then old(servers)[level := Forgotten(old(servers)[level], from.value)]
                         else old(servers)
    {
      assert |servers[level]| == SERVERS;
      if from.Some? && from.value < SERVERS {
        var list: seq<Ip> := Forgotten(servers[level], from.value);
        servers := servers[level := list];
      }
    }

    /** The answer section has addresses of a server for the level below: they are taken as far as there is room. */
    method TakeAddresses(buf: seq<byte>, s: Sections) returns (next: Next)
      requires Working() && level > 0
      modifies this`servers
      ensures Ready(next) && (next.LowerLevel? || next.Die?)
      ensures next.LowerLevel? ==> |old(servers)| == LEVELS && TookAddresses(buf, s, name[level], level, old(servers), servers)
      ensures next.Die? ==> !AddressesReadable(buf, s.posanswers, s.numanswers, name[level])
    {
      hide Aliases, AllServerNames, Asks, Zones, Progress, WellFormed, PutAll, Positions, AddressesIn, AddressesReadable;
      assert |servers[level - 1]| == SERVERS;
      var ok, list := GatherAddresses(buf, s.posanswers, s.numanswers, name[level], servers[level - 1]);
      servers := servers[level - 1 := list];
      return if ok then LowerLevel else Die;
    }

    /** The packet answers the question: the response is the chain, and then exactly the records that answer. */
    method AnswerFrom(buf: seq<byte>, s: Sections) returns (next: Next)
      requires Working() && level == 0
      modifies this`response, this`short, this`alias, this`name, this`ns
      ensures Ready(next) && (next == Die || next == Done(1)) && |visited| == |ttls| + 1
      ensures next == Die ==> short || !DataReadable(buf, s.posanswers, s.numanswers, old(name[0]), qtype)
      ensures next == Done(1) ==>
                AnswersFollow(Chain(visited, ttls, qtype, qclass), response, buf, s.posanswers, s.numanswers, old(name[0]), qtype)
    {
      hide Aliases, Names, AllServerNames, AllServers, Asks, Zones, Progress, Answered, Chain, AnswersFollow, ViewOk, RootsOk, WellFormed;
      TopName();
      var ok := Rqa();
      if !ok { return Die; }
      ok := EmitAnswers(buf, s.posanswers, s.numanswers);
      if !ok { return Die; }
      Cleanup();
      return Done(1);
    }

    method EmitAnswers(buf: seq<byte>, posanswers: nat, numanswers: nat) returns (ok: bool)
      requires Answered(response, visited, ttls, qtype, qclass) && |name| > 0 && name[0] == visited[|ttls|]
      requires WellFormed(name[0])
      modifies this`response, this`short
      ensures Answered(response, visited, ttls, qtype, qclass)
      ensures if ok then AnswersFollow(old(response), response, buf, posanswers, numanswers, name[0], qtype) && short == old(short)
              else short || !DataReadable(buf, posanswers, numanswers, name[0], qtype)
    {
      hide Answered, Same, Collected, AnswerAt, Holds, Positions, DataReadable, Proper, WellFormed;
      var at: nat := posanswers;
      var j: nat := 0;
      ghost var done: seq<nat> := [];
      ghost var es: seq<Event> := [];
      CollectStart(buf, posanswers, numanswers);
      Nothing(response);
      while j < numanswers
        invariant j <= numanswers && Collected(buf, posanswers, numanswers, at, j, done)
        invariant Answered(response, visited, ttls, qtype, qclass) && short == old(short)
        invariant AnswersIn(buf, done, name[0], qtype) == Some(es) && response == old(response) + es
      {
        var e;
        ghost var more := done + [at];
        AnswersInNext(buf, done, at, name[0], qtype);
        ok, at, e := NextEvent(buf, posanswers, numanswers, at, j, done, name[0], qtype);
        if !ok { return; }
        done := more;
        if e.Some? {
          ok := Emit(e.value);
          if !ok { return; }
          Associate(old(response), es, e.value);
          es := es + [e.value];
        }
        j := j + 1;
      }
      CollectEnd(buf, posanswers, numanswers, at, done);
      return true;
    }

    /** Goes on to the servers of a zone further down. */
    method FollowReferral(buf: seq<byte>, referral: Dn, s: Sections) returns (next: Next)
      requires Working() && Zones(name, control, level + 1) && WellFormed(referral)
      requires control[level] <= |name[level]| && WellFormed(name[level][control[level]..])
      requires var zone := name[level][control[level]..]; !Same(referral, zone) && IsSuffix(referral, zone)
      modifies this`servers, this`control, this`ns
      ensures Ready(next) && (next.HaveNs? || next.Die?)
      ensures next.HaveNs? ==> Shaped(old(Now())) && WentOn(old(Now()), Now(), buf, s, referral)
      ensures next.Die? ==> !EndsIn(name[level], referral) || !ReferralReadable(buf, s.posauthority, s.numauthority, referral)
    {
      hide WellFormed, Same, Boundary, Names, Aliases, Asks, Progress, AllServerNames, AllServers, IsSuffix, Slots, ReferredIn, Positions,
        ServerNames, ReferralReadable;
      FitsZone();
      NameInZone();
      var inside := Suffix(name[level], referral);
      if !inside { return Die; }
      ReferralIsLonger(name[level], control[level], referral);
      var at := SuffixPos(name[level], referral);
      var list := ReferralServers(buf, referral, s.posauthority, s.numauthority);
      if list == None { return Die; }
      SetZone(at, NoServers(), list.value);
      assert ns[level] == list.value;
      return HaveNs;
    }

    lemma NameInZone()
      requires Zones(name, control, level + 1) && Names(name, level)
      ensures level < |name| && level < |control| && InZone(name[level], control[level]) && WellFormed(name[level])
      ensures control[level] < |name[level]|
    {
      ZoneIsName();
    }

    // ---------- the whole machine ----------

    lemma LeftIsNatural(next: Next)
      requires Ready(next)
      ensures Left(next, Now()) >= 0
    {
    }

    /** From one label to the next. */
    method Step(here: Next) returns (next: Next)
      requires Ready(here) && !here.Done?
      modifies this
      ensures Ready(next)
      ensures Falls(here, old(Now()), next, Now())
      ensures Stepped(Given(), here, old(Now()), next, Now())
      ensures old(visited) <= visited && Given() == old(Given())
    {
      hide Ready, Between, Renamed, GivenUp, Named, Served, Lowered, Falls, SameChain, Front;
      if here.NewName? || here.HaveNs? || here.LowerLevel? {
        next := Descent(here);
        return;
      }
      match here
      case Cname(target, ttl) => next := FollowCname(target, ttl);
      case NxDomain =>
        GoneThrough(here);
        next := Without(NoSuchName);
      case ServFail =>
        GoneThrough(here);
        next := Without(Failure);
      case Die => next := Fail();
    }

    /** From one label to the next, where the level may change. */
    method Descent(here: Next) returns (next: Next)
      requires Ready(here) && (here.NewName? || here.HaveNs? || here.LowerLevel?)
      modifies this
      ensures Ready(next)
      ensures Falls(here, old(Now()), next, Now())
      ensures Stepped(Given(), here, old(Now()), next, Now())
      ensures visited == old(visited) && Given() == old(Given())
    {
      hide Ready, Named, Served, Lowered, Renamed, GivenUp, Falls, SameChain;
      match here
      case NewName => next := NewName();
      case HaveNs => next := HaveServers();
      case LowerLevel => next := Lower();
    }

    lemma GoneThrough(here: Next)
      requires Ready(here) && (here.NxDomain? || here.ServFail?)
      ensures Between()
    {
    }

    method Fail() returns (next: Next)
      requires Ready(Die)
      modifies this`alias, this`name, this`ns
      ensures Ready(next) && Stepped(Given(), Die, old(Now()), next, Now()) && Falls(Die, old(Now()), next, Now())
    {
      hide AllServerNames, AllServers, Progress, ViewOk, RootsOk;
      Cleanup();
      return Done(-1);
    }

    /** Goes from label to label until the call ends; `run` is the way that was taken. */
    method Run(start: Next) returns (result: int, ghost run: seq<Stop>)
      requires Ready(start)
      modifies this
      ensures Ready(Done(result)) && old(visited) <= visited && Given() == old(Given())
      ensures Ends(Given(), run, Stop(start, old(Now())), result, Now())
    {
      hide Ready, Stepped;
      LeftIsNatural(start);
      var next := start;
      run := [Stop(start, Now())];
      while !next.Done?
        invariant Ready(next) && Left(next, Now()) >= 0
        invariant old(visited) <= visited && Given() == old(Given())
        invariant Chained(Given(), run) && run[0] == Stop(start, old(Now())) && run[|run| - 1] == Stop(next, Now())
        decreases Left(next, Now()), Rank(next)
      {
        ghost var so := run;
        next := Step(next);
        ChainedMore(Given(), so, next, Now());
        run := so + [Stop(next, Now())];
        LeftIsNatural(next);
      }
      return next.result, run;
    }

    /** Forgets the query before, and sets the counters back. */
    method Reset()
      requires Valid()
      modifies this`alias, this`name, this`ns, this`level, this`loop, this`visits, this`asked, this`short, this`kept
      ensures Valid() && level == 0 && loop == 0 && !short && kept == [] && visits == [] && asked == [] && |name| == LEVELS && AllServerNames(ns)
      ensures |alias| == ALIASES && forall i :: 0 <= i < ALIASES ==> alias[i] == []
    {
      hide AllServerNames, AllServers, ViewOk, RootsOk;
      Cleanup();
      level, loop := 0, 0;
      visits, asked, kept, short := [], [], [], false;
    }

    method Begin(dn: Dn, t: seq<byte>, c: seq<byte>)
      requires Valid() && WellFormed(dn) && |t| == 2
      modifies this
      ensures Ready(Next.NewName) && qtype == t && qclass == c && Fresh(old(cache), dn, Now())
    {
      hide WellFormed, Aliases, AllServerNames, AllServers, Asks, Zones, Names, ViewOk, RootsOk, Ready;
      Reset();
      NewQuery(name, control, alias, aliasttl, dn);
      name, qtype, qclass := name[0 := dn], t, c;
      visited, ttls := [dn], [];
      ReadyToBegin();
    }

    lemma ReadyToBegin()
      requires Valid() && Names(name, level) && AllServerNames(ns) && |name| > 0 && Aliases(alias, aliasttl, name[0], visited, ttls)
      requires asked == [] && visits == [] && loop == 0 && level == 0 && |qtype| == 2 && !short && Zones(name, control, 0)
      ensures Ready(Next.NewName)
    {
      hide WellFormed, Aliases, AllServerNames, AllServers, Zones, Names, ViewOk, RootsOk;
      NoVisits();
    }

    lemma ReadyIsValid(result: int)
      requires Ready(Done(result))
      ensures Valid()
    {
    }

    /** Begins a query, with what is seen of the cache now: the first name looked for is the one asked for. */
    method Start(dn: Dn, t: seq<byte>, c: seq<byte>, shared: View) returns (result: int, ghost run: seq<Stop>)
      requires Valid() && WellFormed(dn) && |t| == 2 && ViewOk(shared)
      modifies this
      ensures Valid()
      ensures t == AXFR ==> result == -1 && unchanged(this)
      ensures t != AXFR ==> Ready(Done(result)) && qtype == t && qclass == c
      ensures t != AXFR ==>
                run != [] && Fresh(shared, dn, run[0].s) && Ends(Given(), run, Stop(Next.NewName, run[0].s), result, Now())
    {
      run := [];
      if t == AXFR { return -1, run; }
      cache := shared;
      Begin(dn, t, c);
      hide Ready, Ends, Fresh;
      result, run := Run(Next.NewName);
      EndsBegins(Given(), run, Stop(Next.NewName, run[0].s), result, Now());
      ReadyIsValid(result);
    }

    /** Goes on with a query: nothing has happened yet, a packet has arrived, or the servers have failed. The packet is
        from server number `from` of the level, or from one that another query has asked. */
    method Get(outcome: int, buf: seq<byte>, from: Option<nat>, shared: View) returns (result: int, ghost puts: seq<Stored>, ghost run: seq<Stop>)
      requires Waiting() && ViewOk(shared)
      modifies this
      ensures Ready(Done(result)) && Given() == old(Given())
      ensures outcome == 1 ==>
                && run != [] && Heard(Given(), old(Now()).(cache := shared), buf, from, puts, run[0].here, run[0].s)
                && Ends(Given(), run, run[0], result, Now())
      ensures outcome == 1 ==> Concludes(Given(), old(Now()).(cache := shared), buf, result, Now())
      ensures outcome == -1 ==> Ends(Given(), run, Stop(ServFail, old(Now()).(cache := shared)), result, Now())
      ensures outcome == -1 && old(level) == 0 ==>
                || (result == -1 && short)
                || (result == 1 && |old(visited)| == |old(ttls)| + 1 && response == Front(Given(), old(Now())) + [Failure])
      ensures outcome != 1 && outcome != -1 ==> result == 0 && unchanged(this)
    {
      hide Ends, Heard, Concludes, Chain, Aliases, Asks, Progress;
      puts, run := [], [];
      if outcome == 1 {
        cache := shared;
        ghost var s := Now();
        var next;
        next, puts := HavePacket(buf, from);
        ghost var start := Stop(next, Now());
        result, run := Run(next);
        EndsBegins(Given(), run, start, result, Now());
        Concluded(Given(), s, buf, from, puts, run, start, result, Now());
      } else if outcome == -1 {
        cache := shared;
        ghost var start := Stop(ServFail, Now());
        result, run := Run(ServFail);
        if old(level) == 0 { GivesUp(Given(), run, start, result, Now(), Failure); }
      } else {
        result := 0;
      }
    }

    /** Whatever the packets, failures and cache answers are, a query sends at most 491 questions before its end
        and visits its counted labels at most 496 times. */
    lemma Bounded()
      requires Counted()
      ensures |visits| <= 496 && |asked| <= 491
    {
      VisitsBounded(visits, Measure(loop, level));
    }
  }
}
