/** The steps of a query as relations between what it holds before and after, one for every label, and runs of them. */
module QuerySteps {
  import opened Bytes
  import opened Domain
  import opened Records
  import opened Scan
  import opened ResolverState
  import opened SetData
  import opened CacheSets
  import opened Roots
  import opened Replies
  import opened CacheView

  /** What stays the same for as long as a query lasts. */
  datatype Settings =
    Settings(forwardOnly: bool, roots: seq<Root>, addressIn: Dn -> Option<Ip>, qtype: seq<byte>, qclass: seq<byte>)

  /** What a query holds. `kept` is everything it has put into the cache; `short` says that room in the response, memory
      or a transmission could not be had. */
  datatype Snapshot =
    Snapshot(loop: nat, level: nat, name: seq<Dn>, control: seq<nat>, ns: seq<seq<Dn>>, servers: seq<seq<Ip>>, response: seq<Event>,
             cache: View, kept: seq<Stored>, visited: seq<Dn>, ttls: seq<nat>, asked: seq<Ask>, short: bool)

  ghost predicate Shaped(s: Snapshot) {
    && s.level < LEVELS == |s.name| == |s.control| == |s.ns| == |s.servers|
    && |s.visited| == |s.ttls| + 1 && |s.servers[s.level]| == SERVERS == |s.ns[s.level]|
  }

  /** The zone of the level is an ending of its name. */
  ghost predicate Zoned(s: Snapshot) {
    Shaped(s) && s.control[s.level] <= |s.name[s.level]|
  }

  function TypeAt(e: Settings, level: nat): (t: seq<byte>) {
    if level > 0 then A else e.qtype
  }

  function Front(e: Settings, s: Snapshot): (es: seq<Event>)
    requires |s.visited| == |s.ttls| + 1
  {
    Chain(s.visited, s.ttls, e.qtype, e.qclass)
  }

  /** The names asked about so far are the same. */
  ghost predicate SameChain(s: Snapshot, t: Snapshot) {
    t.visited == s.visited && t.ttls == s.ttls
  }

  // ---------- a new name ----------

  /** What a new name leads to: an answer that is built in, one out of the cache, or the closest zone that something
      is known of. */
  ghost predicate Leads(e: Settings, s: Snapshot, next: Next, t: Snapshot) {
    && Shaped(s) && t.level == s.level && t.asked == s.asked
    && (next != HaveNs ==> t.control == s.control)
    && (next != Done(1) && next != Die ==> t.name == s.name && (next != HaveNs ==> t.ns == s.ns))
    && match BuiltInFor(e.addressIn, s.name[s.level])
       case Some(x) => BuiltInLeads(e, s, next, t, x)
       case None =>
         var f := Consult(t.cache, s.name[s.level], TypeAt(e, s.level));
         if |s.name[s.level]| <= MAX_NAME && f != Unknown then FoundLeads(e, s, next, t, f)
         else ZoneLeads(s, next, t, ZoneFrom(t.cache, e.roots, !e.forwardOnly && s.level < 2, s.name[s.level], 0))
  }

  ghost predicate BuiltInLeads(e: Settings, s: Snapshot, next: Next, t: Snapshot, x: BuiltInAs)
    requires Shaped(s)
  {
    if s.level > 0 then next == LowerLevel && t.servers == WithBuiltIn(s.servers, s.level, x)
    else
      || (next == Die && t.short)
      || (next == Done(1) && t.response == Front(e, s) + BuiltInAnswer(s.name[s.level], e.qtype, x))
  }

  ghost predicate FoundLeads(e: Settings, s: Snapshot, next: Next, t: Snapshot, f: Finding)
    requires Shaped(s)
  {
    && Told(f, s.level, s.name[s.level], TypeAt(e, s.level), Front(e, s), t.response, next, t.short)
    && t.servers == WithFound(s.servers, s.level, f)
  }

  /** The zone of the level is set to the one found, with what is known of its servers. */
  ghost predicate ZoneLeads(s: Snapshot, next: Next, t: Snapshot, z: Option<Zone>)
    requires Shaped(s)
  {
    match z
    case None => next == Die
    case Some(z) =>
      && next == HaveNs && t.control == s.control[s.level := z.at] && t.servers == s.servers[s.level := z.servers]
      && t.ns == s.ns[s.level := z.names]
  }

  /** Counting a loop and the passing of time in front change nothing else. */
  lemma StillLeads(e: Settings, s: Snapshot, s': Snapshot, next: Next, t: Snapshot)
    requires Leads(e, s', next, t) && s' == s.(loop := s'.loop, cache := s'.cache)
    ensures Leads(e, s, next, t)
  {
    hide Consult, Told, ZoneFrom, BuiltInFor, WithFound, WithBuiltIn, BuiltInAnswer, Chain;
  }

  /** One loop is counted, time passes, and the name is looked for. */
  ghost predicate Named(e: Settings, s: Snapshot, next: Next, t: Snapshot) {
    && t.loop == s.loop + 1 && SameChain(s, t) && Becomes(s.cache, [], t.cache)
    && if t.loop == LOOPS then next == Die else Leads(e, s, next, t)
  }

  // ---------- servers ----------

  /** The first name of a server in the list. */
  predicate IsFirst(list: seq<Dn>, j: nat) {
    j < |list| && list[j] != [] && forall i :: 0 <= i < j ==> list[i] == []
  }

  predicate NoName(list: seq<Dn>) {
    forall j :: 0 <= j < |list| ==> list[j] == []
  }

  predicate NoAddress(list: seq<Ip>) {
    forall k :: 0 <= k < |list| ==> list[k] == NO_IP
  }

  /** With the name of a server and a level to spare the name is looked up first; otherwise the servers are asked, if an
      address of one is known. */
  ghost predicate Served(e: Settings, s: Snapshot, next: Next, t: Snapshot) {
    && Zoned(s) && SameChain(s, t)
    && if s.level + 1 < LEVELS && !NoName(s.ns[s.level]) then
         (next == Die && t == s.(short := true)) || (next == NewName && exists j :: IsFirst(s.ns[s.level], j) && Descended(s, t, j))
       else
         && t.level == s.level && t.name == s.name && t.ns == s.ns[s.level := NoNames()]
         && if NoAddress(s.servers[s.level]) then next == ServFail && t.asked == s.asked
            else (next == Die && t.short) || (next == Done(0) && t.asked == s.asked + [AskedAt(e, s)])
  }

  /** The name of the server is the name of the level above, and is no longer in the list. */
  ghost predicate Descended(s: Snapshot, t: Snapshot, j: nat)
    requires Shaped(s)
  {
    && s.level + 1 < LEVELS && j < SERVERS
    && t == s.(level := s.level + 1, name := s.name[s.level + 1 := s.ns[s.level][j]],
               ns := s.ns[s.level := s.ns[s.level][j := []]])
  }

  function AskedAt(e: Settings, s: Snapshot): (a: Ask)
    requires Zoned(s)
  {
    Ask(s.name[s.level], s.name[s.level][s.control[s.level]..], TypeAt(e, s.level))
  }

  /** The list with its first `j` places empty. */
  function Emptied(list: seq<Dn>, j: nat): (r: seq<Dn>)
    ensures |r| == |list|
  {
    seq(|list|, i requires 0 <= i < |list| => if i < j then [] else list[i])
  }

  lemma Unchanged(list: seq<Dn>)
    ensures Emptied(list, 0) == list && NoName(list[..0])
  {
  }

  lemma EmptiedNext(list: seq<Dn>, j: nat)
    requires j < |list|
    ensures Emptied(list, j)[j] == list[j] && Emptied(list, j)[j := []] == Emptied(list, j + 1)
    ensures list[j] == [] ==> Emptied(list, j) == Emptied(list, j + 1) && (NoName(list[..j]) ==> NoName(list[..j + 1]))
  {
  }

  lemma NoneLeft(list: seq<Dn>)
    requires |list| == SERVERS
    ensures Emptied(list, SERVERS) == NoNames()
    ensures NoName(list[..SERVERS]) ==> NoName(list) && list == NoNames()
  {
    assert list[..SERVERS] == list;
  }

  lemma FirstHere(list: seq<Dn>, j: nat)
    requires j < |list| && NoName(list[..j]) && list[j] != []
    ensures IsFirst(list, j) && !NoName(list)
  {
    assert forall i :: 0 <= i < j ==> list[..j][i] == list[i];
  }

  lemma FirstThere(list: seq<Dn>) returns (j: nat)
    requires !NoName(list)
    ensures IsFirst(list, j)
  {
    j := 0;
    while list[j] == []
      invariant j < |list| && (forall i :: 0 <= i < j ==> list[i] == []) && !NoName(list)
      decreases |list| - j
    {
      if j + 1 == |list| {
        assert NoName(list);
      }
      j := j + 1;
    }
  }

  lemma FirstUnique(list: seq<Dn>, i: nat, j: nat)
    requires IsFirst(list, i) && IsFirst(list, j)
    ensures i == j
  {
  }

  // ---------- the other labels ----------

  ghost predicate Lowered(s: Snapshot, next: Next, t: Snapshot) {
    && Shaped(s) && s.level > 0 && next == HaveNs
    && t == s.(level := s.level - 1, name := s.name[s.level := []], ns := s.ns[s.level := NoNames()])
  }

  /** The alias is followed; on level 0 it joins the chain, unless the chain is full. */
  ghost predicate Renamed(target: Dn, ttl: nat, s: Snapshot, next: Next, t: Snapshot) {
    && Shaped(s)
    && if s.level == 0 && |s.ttls| == ALIASES then next == Die
       else
         || (next == Die && t.short)
         || (next == NewName && t == s.(name := s.name[s.level := target],
                                        visited := if s.level == 0 then s.visited + [target] else s.visited,
                                        ttls := if s.level == 0 then s.ttls + [ttl] else s.ttls))
  }

  /** The level is given up, or the chain is answered with nothing but the event. */
  ghost predicate GivenUp(e: Settings, x: Event, s: Snapshot, next: Next, t: Snapshot) {
    && Shaped(s)
    && if s.level > 0 then next == LowerLevel && t == s
       else
         && SameChain(s, t)
         && ((next == Die && t.short) || (next == Done(1) && t.response == Front(e, s) + [x]))
  }

  // ---------- a packet ----------

  /** What a packet leads to. A referral that is not inside the zone is passed over. An alias comes first, then the
      lack of the name, then an answer or the lack of records, and a referral only when there is nothing else. */
  ghost predicate LeadsOn(e: Settings, s: Snapshot, buf: seq<byte>, from: Option<nat>, r: Reply, next: Next, t: Snapshot) {
    && Zoned(s)
    && var d := s.name[s.level];
       if IsLame(r, d[s.control[s.level]..]) then
         next == HaveNs && t.control == s.control && t.ns == s.ns && t.name == s.name && IsForgotten(from, s, t)
       else if r.an.alias.Some? then
         next == Cname(r.an.alias.value.name, r.an.alias.value.ttl) && Unmoved(s, t) && t.servers == s.servers
       else if r.missing then next == NxDomain && Unmoved(s, t) && t.servers == s.servers
       else if r.an.out || r.au.soa || r.au.referral == None then
         if s.level > 0 then next == LowerLevel && Unmoved(s, t) && TookAddresses(buf, r.sections, d, s.level, s.servers, t.servers)
         else
           && next == Done(1)
           && AnswersFollow(Front(e, s), t.response, buf, r.sections.posanswers, r.sections.numanswers, d, e.qtype)
       else next == HaveNs && t.name == s.name && WentOn(s, t, buf, r.sections, r.au.referral.value)
  }

  ghost predicate Unmoved(s: Snapshot, t: Snapshot) {
    t.name == s.name && t.control == s.control && t.ns == s.ns
  }

  /** The address of the server that answered is gone, if it was asked by this query itself. */
  ghost predicate IsForgotten(from: Option<nat>, s: Snapshot, t: Snapshot)
    requires Shaped(s)
  {
    t.servers == if from.Some? && from.value < SERVERS then s.servers[s.level := Forgotten(s.servers[s.level], from.value)] else s.servers
  }

  function Forgotten(list: seq<Ip>, k: nat): (r: seq<Ip>)
    requires k < |list|
  {
    list[k := NO_IP]
  }

  /** The zone of the level has become the referral, a longer ending of the name, with the servers that the packet
      names for it and no addresses. */
  ghost predicate WentOn(s: Snapshot, t: Snapshot, buf: seq<byte>, sections: Sections, referral: Dn)
    requires Shaped(s)
  {
    var d := s.name[s.level];
    && EndsIn(d, referral) && |d| - |referral| < s.control[s.level] && t.control == s.control[s.level := |d| - |referral|]
    && t.servers == s.servers[s.level := NoServers()]
    && |t.ns| == LEVELS && t.ns == s.ns[s.level := t.ns[s.level]] && NamesServers(buf, sections, referral, t.ns[s.level])
  }

  /** A packet has been gone through; everything it puts into the cache is for names inside the zone asked. */
  ghost predicate Weighed(e: Settings, s: Snapshot, buf: seq<byte>, from: Option<nat>, r: Reply, puts: seq<Stored>, next: Next, t: Snapshot) {
    && Zoned(s)
    && var d := s.name[s.level];
       var zone := d[s.control[s.level]..];
       && PutsFrom(buf, r, zone, e.roots, d, TypeAt(e, s.level), puts) && AllInside(puts, zone)
       && Becomes(s.cache, puts, t.cache) && t.kept == s.kept + puts
       && if next == Die then
            !IsLame(r, zone) && (Spoils(buf, r.sections, zone, e.roots) || MayFail(buf, r, s.level, d, TypeAt(e, s.level), t.short))
          else LeadsOn(e, s, buf, from, r, next, t)
  }

  /** A packet has arrived: it counts as a loop, and ends the query when it cannot be read. */
  ghost predicate Heard(e: Settings, s: Snapshot, buf: seq<byte>, from: Option<nat>, puts: seq<Stored>, next: Next, t: Snapshot) {
    && Zoned(s) && t.loop == s.loop + 1 && t.level == s.level && SameChain(s, t) && t.asked == s.asked
    && if t.loop == LOOPS then next == Die && puts == [] && t.kept == s.kept
       else match ReplyIn(buf, s.name[s.level], TypeAt(e, s.level))
         case None => next == Die && puts == [] && t.kept == s.kept
         case Some(r) => Weighed(e, s, buf, from, r, puts, next, t)
  }

  /** Counting a loop and what has happened to the cache in front change nothing else. */
  lemma StillLeadsOn(e: Settings, s: Snapshot, s': Snapshot, buf: seq<byte>, from: Option<nat>, r: Reply, next: Next, t: Snapshot)
    requires LeadsOn(e, s', buf, from, r, next, t) && s' == s.(loop := s'.loop, cache := s'.cache, kept := s'.kept)
    ensures LeadsOn(e, s, buf, from, r, next, t)
  {
    hide IsLame, TookAddresses, AnswersFollow, NamesServers, EndsIn, Chain;
  }

  lemma StillWeighed(e: Settings, s: Snapshot, s': Snapshot, buf: seq<byte>, from: Option<nat>, r: Reply, puts: seq<Stored>, next: Next, t: Snapshot)
    requires Weighed(e, s', buf, from, r, puts, next, t) && s' == s.(loop := s'.loop)
    ensures Weighed(e, s, buf, from, r, puts, next, t)
  {
    hide LeadsOn, IsLame, Spoils, MayFail, PutsFrom, AllInside, Becomes;
    if next != Die { StillLeadsOn(e, s, s', buf, from, r, next, t); }
  }

  lemma LameIsWeighed(e: Settings, s: Snapshot, buf: seq<byte>, from: Option<nat>, r: Reply, t: Snapshot)
    requires Zoned(s) && IsLame(r, s.name[s.level][s.control[s.level]..]) && Becomes(s.cache, [], t.cache) && t.kept == s.kept
    requires t.control == s.control && t.ns == s.ns && t.name == s.name && IsForgotten(from, s, t)
    ensures Weighed(e, s, buf, from, r, [], HaveNs, t)
  {
    hide IsLame, Becomes, IsForgotten;
  }

  lemma SpoiltIsWeighed(e: Settings, s: Snapshot, buf: seq<byte>, from: Option<nat>, r: Reply, stored: seq<Stored>, t: Snapshot)
    requires Zoned(s) && Becomes(s.cache, stored, t.cache) && t.kept == s.kept + stored
    requires var d := s.name[s.level];
             var zone := d[s.control[s.level]..];
             && !IsLame(r, zone) && StoredFrom(buf, r.sections, zone, e.roots, false, stored)
             && PutsFrom(buf, r, zone, e.roots, d, TypeAt(e, s.level), stored)
             && WellFormed(d) && IsSuffix(d, zone) && |TypeAt(e, s.level)| == 2
    ensures Weighed(e, s, buf, from, r, stored, Die, t)
  {
    hide IsLame, Becomes, StoredFrom, PutsFrom, AllInside, WellFormed, IsSuffix;
    PutsInside(buf, r, s.name[s.level][s.control[s.level]..], e.roots, s.name[s.level], TypeAt(e, s.level), stored);
  }

  /** The sets have been stored, then the rest was decided. */
  lemma SettledIsWeighed(e: Settings, s: Snapshot, between: Snapshot, buf: seq<byte>, from: Option<nat>, r: Reply, stored: seq<Stored>, next: Next,
                         t: Snapshot)
    requires Zoned(s) && Becomes(s.cache, stored, between.cache) && between == s.(cache := between.cache, kept := s.kept + stored)
    requires var d := s.name[s.level];
             var zone := d[s.control[s.level]..];
             var dtype := TypeAt(e, s.level);
             var lack := Lack(d, dtype, r.missing, r.an, r.au);
             && !IsLame(r, zone) && Becomes(between.cache, lack, t.cache) && t.kept == between.kept + lack
             && PutsFrom(buf, r, zone, e.roots, d, dtype, stored + lack)
             && WellFormed(d) && IsSuffix(d, zone) && |dtype| == 2
             && if next == Die then MayFail(buf, r, s.level, d, dtype, t.short) else LeadsOn(e, between, buf, from, r, next, t)
    ensures var lack := Lack(s.name[s.level], TypeAt(e, s.level), r.missing, r.an, r.au);
            Weighed(e, s, buf, from, r, stored + lack, next, t)
  {
    hide IsLame, Becomes, PutsFrom, AllInside, WellFormed, IsSuffix, Lack, MayFail, LeadsOn, Spoils;
    var d, dtype := s.name[s.level], TypeAt(e, s.level);
    var zone, lack := d[s.control[s.level]..], Lack(d, dtype, r.missing, r.an, r.au);
    PutsInside(buf, r, zone, e.roots, d, dtype, stored + lack);
    BecomesTwice(s.cache, stored, between.cache, lack, t.cache);
    if next != Die { StillLeadsOn(e, s, between, buf, from, r, next, t); }
  }

  // ---------- runs ----------

  /** What is left to do at a label: falls at every step, or stays while the label gets a lower rank. */
  function Left(here: Next, s: Snapshot): (n: int) {
    Measure(s.loop, s.level) - if here.NewName? then 1 else 0
  }

  function Rank(here: Next): (n: nat) {
    match here
    case HaveNs => 5
    case Cname(_, _) => 4
    case NxDomain => 4
    case ServFail => 4
    case LowerLevel => 3
    case NewName => 2
    case Die => 1
    case Done(_) => 0
  }

  predicate Falls(here: Next, s: Snapshot, next: Next, t: Snapshot) {
    Left(next, t) < Left(here, s) || (Left(next, t) == Left(here, s) && Rank(next) < Rank(here))
  }

  /** From one label to the next. */
  ghost predicate Stepped(e: Settings, here: Next, s: Snapshot, next: Next, t: Snapshot) {
    t.kept == s.kept
    && match here
    case NewName => Named(e, s, next, t)
    case HaveNs => Served(e, s, next, t)
    case LowerLevel => Lowered(s, next, t)
    case Cname(target, ttl) => Renamed(target, ttl, s, next, t)
    case NxDomain => GivenUp(e, NoSuchName, s, next, t)
    case ServFail => GivenUp(e, Failure, s, next, t)
    case Die => next == Done(-1) && SameChain(s, t) && t.short == s.short
    case Done(_) => false
  }

  /** A label and what the query holds there. */
  datatype Stop = Stop(here: Next, s: Snapshot)

  ghost predicate StepAt(e: Settings, run: seq<Stop>, i: nat)
    requires i + 1 < |run|
  {
    Stepped(e, run[i].here, run[i].s, run[i + 1].here, run[i + 1].s)
  }

  /** A run goes from the first stop to the last one, step by step. */
  ghost predicate Chained(e: Settings, run: seq<Stop>) {
    run != [] && forall i: nat :: i + 1 < |run| ==> StepAt(e, run, i)
  }

  lemma ChainedMore(e: Settings, run: seq<Stop>, next: Next, t: Snapshot)
    requires Chained(e, run) && Stepped(e, run[|run| - 1].here, run[|run| - 1].s, next, t)
    ensures Chained(e, run + [Stop(next, t)])
  {
    hide Stepped;
    var more := run + [Stop(next, t)];
    forall i: nat | i + 1 < |more|
      ensures StepAt(e, more, i)
    {
      if i + 1 < |run| { assert StepAt(e, run, i); }
    }
  }

  /** The run has ended with the result. */
  ghost predicate Ends(e: Settings, run: seq<Stop>, start: Stop, result: int, t: Snapshot) {
    run != [] && Chained(e, run) && run[0] == start && run[|run| - 1] == Stop(Done(result), t)
  }

  lemma EndsBegins(e: Settings, run: seq<Stop>, start: Stop, result: int, t: Snapshot)
    requires Ends(e, run, start, result, t)
    ensures run != [] && run[0] == start
  {
    hide Chained;
  }

  lemma FirstStep(e: Settings, run: seq<Stop>, start: Stop, result: int, t: Snapshot)
    requires Ends(e, run, start, result, t) && !start.here.Done?
    ensures |run| > 1 && Stepped(e, start.here, start.s, run[1].here, run[1].s)
    ensures Ends(e, run[1..], run[1], result, t)
  {
    hide Stepped;
    assert StepAt(e, run, 0);
    forall i: nat | i + 1 < |run[1..]|
      ensures StepAt(e, run[1..], i)
    {
      assert StepAt(e, run, i + 1);
    }
  }

  lemma AtEnd(e: Settings, run: seq<Stop>, start: Stop, result: int, t: Snapshot)
    requires Ends(e, run, start, result, t) && start.here.Done?
    ensures start == Stop(Done(result), t)
  {
    hide StepAt;
    if |run| > 1 { NoStepAt(e, run, 0); }
  }

  lemma NoStepAt(e: Settings, run: seq<Stop>, i: nat)
    requires i + 1 < |run| && run[i].here.Done?
    ensures !StepAt(e, run, i)
  {
  }

  lemma Dies(e: Settings, run: seq<Stop>, start: Stop, result: int, t: Snapshot)
    requires Ends(e, run, start, result, t) && start.here == Die
    ensures result == -1 && t.short == start.s.short
  {
    FirstStep(e, run, start, result, t);
    AtEnd(e, run[1..], run[1], result, t);
  }

  /** Giving up on level 0 ends the query at once: with the chain and the event, or for want of room. */
  lemma GivesUp(e: Settings, run: seq<Stop>, start: Stop, result: int, t: Snapshot, x: Event)
    requires Ends(e, run, start, result, t) && start.s.level == 0
    requires (start.here == ServFail && x == Failure) || (start.here == NxDomain && x == NoSuchName)
    ensures |start.s.visited| == |start.s.ttls| + 1
    ensures (result == 1 && t.response == Front(e, start.s) + [x]) || (result == -1 && t.short)
  {
    hide Chain;
    FirstStep(e, run, start, result, t);
    if run[1].here == Die {
      Dies(e, run[1..], run[1], result, t);
    } else {
      AtEnd(e, run[1..], run[1], result, t);
    }
  }

  lemma StepKeepsNames(e: Settings, here: Next, s: Snapshot, next: Next, t: Snapshot)
    requires Stepped(e, here, s, next, t) && next != Die && !(here == Die)
    ensures s.visited <= t.visited && s.ttls <= t.ttls
  {
    hide Leads, Becomes, Descended, Chain;
  }

  /** A run that does not fail only ever adds to the names asked about. */
  lemma {:induction false} NamesKept(e: Settings, run: seq<Stop>, start: Stop, result: int, t: Snapshot)
    requires Ends(e, run, start, result, t) && result != -1
    ensures start.s.visited <= t.visited && start.s.ttls <= t.ttls
    decreases |run|
  {
    hide Stepped;
    if start.here.Done? {
      AtEnd(e, run, start, result, t);
    } else {
      if start.here == Die { Dies(e, run, start, result, t); }
      FirstStep(e, run, start, result, t);
      if run[1].here == Die { Dies(e, run[1..], run[1], result, t); }
      StepKeepsNames(e, start.here, start.s, run[1].here, run[1].s);
      NamesKept(e, run[1..], run[1], result, t);
    }
  }

  /** An alias on level 0 joins the chain, whatever comes behind it; when the chain is full the query fails. */
  lemma AliasJoins(e: Settings, run: seq<Stop>, start: Stop, result: int, t: Snapshot, target: Dn, ttl: nat)
    requires Ends(e, run, start, result, t) && start.here == Cname(target, ttl) && start.s.level == 0
    ensures |start.s.ttls| == ALIASES ==> result == -1
    ensures result != -1 ==> start.s.visited + [target] <= t.visited && start.s.ttls + [ttl] <= t.ttls
  {
    FirstStep(e, run, start, result, t);
    if run[1].here == Die { Dies(e, run[1..], run[1], result, t); }
    if result != -1 { NamesKept(e, run[1..], run[1], result, t); }
  }

  /** A query that has just begun: nothing but the name is known. */
  ghost predicate Fresh(cache: View, d: Dn, s: Snapshot) {
    && s.loop == 0 && s.level == 0 && |s.name| == LEVELS && s.name[0] == d && s.cache == cache
    && s.visited == [d] && s.ttls == [] && s.asked == [] && s.kept == [] && !s.short
  }

  // ---------- what a packet comes to ----------

  /** What a packet comes to for a query that waits on level 0, if it is not lame and no set in it is broken: failure
      when it cannot be read, else the next alias, that the name is missing, or the records that answer. */
  ghost predicate Concludes(e: Settings, s: Snapshot, buf: seq<byte>, result: int, t: Snapshot) {
    && Zoned(s)
    && (s.level == 0 && s.loop + 1 < LOOPS ==>
          var d := s.name[0];
          match ReplyIn(buf, d, e.qtype)
          case None => result == -1
          case Some(r) =>
            var zone := d[s.control[0]..];
            !IsLame(r, zone) && !Spoils(buf, r.sections, zone, e.roots) ==> Says(e, s, buf, r, result, t))
  }

  ghost predicate Says(e: Settings, s: Snapshot, buf: seq<byte>, r: Reply, result: int, t: Snapshot)
    requires Zoned(s)
  {
    if r.an.alias.Some? then
      && (|s.ttls| == ALIASES ==> result == -1)
      && (result != -1 ==>
            s.visited + [r.an.alias.value.name] <= t.visited && s.ttls + [r.an.alias.value.ttl] <= t.ttls)
    else if r.missing then (result == 1 && t.response == Front(e, s) + [NoSuchName]) || (result == -1 && t.short)
    else if r.an.out || r.au.soa || r.au.referral == None then
      var p, n := r.sections.posanswers, r.sections.numanswers;
      || (result == 1 && AnswersFollow(Front(e, s), t.response, buf, p, n, s.name[0], e.qtype))
      || (result == -1 && (t.short || !DataReadable(buf, p, n, s.name[0], e.qtype)))
    else true
  }

  lemma SaysSo(e: Settings, s: Snapshot, buf: seq<byte>, from: Option<nat>, r: Reply, run: seq<Stop>, start: Stop, result: int, t: Snapshot)
    requires Ends(e, run, start, result, t) && start.here != Die && s.level == 0 && start.s.level == 0 && SameChain(s, start.s)
    requires LeadsOn(e, s, buf, from, r, start.here, start.s) && Zoned(s) && !IsLame(r, s.name[0][s.control[0]..])
    ensures Says(e, s, buf, r, result, t)
  {
    hide Chain, AnswersFollow, DataReadable, Ends, IsLame, WentOn, Stepped;
    if r.an.alias.Some? {
      AliasJoins(e, run, start, result, t, r.an.alias.value.name, r.an.alias.value.ttl);
    } else if r.missing {
      GivesUp(e, run, start, result, t, NoSuchName);
    } else if r.an.out || r.au.soa || r.au.referral == None {
      AtEnd(e, run, start, result, t);
    }
  }

  lemma MayFailSays(e: Settings, s: Snapshot, buf: seq<byte>, r: Reply, t: Snapshot, short: bool)
    requires Zoned(s) && s.level == 0 && MayFail(buf, r, 0, s.name[0], e.qtype, short) && short == t.short
    ensures Says(e, s, buf, r, -1, t)
  {
    hide AnswersFollow, DataReadable, EndsIn, ReferralReadable;
  }

  /** The packet decides. */
  lemma Concluded(e: Settings, s: Snapshot, buf: seq<byte>, from: Option<nat>, puts: seq<Stored>, run: seq<Stop>, start: Stop, result: int, t: Snapshot)
    requires Heard(e, s, buf, from, puts, start.here, start.s) && Ends(e, run, start, result, t)
    ensures Concludes(e, s, buf, result, t)
  {
    hide Says, LeadsOn, IsLame, Spoils, MayFail, Ends, PutsFrom, AllInside, ReplyIn;
    if s.level == 0 && s.loop + 1 < LOOPS {
      match ReplyIn(buf, s.name[0], e.qtype)
      case None => Dies(e, run, start, result, t);
      case Some(r) =>
        if start.here == Die {
          Dies(e, run, start, result, t);
          if MayFail(buf, r, 0, s.name[0], e.qtype, start.s.short) { MayFailSays(e, s, buf, r, t, start.s.short); }
        } else if !IsLame(r, s.name[0][s.control[0]..]) {
          SaysSo(e, s, buf, from, r, run, start, result, t);
        }
    }
  }

  lemma FirstSlot(ds: seq<Dn>)
    requires ds != [] && AllDomains(ds)
    ensures IsFirst(Slots(ds), 0) && Slots(ds)[0] == ds[0] && !NoName(Slots(ds))
  {
  }

  /** A referral that is followed leads to the first server that the packet names for the new zone: its name is looked
      up on the level above, unless memory is short. */
  lemma ReferralAsks(e: Settings, s: Snapshot, buf: seq<byte>, from: Option<nat>, puts: seq<Stored>, r: Reply, run: seq<Stop>, start: Stop, result: int,
                     t: Snapshot)
    requires Heard(e, s, buf, from, puts, start.here, start.s) && Ends(e, run, start, result, t) && start.here != Die
    requires s.loop + 1 < LOOPS && s.level + 1 < LEVELS && ReplyIn(buf, s.name[s.level], TypeAt(e, s.level)) == Some(r)
    requires !IsLame(r, s.name[s.level][s.control[s.level]..])
    requires r.an.alias == None && !r.missing && !r.an.out && !r.au.soa && r.au.referral.Some?
    requires Positions(buf, r.sections.posauthority, r.sections.numauthority).Some?
    requires var ps := Positions(buf, r.sections.posauthority, r.sections.numauthority).value;
             var ds := ReferredIn(buf, ps, r.au.referral.value); ds.Some? && ds.value != []
    ensures start.here == HaveNs && |run| > 1
    ensures var ps := Positions(buf, r.sections.posauthority, r.sections.numauthority).value;
            || (run[1].here == Die && run[1].s.short)
            || (run[1].here == NewName && run[1].s.level == s.level + 1
                && run[1].s.name == s.name[s.level + 1 := ReferredIn(buf, ps, r.au.referral.value).value[0]])
  {
    hide IsLame, PutsFrom, AllInside, Becomes, Positions, ReferredIn, EndsIn, Slots, AllDomains;
    FirstStep(e, run, start, result, t);
    var ps := Positions(buf, r.sections.posauthority, r.sections.numauthority).value;
    var ds := ReferredIn(buf, ps, r.au.referral.value).value;
    FirstSlot(ds);
    if run[1].here == NewName {
      var j :| IsFirst(start.s.ns[s.level], j) && Descended(start.s, run[1].s, j);
      FirstUnique(start.s.ns[s.level], j, 0);
    }
  }
}
