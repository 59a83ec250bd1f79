/** What holds of a query of the iterative resolver at every label of its state machine. */
module ResolverState {
  import opened Bytes
  import opened Domain
  import opened Scan

  const LEVELS := 5
  const SERVERS := 16
  const ALIASES := 16
  const LOOPS := 100
  const MAX_ASKED := 491

  type Dn = seq<byte>

  /** The labels of the state machine. `Done` carries the result of the call: 0 while a packet is awaited, 1 for
      an answer, -1 for failure. */
  datatype Next =
    | NewName
    | HaveNs
    | LowerLevel
    | Cname(target: Dn, ttl: nat)
    | NxDomain
    | ServFail
    | Die
    | Done(result: int)

  // ---------- the names of the levels ----------

  ghost predicate NameOrNull(d: Dn) {
    d == [] || WellFormed(d)
  }

  ghost predicate ServerNames(list: seq<Dn>) {
    |list| == SERVERS && forall j :: 0 <= j < SERVERS ==> NameOrNull(list[j])
  }

  ghost predicate AllServerNames(ns: seq<seq<Dn>>) {
    |ns| == LEVELS && forall l :: 0 <= l < LEVELS ==> ServerNames(ns[l])
  }

  ghost predicate AllServers(servers: seq<seq<Ip>>) {
    |servers| == LEVELS && forall l :: 0 <= l < LEVELS ==> |servers[l]| == SERVERS
  }

  /** Every level in use has a name. */
  ghost predicate Names(name: seq<Dn>, level: nat) {
    level < LEVELS == |name| && forall l :: 0 <= l <= level ==> WellFormed(name[l])
  }

  /** On the first `n` levels the zone asked about is a tail of the name. */
  ghost predicate Zones(name: seq<Dn>, control: seq<nat>, n: nat) {
    && n <= LEVELS == |name| == |control|
    && forall l :: 0 <= l < n ==> InZone(name[l], control[l])
  }

  ghost predicate InZone(d: Dn, c: nat) {
    WellFormed(d) && Boundary(d, c)
  }

  /** A new name on the level above leaves the levels below alone. */
  lemma ZonesBelow(name: seq<Dn>, control: seq<nat>, n: nat, d: Dn)
    requires Zones(name, control, n) && n < LEVELS
    ensures |name| == LEVELS && Zones(name[n := d], control, n)
  {
  }

  // ---------- the aliases ----------

  /** The aliases are the names that led to the current one, latest first, followed by nothing. */
  ghost predicate Aliases(alias: seq<Dn>, aliasttl: seq<nat>, top: Dn, visited: seq<Dn>, ttls: seq<nat>) {
    && |alias| == ALIASES == |aliasttl| && |ttls| <= ALIASES && |visited| == |ttls| + 1
    && visited[|ttls|] == top
    && (forall i :: 0 <= i < |visited| ==> WellFormed(visited[i]))
    && (forall i :: 0 <= i < |ttls| ==> alias[i] == visited[|ttls| - 1 - i] && aliasttl[i] == ttls[|ttls| - 1 - i])
    && (forall i :: |ttls| <= i < ALIASES ==> alias[i] == [])
  }

  /** Which aliases there are: exactly the first ones. */
  lemma AliasesArePrefix(alias: seq<Dn>, aliasttl: seq<nat>, top: Dn, visited: seq<Dn>, ttls: seq<nat>, i: nat)
    requires Aliases(alias, aliasttl, top, visited, ttls) && i < ALIASES
    ensures alias[i] != [] <==> i < |ttls|
  {
    if i < |ttls| { NotEmpty(visited[|ttls| - 1 - i]); }
  }

  /** A query begins without aliases, on level 0. */
  lemma NewQuery(name: seq<Dn>, control: seq<nat>, alias: seq<Dn>, aliasttl: seq<nat>, dn: Dn)
    requires |name| == LEVELS == |control| && |aliasttl| == ALIASES && WellFormed(dn)
    requires |alias| == ALIASES && forall i :: 0 <= i < ALIASES ==> alias[i] == []
    ensures Aliases(alias, aliasttl, dn, [dn], []) && Asks([])
    ensures Zones(name[0 := dn], control, 0) && Names(name[0 := dn], 0)
  {
  }

  lemma FollowAlias(alias: seq<Dn>, aliasttl: seq<nat>, top: Dn, visited: seq<Dn>, ttls: seq<nat>, target: Dn, ttl: nat)
    requires Aliases(alias, aliasttl, top, visited, ttls) && alias[ALIASES - 1] == [] && WellFormed(target)
    ensures Aliases([top] + alias[..ALIASES - 1], [ttl] + aliasttl[..ALIASES - 1], target, visited + [target], ttls + [ttl])
  {
    AliasesArePrefix(alias, aliasttl, top, visited, ttls, ALIASES - 1);
  }

  // ---------- the response ----------

  datatype Part = Name(d: Dn) | Raw(b: seq<byte>)

  datatype Event =
    | Question(d: Dn, qtype: seq<byte>, qclass: seq<byte>)
    | Alias(owner: Dn, target: Dn, ttl: nat)
    | Answer(owner: Dn, rtype: seq<byte>, ttl: nat, parts: seq<Part>)
    | NoSuchName
    | Failure

  /** The original question, and one alias record for every step from its name to the last one visited. */
  function Chain(visited: seq<Dn>, ttls: seq<nat>, qtype: seq<byte>, qclass: seq<byte>): (es: seq<Event>)
    requires |visited| == |ttls| + 1
    ensures |es| == 1 + |ttls|
  {
    if ttls == [] then [Question(visited[0], qtype, qclass)]
    else
      var n := |ttls| - 1;
      Chain(visited[..n + 1], ttls[..n], qtype, qclass) + [Alias(visited[n], visited[n + 1], ttls[n])]
  }

  /** What may stand behind the chain: records of the type asked for, owned by the last name. */
  ghost predicate Proper(e: Event, d: Dn, qtype: seq<byte>) {
    match e
    case Question(_, _, _) => false
    case Alias(owner, _, _) => owner == d && TypeMatch(CNAME, qtype)
    case Answer(owner, rtype, _, _) => Same(owner, d) && TypeMatch(rtype, qtype)
    case NoSuchName => true
    case Failure => true
  }

  ghost predicate Answered(es: seq<Event>, visited: seq<Dn>, ttls: seq<nat>, qtype: seq<byte>, qclass: seq<byte>) {
    && |visited| == |ttls| + 1
    && Chain(visited, ttls, qtype, qclass) <= es
    && forall k :: 1 + |ttls| <= k < |es| ==> Proper(es[k], visited[|ttls|], qtype)
  }

  lemma AnsweredMore(es: seq<Event>, e: Event, visited: seq<Dn>, ttls: seq<nat>, qtype: seq<byte>, qclass: seq<byte>)
    requires Answered(es, visited, ttls, qtype, qclass) && Proper(e, visited[|ttls|], qtype)
    ensures Answered(es + [e], visited, ttls, qtype, qclass)
  {
    hide Proper;
  }

  lemma ChainPrefix(visited: seq<Dn>, ttls: seq<nat>, qtype: seq<byte>, qclass: seq<byte>, m: nat)
    requires |visited| == |ttls| + 1 && m < |ttls|
    ensures Chain(visited[..m + 2], ttls[..m + 1], qtype, qclass) ==
            Chain(visited[..m + 1], ttls[..m], qtype, qclass) + [Alias(visited[m], visited[m + 1], ttls[m])]
  {
    assert visited[..m + 2][..m + 1] == visited[..m + 1] && ttls[..m + 1][..m] == ttls[..m];
  }

  /** The `m`-th link of the chain in terms of the aliases, which are stored in the opposite order. */
  lemma ChainLink(alias: seq<Dn>, aliasttl: seq<nat>, top: Dn, visited: seq<Dn>, ttls: seq<nat>,
                  qtype: seq<byte>, qclass: seq<byte>, i: nat)
    requires Aliases(alias, aliasttl, top, visited, ttls) && i < |ttls|
    ensures |visited| == |ttls| + 1 && |alias| == |aliasttl| == ALIASES && i < ALIASES
    ensures var m := |ttls| - 1 - i;
            Chain(visited[..m + 2], ttls[..m + 1], qtype, qclass) ==
            Chain(visited[..m + 1], ttls[..m], qtype, qclass)
            + [Alias(alias[i], if i > 0 then alias[i - 1] else top, aliasttl[i])]
  {
    ChainPrefix(visited, ttls, qtype, qclass, |ttls| - 1 - i);
  }

  lemma ChainDone(visited: seq<Dn>, ttls: seq<nat>, qtype: seq<byte>, qclass: seq<byte>)
    requires |visited| == |ttls| + 1
    ensures Chain(visited[..|ttls| + 1], ttls[..|ttls|], qtype, qclass) == Chain(visited, ttls, qtype, qclass)
    ensures Answered(Chain(visited, ttls, qtype, qclass), visited, ttls, qtype, qclass)
  {
    assert visited[..|ttls| + 1] == visited && ttls[..|ttls|] == ttls;
  }

  lemma ChainFirst(alias: seq<Dn>, aliasttl: seq<nat>, top: Dn, visited: seq<Dn>, ttls: seq<nat>,
                   qtype: seq<byte>, qclass: seq<byte>)
    requires Aliases(alias, aliasttl, top, visited, ttls)
    ensures |alias| == ALIASES && |visited| == |ttls| + 1 && |ttls| <= ALIASES
    ensures Chain(visited[..1], ttls[..0], qtype, qclass) ==
            [Question(if ttls == [] then top else alias[|ttls| - 1], qtype, qclass)]
  {
  }

  lemma Associate<T>(a: seq<T>, b: seq<T>, x: T)
    ensures a + b + [x] == a + (b + [x])
  {
  }

  // ---------- progress ----------

  ghost predicate Falling(v: seq<nat>) {
    forall i, j :: 0 <= i < j < |v| ==> v[i] > v[j]
  }

  /** The measure: five for every loop left, and the level. */
  function Measure(loop: nat, level: nat): (m: int) {
    5 * (LOOPS - loop) + level
  }

  /** The measures at the visits so far fall, starting below 496, and have not fallen below `m`. */
  ghost predicate Progress(visits: seq<nat>, m: int) {
    && Falling(visits)
    && (visits != [] ==> visits[0] <= 495 && visits[|visits| - 1] >= m)
  }

  lemma Visit(visits: seq<nat>, m: int, v: nat)
    requires Progress(visits, m) && v < m && (visits == [] ==> v <= 495)
    ensures Progress(visits + [v], v)
  {
  }

  lemma NoVisits()
    ensures forall m :: Progress([], m)
  {
  }

  lemma ProgressLess(visits: seq<nat>, m: int)
    requires Progress(visits, m)
    ensures Progress(visits, m - 1)
  {
  }

  lemma {:induction false} FallingBound(v: seq<nat>)
    requires Falling(v) && v != []
    ensures |v| <= v[0] - v[|v| - 1] + 1
  {
    if |v| > 1 { FallingBound(v[..|v| - 1]); }
  }

  /** A query visits its labels at most 496 times. */
  lemma VisitsBounded(visits: seq<nat>, m: int)
    requires Progress(visits, m)
    ensures |visits| <= 496
    ensures visits != [] ==> |visits| <= 496 - m
  {
    if visits != [] { FallingBound(visits); }
  }

  // ---------- the questions sent ----------

  /** A question put to the servers of a zone. */
  datatype Ask = Ask(name: Dn, zone: Dn, qtype: seq<byte>)

  ghost predicate Asks(asked: seq<Ask>) {
    forall i :: 0 <= i < |asked| ==> WellFormed(asked[i].name) && IsSuffix(asked[i].name, asked[i].zone)
  }

  lemma ZoneIsSuffix(d: Dn, c: nat)
    requires InZone(d, c)
    ensures c < |d| && IsSuffix(d, d[c..])
  {
    BoundaryTail(d, c);
  }

  lemma AsksMore(asked: seq<Ask>, d: Dn, c: nat, qtype: seq<byte>)
    requires Asks(asked) && InZone(d, c)
    ensures c < |d| && Asks(asked + [Ask(d, d[c..], qtype)])
  {
    ZoneIsSuffix(d, c);
    hide IsSuffix;
  }

  /** Going on to a referral from a zone strictly inside the name's current one lengthens the zone. */
  lemma ReferralIsLonger(d: Dn, c: nat, referral: Dn)
    requires InZone(d, c) && c < |d| && IsSuffix(d, referral) && WellFormed(referral)
    requires WellFormed(d[c..]) && !Same(referral, d[c..]) && IsSuffix(referral, d[c..])
    ensures |d| - |referral| < c && InZone(d, |d| - |referral|)
  {
    assert referral[0..] == referral;
  }
}
