/** What a query sees of the cache and of the list of root servers, and what it makes of them. */
module CacheView {
  import opened Bytes
  import opened Domain
  import opened Records
  import opened Scan
  import opened ResolverState
  import opened SetData
  import opened CacheSets
  import opened Roots
  import opened Replies

  /** Type and name in lower case, with the data and what is left of the time to live. */
  type View = map<seq<byte>, Cached>

  function KeyFor(t: seq<byte>, d: Dn): (k: seq<byte>) {
    t + Fold(d)
  }

  function Lookup(v: View, t: seq<byte>, d: Dn): (c: Option<Cached>) {
    if KeyFor(t, d) in v then Some(v[KeyFor(t, d)]) else None
  }

  ghost predicate ViewOk(v: View) {
    forall k :: k in v ==> AliasIsName(k, v[k].data)
  }

  /** The entry was there before, or has been put there. */
  predicate ComesFrom(v: View, puts: seq<Stored>, k: seq<byte>, c: Cached) {
    (k in v && c.data == v[k].data) || exists i :: 0 <= i < |puts| && puts[i].key == k && puts[i].data == c.data
  }

  /** `w` may be what is seen after the entries were put into a cache where `v` was seen. Entries may have been
      dropped, and time has passed. */
  predicate Becomes(v: View, puts: seq<Stored>, w: View) {
    forall k :: k in w ==> ComesFrom(v, puts, k, w[k])
  }

  lemma BecomesOk(v: View, puts: seq<Stored>, w: View)
    requires ViewOk(v) && Becomes(v, puts, w) && forall s :: s in puts ==> AliasIsName(s.key, s.data)
    ensures ViewOk(w)
  {
    hide AliasIsName;
    forall k | k in w
      ensures AliasIsName(k, w[k].data)
    {
      assert ComesFrom(v, puts, k, w[k]);
    }
  }

  lemma StaysSeen(v: View, puts: seq<Stored>)
    ensures Becomes(v, puts, v)
  {
  }

  lemma BecomesTwice(u: View, puts: seq<Stored>, v: View, more: seq<Stored>, w: View)
    requires Becomes(u, puts, v) && Becomes(v, more, w)
    ensures Becomes(u, puts + more, w)
  {
    var all := puts + more;
    forall k | k in w
      ensures ComesFrom(u, all, k, w[k])
    {
      assert ComesFrom(v, more, k, w[k]);
      if k in v && w[k].data == v[k].data {
        assert ComesFrom(u, puts, k, v[k]);
        if !(k in u && v[k].data == u[k].data) {
          var i :| 0 <= i < |puts| && puts[i].key == k && puts[i].data == v[k].data;
          assert all[i] == puts[i];
        }
      } else {
        var i :| 0 <= i < |more| && more[i].key == k && more[i].data == w[k].data;
        assert all[|puts| + i] == more[i];
      }
    }
  }

  // ---------- what the cache says about a question ----------

  datatype Finding =
    | Unknown
    | Missing
    | Aliased(c: Cached)
    | HasSet(rtype: seq<byte>, c: Cached)
    | HasRaw(c: Cached)

  /** A set of the type, when it is asked for. A type that is known not to be there is no answer to a question for
      all types. */
  function SetFor(v: View, d: Dn, dtype: seq<byte>, rtype: seq<byte>): (c: Option<Cached>) {
    if !TypeMatch(rtype, dtype) then None
    else match Lookup(v, rtype, d)
      case None => None
      case Some(c) => if c.data == [] && dtype == ANY then None else Some(c)
  }

  function FindSet(v: View, d: Dn, dtype: seq<byte>, rtypes: seq<seq<byte>>): (f: Finding) {
    if rtypes == [] then Unknown
    else match SetFor(v, d, dtype, rtypes[0])
      case None => FindSet(v, d, dtype, rtypes[1..])
      case Some(c) => HasSet(rtypes[0], c)
  }

  /** The types with a form of their own, in the order in which they are looked for. */
  const OWN_FORMS: seq<seq<byte>> := [NS, PTR, MX, SOA, A]

  /** That the name is missing comes first, then an alias, then sets of records. */
  function Consult(v: View, d: Dn, dtype: seq<byte>): (f: Finding) {
    if Lookup(v, ANY, d).Some? then Missing
    else match Lookup(v, CNAME, d)
      case Some(c) => Aliased(c)
      case None =>
        var f := FindSet(v, d, dtype, OWN_FORMS);
        if f != Unknown then f
        else if dtype == ANY || dtype == AXFR || dtype == CNAME || dtype in OWN_FORMS then Unknown
        else match Lookup(v, dtype, d)
          case None => Unknown
          case Some(c) => HasRaw(c)
  }

  /** A set that is found is one that was asked for, and it is the first one that could be found. */
  lemma {:induction false} FindSetIs(v: View, d: Dn, dtype: seq<byte>, rtypes: seq<seq<byte>>) returns (i: nat)
    ensures match FindSet(v, d, dtype, rtypes)
            case Unknown => forall j :: 0 <= j < |rtypes| ==> SetFor(v, d, dtype, rtypes[j]) == None
            case HasSet(rtype, c) =>
              && i < |rtypes| && rtypes[i] == rtype && TypeMatch(rtype, dtype) && SetFor(v, d, dtype, rtype) == Some(c)
              && forall j :: 0 <= j < i ==> SetFor(v, d, dtype, rtypes[j]) == None
            case _ => false
  {
    hide Lookup, SetFor;
    i := 0;
    if rtypes != [] {
      SetForMatches(v, d, dtype, rtypes[0]);
      if SetFor(v, d, dtype, rtypes[0]) == None {
        var k := FindSetIs(v, d, dtype, rtypes[1..]);
        i := k + 1;
        assert forall j :: 0 < j < |rtypes| ==> rtypes[j] == rtypes[1..][j - 1];
      }
    }
  }

  lemma SetForMatches(v: View, d: Dn, dtype: seq<byte>, rtype: seq<byte>)
    ensures SetFor(v, d, dtype, rtype).Some? ==> TypeMatch(rtype, dtype)
  {
  }

  lemma TypesDiffer()
    ensures forall t :: t in OWN_FORMS ==> HasOwnForm(t)
    ensures A !in [NS, PTR, MX, SOA, CNAME, ANY, AXFR] && A in OWN_FORMS
  {
    assert A[1] == 1;
    assert OWN_FORMS[4] == A;
    assert forall t :: t in [NS, PTR, MX, SOA, CNAME, ANY, AXFR] ==> t[1] != 1;
  }

  /** What may be found: a set has a form of its own and was asked for; on the way to an address it is one of
      addresses, and an alias is to be followed. */
  lemma ConsultSound(v: View, d: Dn, dtype: seq<byte>)
    requires ViewOk(v)
    ensures match Consult(v, d, dtype)
            case Unknown => true
            case Missing => true
            case Aliased(c) => WellFormed(c.data) && (dtype == A ==> !TypeMatch(CNAME, dtype))
            case HasSet(rtype, c) => HasOwnForm(rtype) && TypeMatch(rtype, dtype) && (dtype == A ==> rtype == A)
            case HasRaw(c) => dtype != A
  {
    hide FindSet, HasOwnForm, WellFormed;
    TypesDiffer();
    var i := FindSetIs(v, d, dtype, OWN_FORMS);
    KeyBegins(CNAME, d);
  }

  lemma KeyBegins(t: seq<byte>, d: Dn)
    requires |t| == 2
    ensures |KeyFor(t, d)| >= 2 && KeyFor(t, d)[..2] == t
  {
  }

  /** The cache is of no use exactly when it says neither that the name is missing nor that it is an alias, and has
      no records of a type that was asked for. */
  lemma ConsultNothing(v: View, d: Dn, dtype: seq<byte>)
    ensures Consult(v, d, dtype) == Unknown <==>
              && Lookup(v, ANY, d) == None && Lookup(v, CNAME, d) == None
              && (forall rtype :: rtype in OWN_FORMS ==> SetFor(v, d, dtype, rtype) == None)
              && (dtype != AXFR && dtype !in OWN_FORMS && dtype != ANY && dtype != CNAME ==> Lookup(v, dtype, d) == None)
  {
    hide Lookup, SetFor;
    var i := FindSetIs(v, d, dtype, OWN_FORMS);
  }

  /** That the name is missing counts more than an alias, and an alias more than any records. */
  lemma ConsultOrder(v: View, d: Dn, dtype: seq<byte>)
    ensures Consult(v, d, dtype) == Missing <==> Lookup(v, ANY, d).Some?
    ensures forall c :: Consult(v, d, dtype) == Aliased(c) <==> Lookup(v, ANY, d) == None && Lookup(v, CNAME, d) == Some(c)
  {
    hide Lookup, FindSet;
    FindSetIsSet(v, d, dtype);
  }

  /** What a finding leads to: the next label, and the response that was `front` and is `back`. Without room for the
      response, or with a length in the data that is wrong, the query ends. */
  ghost predicate Told(f: Finding, level: nat, d: Dn, dtype: seq<byte>, front: seq<Event>, back: seq<Event>, next: Next, short: bool) {
    match f
    case Unknown => false
    case Missing => next == NxDomain
    case Aliased(c) =>
      if TypeMatch(CNAME, dtype) then (next == Die && short) || (next == Done(1) && back == front + [Alias(d, c.data, c.ttl)])
      else next == Cname(c.data, c.ttl)
    case HasSet(rtype, c) =>
      if level > 0 then next == LowerLevel
      else (next == Die && short) || (next == Done(1) && HasOwnForm(rtype) && SetFollows(front, back, d, rtype, c))
    case HasRaw(c) =>
      || (next == Die && (short || ReadRaws(c.data, 0) == None))
      || (next == Done(1) && ReadRaws(c.data, 0).Some? && back == front + RawAnswers(d, dtype, c.ttl, ReadRaws(c.data, 0).value))
  }

  /** The server lists with the addresses that were found. */
  function WithFound(servers: seq<seq<Ip>>, level: nat, f: Finding): (r: seq<seq<Ip>>)
    requires level < |servers|
  {
    if level > 0 && f.HasSet? then servers[level - 1 := PutAll(servers[level - 1], IpsIn(f.c.data))] else servers
  }

  // ---------- built-in answers ----------

  const LOCALHOST: Dn := [9, 108, 111, 99, 97, 108, 104, 111, 115, 116, 0]
  const LOOPBACK: Dn :=
    [1, 49, 1, 48, 1, 48, 3, 49, 50, 55, 7, 105, 110, 45, 97, 100, 100, 114, 4, 97, 114, 112, 97, 0]
  const LOCAL_IP: Ip := [127, 0, 0, 1]
  const BUILT_IN_TTL := 655360

  /** The local host and names that are addresses, and the name of the loopback address. */
  datatype BuiltInAs = Address(ip: Ip) | Loopback

  function BuiltInFor(addressIn: Dn -> Option<Ip>, d: Dn): (x: Option<BuiltInAs>) {
    if Same(d, LOCALHOST) then Some(Address(LOCAL_IP))
    else match addressIn(d)
      case Some(ip) => Some(Address(ip))
      case None => if Same(d, LOOPBACK) then Some(Loopback) else None
  }

  function BuiltInType(x: BuiltInAs): (t: seq<byte>) {
    match x case Address(_) => A case Loopback => PTR
  }

  function BuiltInParts(x: BuiltInAs): (ps: seq<Part>) {
    match x case Address(ip) => [Raw(ip)] case Loopback => [Name(LOCALHOST)]
  }

  /** The record, if it is of a type that is asked for. */
  function BuiltInAnswer(d: Dn, dtype: seq<byte>, x: BuiltInAs): (es: seq<Event>) {
    if TypeMatch(BuiltInType(x), dtype) then [Answer(d, BuiltInType(x), BUILT_IN_TTL, BuiltInParts(x))] else []
  }

  function WithBuiltIn(servers: seq<seq<Ip>>, level: nat, x: BuiltInAs): (r: seq<seq<Ip>>)
    requires 0 < level < |servers|
  {
    match x
    case Address(ip) => servers[level - 1 := PutIn(servers[level - 1], ip)]
    case Loopback => servers
  }

  // ---------- whom to ask ----------

  /** A zone given by where it starts in the name, with addresses or names of its servers. */
  datatype Zone = Zone(at: nat, servers: seq<Ip>, names: seq<Dn>)

  /** What is known of the zone that starts at `at`: from the administrator, or, on the first levels, from the cache. */
  function ZoneAt(v: View, roots: seq<Root>, useCache: bool, d: Dn, at: nat): (z: Option<Zone>)
    requires at <= |d|
  {
    match Roots.Find(roots, d[at..])
    case Some(i) => Some(Zone(at, roots[i].servers, NoNames()))
    case None =>
      if !useCache || |d| - at >= 255 then None
      else match Lookup(v, NS, d[at..])
        case None => None
        case Some(c) => if c.data == [] then None else Some(Zone(at, NoServers(), Slots(NamesFrom(c.data, 0))))
  }

  /** The closest zone that ends the name from `at` on and that something is known of. */
  function ZoneFrom(v: View, roots: seq<Root>, useCache: bool, d: Dn, at: nat): (z: Option<Zone>)
    decreases |d| - at
  {
    if at >= |d| then None
    else match ZoneAt(v, roots, useCache, d, at)
      case Some(z) => Some(z)
      case None => if d[at] == 0 then None else ZoneFrom(v, roots, useCache, d, at + 1 + d[at])
  }

  /** Nothing is known of any zone that is passed over. */
  lemma {:induction false} ZoneIsClosest(v: View, roots: seq<Root>, useCache: bool, d: Dn, at: nat)
    requires WellFormed(d) && Boundary(d, at) && at <= |d|
    ensures var z := ZoneFrom(v, roots, useCache, d, at);
            && (z.Some? ==> at <= z.value.at < |d| && Boundary(d, z.value.at) && ZoneAt(v, roots, useCache, d, z.value.at) == z)
            && forall k :: at <= k < (if z.Some? then z.value.at else |d|) && k <= |d| && Boundary(d, k) ==>
                 ZoneAt(v, roots, useCache, d, k) == None
    decreases |d| - at
  {
    hide WellFormed, Roots.Find, Lookup, Slots, NamesFrom;
    BoundaryTail(d, at);
    if ZoneAt(v, roots, useCache, d, at) == None {
      forall k | at < k && Boundary(d, k)
        ensures d[at] != 0 && at + 1 + d[at] <= k
      {
        BoundaryNext(d, at, k);
      }
      if d[at] != 0 {
        BoundaryStep(d, at);
        BoundaryTail(d, at + 1 + d[at]);
        ZoneIsClosest(v, roots, useCache, d, at + 1 + d[at]);
      }
    }
  }

  // ---------- what a packet puts into the cache ----------

  /** The sets of the whole packet, stored one after the other. */
  ghost predicate StoredFrom(buf: seq<byte>, s: Sections, zone: Dn, roots: seq<Root>, ok: bool, stored: seq<Stored>) {
    match Positions(buf, s.posanswers, s.numanswers + s.numauthority + s.numglue)
    case None => !ok && stored == []
    case Some(ps) => exists groups :: FromGroups(buf, ps, s.posauthority, zone, roots, groups, ok, stored)
  }

  ghost predicate FromGroups(buf: seq<byte>, ps: seq<nat>, posauthority: nat, zone: Dn, roots: seq<Root>, groups: seq<seq<nat>>,
                             ok: bool, stored: seq<Stored>)
  {
    && Grouped(buf, ps, groups) && AllGood(buf, groups)
    && (ok, stored) == Entries(buf, zone, posauthority, roots, groups)
  }

  /** The lack of a name, or of records of the type asked for, is kept for as long as the SOA allows. */
  function Lack(d: Dn, dtype: seq<byte>, missing: bool, an: AnswerScan, au: AuthorityScan): (puts: seq<Stored>) {
    if an.alias.Some? || |d| > MAX_NAME then []
    else if missing then [Stored(KeyFor(ANY, d), [], au.soattl)]
    else if !an.out && au.soa && dtype != ANY && dtype != AXFR && dtype != CNAME then [Stored(KeyFor(dtype, d), [], au.soattl)]
    else []
  }

  lemma LackIsNoAlias(d: Dn, dtype: seq<byte>, missing: bool, an: AnswerScan, au: AuthorityScan)
    requires |dtype| == 2
    ensures forall s :: s in Lack(d, dtype, missing, an, au) ==> AliasIsName(s.key, s.data)
  {
    hide WellFormed;
    KeyBegins(ANY, d);
    KeyBegins(dtype, d);
    assert ANY[1] != CNAME[1];
  }

  /** The servers sent us somewhere that is not inside their zone, and said nothing else. */
  predicate IsLame(r: Reply, zone: Dn) {
    && r.an.alias == None && !r.missing && !r.an.out && r.au.referral.Some? && !r.au.soa
    && (Same(r.au.referral.value, zone) || !EndsIn(r.au.referral.value, zone))
  }

  predicate EndsIn(d: Dn, zone: Dn) {
    WellFormed(d) && IsSuffix(d, zone)
  }

  /** Everything that a packet puts into the cache, in order. */
  ghost predicate PutsFrom(buf: seq<byte>, r: Reply, zone: Dn, roots: seq<Root>, d: Dn, dtype: seq<byte>, puts: seq<Stored>) {
    if IsLame(r, zone) then puts == []
    else exists ok, stored ::
      StoredFrom(buf, r.sections, zone, roots, ok, stored)
      && puts == stored + if ok then Lack(d, dtype, r.missing, r.an, r.au) else []
  }

  lemma PutsAre(buf: seq<byte>, r: Reply, zone: Dn, roots: seq<Root>, d: Dn, dtype: seq<byte>, ok: bool, stored: seq<Stored>)
    requires !IsLame(r, zone) && StoredFrom(buf, r.sections, zone, roots, ok, stored)
    ensures PutsFrom(buf, r, zone, roots, d, dtype, stored + if ok then Lack(d, dtype, r.missing, r.an, r.au) else [])
  {
    hide StoredFrom, IsLame, Lack;
  }

  // ---------- what a packet cannot touch ----------

  /** The entry is for a name that ends in the zone. */
  ghost predicate Inside(s: Stored, zone: Dn) {
    exists t, d :: |t| == 2 && WellFormed(d) && s.key == KeyFor(t, d) && IsSuffix(d, zone)
  }

  ghost predicate AllInside(puts: seq<Stored>, zone: Dn) {
    forall s :: s in puts ==> Inside(s, zone)
  }

  lemma OwnerInside(buf: seq<byte>, zone: Dn, roots: seq<Root>, g: seq<nat>, s: Stored)
    requires GoodGroup(buf, g) && WellFormed(OwnerOf(buf, g)) && ForOwner(buf, zone, roots, g, s)
    ensures Inside(s, zone)
  {
    hide GoodGroup, WellFormed, OwnerOf, IsSuffix, Fold, Search, TtlOf;
    assert s.key == KeyFor(TypeOf(buf, g), OwnerOf(buf, g));
  }

  lemma StoredInside(buf: seq<byte>, s: Sections, zone: Dn, roots: seq<Root>, ok: bool, stored: seq<Stored>)
    requires StoredFrom(buf, s, zone, roots, ok, stored)
    ensures AllInside(stored, zone)
  {
    hide Inside, GoodGroup, WellFormed, ForOwner, Entries, Grouped, Positions;
    if Positions(buf, s.posanswers, s.numanswers + s.numauthority + s.numglue).Some? {
      var ps := Positions(buf, s.posanswers, s.numanswers + s.numauthority + s.numglue).value;
      var groups :| FromGroups(buf, ps, s.posauthority, zone, roots, groups, ok, stored);
      EntriesInside(buf, zone, s.posauthority, roots, groups);
      forall x | x in stored
        ensures Inside(x, zone)
      {
        var i :| 0 <= i < |groups| && ForOwner(buf, zone, roots, groups[i], x);
        OwnerInside(buf, zone, roots, groups[i], x);
      }
    }
  }

  lemma LackInside(zone: Dn, d: Dn, dtype: seq<byte>, missing: bool, an: AnswerScan, au: AuthorityScan)
    requires WellFormed(d) && IsSuffix(d, zone) && |dtype| == 2
    ensures AllInside(Lack(d, dtype, missing, an, au), zone)
  {
    hide WellFormed, IsSuffix, KeyFor;
  }

  /** Everything that a packet puts into the cache is for a name that ends in the zone that was asked. */
  lemma PutsInside(buf: seq<byte>, r: Reply, zone: Dn, roots: seq<Root>, d: Dn, dtype: seq<byte>, puts: seq<Stored>)
    requires PutsFrom(buf, r, zone, roots, d, dtype, puts) && WellFormed(d) && IsSuffix(d, zone) && |dtype| == 2
    ensures AllInside(puts, zone)
  {
    hide Inside, StoredFrom, IsLame, WellFormed, IsSuffix, Lack;
    if !IsLame(r, zone) {
      var ok, stored :|
        StoredFrom(buf, r.sections, zone, roots, ok, stored)
        && puts == stored + if ok then Lack(d, dtype, r.missing, r.an, r.au) else [];
      StoredInside(buf, r.sections, zone, roots, ok, stored);
      LackInside(zone, d, dtype, r.missing, r.an, r.au);
    }
  }

  lemma KeysDiffer(t: seq<byte>, d: Dn, t': seq<byte>, d': Dn)
    requires |t| == 2 == |t'| && KeyFor(t, d) == KeyFor(t', d')
    ensures t == t' && Same(d, d')
  {
    assert KeyFor(t, d)[..2] == t && KeyFor(t', d')[..2] == t';
    assert KeyFor(t, d)[2..] == Fold(d) && KeyFor(t', d')[2..] == Fold(d');
  }

  /** What was known about names outside the zone stays as it was, or is forgotten. */
  lemma OutsideStays(v: View, puts: seq<Stored>, w: View, zone: Dn, t: seq<byte>, d: Dn)
    requires Becomes(v, puts, w) && AllInside(puts, zone) && |t| == 2 && WellFormed(d) && WellFormed(zone) && !IsSuffix(d, zone)
    ensures Lookup(w, t, d).Some? ==> Lookup(v, t, d).Some? && Lookup(w, t, d).value.data == Lookup(v, t, d).value.data
  {
    hide WellFormed, IsSuffix, KeyFor, Same;
    var k := KeyFor(t, d);
    if k in w {
      assert ComesFrom(v, puts, k, w[k]);
      forall i | 0 <= i < |puts|
        ensures puts[i].key != k
      {
        assert Inside(puts[i], zone);
        var t', d' :| |t'| == 2 && WellFormed(d') && puts[i].key == KeyFor(t', d') && IsSuffix(d', zone);
        if puts[i].key == k {
          KeysDiffer(t', d', t, d);
          SameReflexive(zone);
          SuffixUpToCase(d', zone, d, zone);
        }
      }
    }
  }

  /** What is kept of a lack: that the name is missing, under all types, or that it has no records of the type asked
      for, under this type; never both, and the second never for a question for all types. */
  lemma LackIs(d: Dn, dtype: seq<byte>, missing: bool, an: AnswerScan, au: AuthorityScan, s: Stored)
    requires s in Lack(d, dtype, missing, an, au)
    ensures an.alias == None && s.data == [] && s.ttl == au.soattl
    ensures if missing then s.key == KeyFor(ANY, d)
            else !an.out && au.soa && dtype != ANY && s.key == KeyFor(dtype, d)
  {
    hide KeyFor;
  }

  /** A lack of records is never taken for the lack of the name. */
  lemma NoDataIsNotMissing(v: View, d: Dn, dtype: seq<byte>, an: AnswerScan, au: AuthorityScan, w: View)
    requires |dtype| == 2 && Becomes(v, Lack(d, dtype, false, an, au), w) && Lookup(v, ANY, d) == None
    ensures Consult(w, d, dtype) != Missing
  {
    hide KeyFor, Lack, FindSet;
    var k, puts := KeyFor(ANY, d), Lack(d, dtype, false, an, au);
    if k in w {
      assert ComesFrom(v, puts, k, w[k]);
      var i :| 0 <= i < |puts| && puts[i].key == k;
      LackIs(d, dtype, false, an, au, puts[i]);
      KeysDiffer(ANY, d, dtype, d);
    }
    FindSetIsSet(w, d, dtype);
  }

  lemma FindSetIsSet(v: View, d: Dn, dtype: seq<byte>)
    ensures var f := FindSet(v, d, dtype, OWN_FORMS); f == Unknown || f.HasSet?
  {
    var i := FindSetIs(v, d, dtype, OWN_FORMS);
  }

  // ---------- where a packet leads ----------

  /** The addresses of the answer section have gone to the level below, as far as there is room. */
  ghost predicate TookAddresses(buf: seq<byte>, s: Sections, d: Dn, level: nat, servers0: seq<seq<Ip>>, servers: seq<seq<Ip>>)
    requires 0 < level < |servers0|
  {
    && Positions(buf, s.posanswers, s.numanswers).Some?
    && var ips := AddressesIn(buf, Positions(buf, s.posanswers, s.numanswers).value, d);
       servers == servers0[level - 1 := PutAll(servers0[level - 1], ips)]
  }

  /** What ends a query with a packet that has been read: a set with a broken record, or one of the reasons below. */
  ghost predicate Spoils(buf: seq<byte>, s: Sections, zone: Dn, roots: seq<Root>) {
    exists stored :: StoredFrom(buf, s, zone, roots, false, stored)
  }

  /** No room for the response, answers, addresses or names of servers that cannot be read, or a referral to a zone
      that the name is not in. */
  ghost predicate MayFail(buf: seq<byte>, r: Reply, level: nat, d: Dn, dtype: seq<byte>, short: bool) {
    var s := r.sections;
    && r.an.alias == None && !r.missing
    && if r.an.out || r.au.soa || r.au.referral == None then
         if level > 0 then !AddressesReadable(buf, s.posanswers, s.numanswers, d)
         else short || !DataReadable(buf, s.posanswers, s.numanswers, d, dtype)
       else
         || !EndsIn(d, r.au.referral.value)
         || !ReferralReadable(buf, s.posauthority, s.numauthority, r.au.referral.value)
  }

  /** The names of the new servers are those of the authority section, as many as there is room for. */
  ghost predicate NamesServers(buf: seq<byte>, s: Sections, referral: Dn, list: seq<Dn>) {
    && Positions(buf, s.posauthority, s.numauthority).Some?
    && var ds := ReferredIn(buf, Positions(buf, s.posauthority, s.numauthority).value, referral);
       ds.Some? && list == Slots(ds.value)
  }
}
