/** What is taken out of a packet is all that is there: the records that answer, the addresses, the servers; and what a
    set of the packet says out of the cache is what it says in the packet. */
module AnswerProperties {
  import opened Bytes
  import opened Domain
  import opened Packet
  import opened Records
  import opened Scan
  import opened ResolverState
  import opened SetData
  import opened CacheSets
  import opened Roots
  import opened Replies
  import opened CacheView

  /** Places below `n`, in order. */
  ghost predicate Places(ks: seq<nat>, n: nat) {
    (forall i :: 0 <= i < |ks| ==> ks[i] < n) && forall i, j :: 0 <= i < j < |ks| ==> ks[i] < ks[j]
  }

  lemma PlacesMore(ks: seq<nat>, n: nat)
    requires Places(ks, n)
    ensures Places(ks, n + 1) && Places(ks + [n], n + 1)
  {
  }

  // ---------- records that answer ----------

  /** The answers are those of exactly the records that answer, in their order; there are none because one of these
      cannot be read, and for no other reason. */
  lemma {:induction false} AnswersAre(buf: seq<byte>, ps: seq<nat>, d: Dn, dtype: seq<byte>) returns (ks: seq<nat>)
    ensures Places(ks, |ps|)
    ensures match AnswersIn(buf, ps, d, dtype)
            case None => exists p :: p in ps && Holds(buf, p, Answering(d, dtype)) && AnswerAt(buf, p) == None
            case Some(es) =>
              && |ks| == |es| && (forall i :: 0 <= i < |es| ==> Holds(buf, ps[ks[i]], Answering(d, dtype)))
              && (forall i :: 0 <= i < |es| ==> AnswerAt(buf, ps[ks[i]]) == Some(es[i]))
              && forall j :: 0 <= j < |ps| && j !in ks ==> !Holds(buf, ps[j], Answering(d, dtype))
  {
    hide Holds, AnswerAt, Answering;
    ks := [];
    if ps != [] {
      var n := |ps| - 1;
      ks := AnswersAre(buf, ps[..n], d, dtype);
      PlacesMore(ks, n);
      if AnswersIn(buf, ps[..n], d, dtype) == None {
        var p :| p in ps[..n] && Holds(buf, p, Answering(d, dtype)) && AnswerAt(buf, p) == None;
        assert p in ps;
      } else if Holds(buf, ps[n], Answering(d, dtype)) {
        assert ps[n] in ps;
        ks := ks + [n];
      }
    }
  }

  /** The addresses are those of exactly the records that give one, in their order. */
  lemma {:induction false} AddressesAre(buf: seq<byte>, ps: seq<nat>, d: Dn) returns (ks: seq<nat>)
    ensures var ips := AddressesIn(buf, ps, d);
            && Places(ks, |ps|) && |ks| == |ips| && (forall i :: 0 <= i < |ips| ==> AddressAt(buf, ps[ks[i]], d) == Some(ips[i]))
            && forall j :: 0 <= j < |ps| && j !in ks ==> AddressAt(buf, ps[j], d) == None
  {
    hide AddressAt;
    ks := [];
    if ps != [] {
      var n := |ps| - 1;
      ks := AddressesAre(buf, ps[..n], d);
      PlacesMore(ks, n);
      if AddressAt(buf, ps[n], d).Some? { ks := ks + [n]; }
    }
  }

  /** The servers of a zone are those of the first records that name one, as many as there is room for. */
  lemma {:induction false} ReferredAre(buf: seq<byte>, ps: seq<nat>, zone: Dn) returns (ks: seq<nat>)
    requires ReferredIn(buf, ps, zone).Some?
    ensures var ds := ReferredIn(buf, ps, zone).value;
            && Places(ks, |ps|) && |ks| == |ds| && (forall i :: 0 <= i < |ds| ==> Holds(buf, ps[ks[i]], Answering(zone, NS)))
            && (forall i :: 0 <= i < |ds| ==> TargetAt(buf, ps[ks[i]]).Some? && TargetAt(buf, ps[ks[i]]).value.name == ds[i])
            && forall j :: 0 <= j < |ps| && j !in ks && Holds(buf, ps[j], Answering(zone, NS)) ==>
                 |ds| == SERVERS && forall i :: 0 <= i < |ks| ==> ks[i] < j
  {
    hide Holds, TargetAt, Answering, AllDomains;
    ks := [];
    if ps != [] {
      var n := |ps| - 1;
      ks := ReferredAre(buf, ps[..n], zone);
      PlacesMore(ks, n);
      if |ReferredIn(buf, ps[..n], zone).value| < SERVERS && Holds(buf, ps[n], Answering(zone, NS)) { ks := ks + [n]; }
    }
  }

  // ---------- sets in the cache ----------

  ghost predicate OfType(buf: seq<byte>, g: seq<nat>, t: seq<byte>) {
    forall i :: 0 <= i < |g| ==> RecordAt(buf, g[i]).Some? && RecordAt(buf, g[i]).value.header[..2] == t
  }

  /** The answer in the packet and the one out of the cache say the same. */
  ghost predicate SaysTheSame(buf: seq<byte>, p: nat, rtype: seq<byte>, it: Item) {
    AnswerAt(buf, p).Some? && AnswerAt(buf, p).value.parts == PartsOf(it, rtype != SOA)
  }

  /** The items of a set are those of exactly its records that are to be kept, in their order. */
  lemma {:induction false} ItemsAre(buf: seq<byte>, g: seq<nat>, t: seq<byte>, posauthority: nat) returns (ks: seq<nat>)
    requires HasOwnForm(t) && OfType(buf, g, t)
    ensures Places(ks, |g|)
    ensures match ItemsOf(buf, g, t, posauthority)
            case None => exists p :: p in g && AnswerAt(buf, p) == None
            case Some(items) =>
              && |ks| == |items| && (forall i :: 0 <= i < |ks| ==> SaysTheSame(buf, g[ks[i]], t, items[i]))
              && (forall i :: 0 <= i < |ks| ==> ToBeKept(buf, g[ks[i]], t, posauthority))
              && forall j :: 0 <= j < |g| && j !in ks ==> !ToBeKept(buf, g[j], t, posauthority)
  {
    hide Take, AnswerAt, ToBeKept, HasOwnForm, RecordAt, PartsOf;
    ks := [];
    if g != [] {
      var n := |g| - 1;
      ks := ItemsAre(buf, g[..n], t, posauthority);
      PlacesMore(ks, n);
      CachedLikeFresh(buf, g[n], t, posauthority);
      if ItemsOf(buf, g[..n], t, posauthority) == None {
        var p :| p in g[..n] && AnswerAt(buf, p) == None;
        assert p in g;
      } else if Take(buf, g[n], t, posauthority).Kept? {
        ks := ks + [n];
      } else if Take(buf, g[n], t, posauthority).Broken? {
        assert g[n] in g;
      }
    }
  }

  /** A set that can be read and that is not too large is kept: the answer out of the cache then has exactly its records
      that are to be kept, in their order, and says of each what the packet says. */
  lemma CachedIsFresh(buf: seq<byte>, g: seq<nat>, t: seq<byte>, posauthority: nat, d: Dn, ttl: nat, front: seq<Event>, back: seq<Event>)
    returns (ks: seq<nat>)
    requires GoodGroup(buf, g) && TypeOf(buf, g) == t && HasOwnForm(t) && OfType(buf, g, t)
    requires forall p :: p in g ==> AnswerAt(buf, p).Some?
    ensures Places(ks, |g|) && forall j :: 0 <= j < |g| ==> (j in ks <==> ToBeKept(buf, g[j], t, posauthority))
    ensures ItemsOf(buf, g, t, posauthority).Some?
    ensures var data := EncodeAll(ItemsOf(buf, g, t, posauthority).value);
            && (ks != [] && |data| <= SAVE_SPACE ==> DataOf(buf, g, posauthority) == KeptAs(data))
            && (SetFollows(front, back, d, t, Cached(data, ttl)) ==>
                  |back| == |front| + |ks| && front <= back
                  && forall i :: 0 <= i < |ks| ==> back[|front| + i] == Answer(d, t, ttl, AnswerAt(buf, g[ks[i]]).value.parts))
  {
    hide Take, AnswerAt, ToBeKept, RecordAt, PartsOf, Encode, GoodGroup, ReadItems;
    ks := ItemsAre(buf, g, t, posauthority);
    var items := ItemsOf(buf, g, t, posauthority).value;
    OwnForms(t);
    if SetFollows(front, back, d, t, Cached(EncodeAll(items), ttl)) {
      KeptSetAnswers(buf, g, t, posauthority, front, back, d, ttl);
    }
  }

  lemma OwnForms(t: seq<byte>)
    requires HasOwnForm(t)
    ensures t != ANY && t != AXFR && t != CNAME
  {
    assert ANY[1] == 255 && AXFR[1] == 252 && CNAME[1] == 5;
    assert NS[1] == 2 && PTR[1] == 12 && MX[1] == 15 && SOA[1] == 6 && A[1] == 1;
  }

  /** The same for the other types, whose records are kept as they are. */
  lemma {:induction false} CachedRawIsFresh(buf: seq<byte>, g: seq<nat>)
    ensures match RawsOf(buf, g)
            case None => exists p :: p in g && RawAt(buf, p) == None
            case Some(ds) => |ds| == |g| && forall i :: 0 <= i < |g| ==> RawAt(buf, g[i]) == Some(ds[i])
  {
    hide RawAt;
    if g != [] {
      var n := |g| - 1;
      CachedRawIsFresh(buf, g[..n]);
      if RawsOf(buf, g[..n]) == None {
        var p :| p in g[..n] && RawAt(buf, p) == None;
        assert p in g;
      } else if RawAt(buf, g[n]) == None {
        assert g[n] in g;
      }
    }
  }

  // ---------- servers out of the cache ----------

  /** A zone of which a set of servers was kept is known from then on, with the names of these servers in order, unless
      the administrator has listed it. */
  lemma CachedZone(v: View, roots: seq<Root>, d: Dn, at: nat, buf: seq<byte>, g: seq<nat>, posauthority: nat, ttl: nat)
    returns (ds: seq<Dn>)
    requires at <= |d| && |d| - at < 255 && Roots.Find(roots, d[at..]) == None
    requires HasOwnForm(NS) && ItemsOf(buf, g, NS, posauthority).Some? && ItemsOf(buf, g, NS, posauthority).value != []
    requires Lookup(v, NS, d[at..]) == Some(Cached(EncodeAll(ItemsOf(buf, g, NS, posauthority).value), ttl))
    ensures var items := ItemsOf(buf, g, NS, posauthority).value;
            |ds| == |items| && forall i :: 0 <= i < |ds| ==> items[i].names == [ds[i]]
    ensures ZoneAt(v, roots, true, d, at) == Some(Zone(at, NoServers(), Slots(ds)))
  {
    hide Take, Roots.Find, Lookup, Slots, ReadItem, Decode;
    var items := ItemsOf(buf, g, NS, posauthority).value;
    var data := EncodeAll(items);
    KeptIsRead(buf, g, NS, posauthority);
    ds := NamesFrom(data, 0);
    NamesAreItems(data, 0);
    assert NS[1] == 2 && A[1] == 1 && SOA[1] == 6 && MX[1] == 15;
    if data == [] { NothingToRead(0, 1); }
  }

  lemma NothingToRead(raw: nat, names: nat)
    requires raw + names > 0
    ensures ReadItems([], 0, raw, names) == []
  {
  }
}
