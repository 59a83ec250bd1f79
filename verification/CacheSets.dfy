/** Which sets of records of a packet the resolver puts into its cache, and as what. */
module CacheSets {
  import opened Bytes
  import opened Domain
  import opened Packet
  import opened Records
  import opened Scan
  import opened SetData
  import opened Roots

  // ---------- reading ----------

  method NamesAt(data: seq<byte>, pos: nat, k: nat) returns (r: Option<(seq<seq<byte>>, nat)>)
    ensures r == ReadNames(data, pos, k)
  {
    var ds: seq<seq<byte>> := [];
    var at: nat := pos;
    var j: nat := 0;
    NamesBegun(data, pos, k);
    hide NamesLeft, Decode, Limited;
    while j < k
      invariant j <= k && NamesLeft(data, pos, k, ds, at, j)
    {
      var d := GetName(data, at);
      NamesNext(data, pos, k, ds, at, j);
      if d == None { return None; }
      ds := ds + [d.value.name];
      at := d.value.end;
      j := j + 1;
    }
    NamesEnd(data, pos, k, ds, at);
    return Some((ds, at));
  }

  /** `ds` are the first `j` names, and the others would follow at `at`. */
  ghost predicate NamesLeft(data: seq<byte>, pos: nat, k: nat, ds: seq<seq<byte>>, at: nat, j: nat) {
    j <= k && ReadNames(data, pos, k) == match ReadNames(data, at, k - j)
                                         case None => None
                                         case Some(rest) => Some((ds + rest.0, rest.1))
  }

  lemma NamesBegun(data: seq<byte>, pos: nat, k: nat)
    ensures NamesLeft(data, pos, k, [], pos, 0)
  {
    assert forall rest: seq<seq<byte>> :: [] + rest == rest;
  }

  lemma NamesNext(data: seq<byte>, pos: nat, k: nat, ds: seq<seq<byte>>, at: nat, j: nat)
    requires NamesLeft(data, pos, k, ds, at, j) && j < k
    ensures match Limited(Decode(data, at, MAX_STEPS))
            case None => ReadNames(data, pos, k) == None
            case Some(d) => NamesLeft(data, pos, k, ds + [d.name], d.end, j + 1)
  {
    hide Decode, Limited;
    match Limited(Decode(data, at, MAX_STEPS))
    case None =>
    case Some(d) =>
      if ReadNames(data, d.end, k - j - 1).Some? {
        Regroup2(ds, d.name, ReadNames(data, d.end, k - j - 1).value.0);
      }
  }

  lemma Regroup2<T>(a: seq<T>, x: T, b: seq<T>)
    ensures a + ([x] + b) == (a + [x]) + b
  {
  }

  lemma NamesEnd(data: seq<byte>, pos: nat, k: nat, ds: seq<seq<byte>>, at: nat)
    requires NamesLeft(data, pos, k, ds, at, k)
    ensures ReadNames(data, pos, k) == Some((ds, at))
  {
    assert ds + [] == ds;
  }

  method ItemAt(data: seq<byte>, pos: nat, raw: nat, names: nat) returns (r: Option<(Item, nat)>)
    requires raw + names > 0
    ensures r == ReadItem(data, pos, raw, names)
  {
    hide ReadNames;
    var bytes := Copy(data, pos, raw);
    if bytes == None { return None; }
    var ds := NamesAt(data, pos + raw, names);
    if ds == None { return None; }
    return Some((Item(bytes.value, ds.value.0), ds.value.1));
  }

  /** Takes one record of a set. */
  method TakeOne(buf: seq<byte>, p: nat, rtype: seq<byte>, posauthority: nat) returns (t: Taken)
    requires HasOwnForm(rtype)
    ensures t == Take(buf, p, rtype, posauthority)
  {
    hide ReadItem, ReadNames, RecordAt;
    var r := ReadRecord(buf, p);
    if r == None { return Broken; }
    var at := r.value.after + 10;
    if rtype == SOA {
      var ds := NamesAt(buf, at, 2);
      if ds == None { return Broken; }
      var misc := Copy(buf, ds.value.1, 20);
      if misc == None { return Broken; }
      return if p < posauthority then Kept(Item(misc.value, ds.value.0)) else Skipped;
    }
    if rtype == A && r.value.DataLength() != 4 { return Skipped; }
    var it := ItemAt(buf, at, RawOf(rtype), NamesOf(rtype));
    return if it == None then Broken else Kept(it.value.0);
  }

  // ---------- saving ----------

  /** The buffer holds everything saved so far, unless that was too much at some time. */
  predicate Saves(save: Option<seq<byte>>, all: seq<byte>) {
    save == if |all| <= SAVE_SPACE then Some(all) else None
  }

  method SaveData(save: Option<seq<byte>>, piece: seq<byte>, ghost all: seq<byte>) returns (r: Option<seq<byte>>)
    requires Saves(save, all)
    ensures Saves(r, all + piece)
  {
    if save == None { return None; }
    if |piece| > SAVE_SPACE - |save.value| { return None; }
    return Some(save.value + piece);
  }

  method SaveItem(save: Option<seq<byte>>, it: Item, ghost all: seq<byte>) returns (r: Option<seq<byte>>)
    requires Saves(save, all)
    ensures Saves(r, all + Encode(it))
  {
    r := SaveData(save, it.raw, all);
    var j: nat := 0;
    hide Saves;
    assert Flat(it.names[..0]) == [];
    assert all + it.raw == all + it.raw + Flat(it.names[..0]);
    while j < |it.names|
      invariant j <= |it.names| && Saves(r, all + it.raw + Flat(it.names[..j]))
    {
      r := SaveData(r, it.names[j], all + it.raw + Flat(it.names[..j]));
      FlatAppend(it.names[..j], it.names[j]);
      assert it.names[..j + 1] == it.names[..j] + [it.names[j]];
      assert all + it.raw + Flat(it.names[..j]) + it.names[j] == all + it.raw + (Flat(it.names[..j]) + it.names[j]);
      j := j + 1;
    }
    assert it.names[..j] == it.names;
    assert all + it.raw + Flat(it.names) == all + Encode(it);
  }

  lemma {:induction false} FlatAppend(ds: seq<seq<byte>>, d: seq<byte>)
    ensures Flat(ds + [d]) == Flat(ds) + d
  {
    if ds == [] {
      assert ds + [d] == [d];
      assert Flat([d]) == d + Flat([]);
    } else {
      FlatAppend(ds[1..], d);
      assert (ds + [d])[1..] == ds[1..] + [d];
    }
  }

  lemma {:induction false} EncodeAllAppend(items: seq<Item>, it: Item)
    ensures EncodeAll(items + [it]) == EncodeAll(items) + Encode(it)
  {
    hide Encode;
    if items == [] {
      assert items + [it] == [it];
      assert EncodeAll([it]) == Encode(it) + EncodeAll([]);
    } else {
      EncodeAllAppend(items[1..], it);
      assert (items + [it])[1..] == items[1..] + [it];
    }
  }

  // ---------- a set ----------

  /** The items of a set, or None when one of its records is broken. */
  function ItemsOf(buf: seq<byte>, g: seq<nat>, rtype: seq<byte>, posauthority: nat): (r: Option<seq<Item>>)
    requires HasOwnForm(rtype)
  {
    if g == [] then Some([])
    else match ItemsOf(buf, g[..|g| - 1], rtype, posauthority)
      case None => None
      case Some(items) =>
        match Take(buf, g[|g| - 1], rtype, posauthority)
        case Broken => None
        case Skipped => Some(items)
        case Kept(it) => Some(items + [it])
  }

  lemma {:induction false} ItemsForm(buf: seq<byte>, g: seq<nat>, rtype: seq<byte>, posauthority: nat)
    requires HasOwnForm(rtype) && ItemsOf(buf, g, rtype, posauthority).Some?
    ensures AllHaveForm(ItemsOf(buf, g, rtype, posauthority).value, RawOf(rtype), NamesOf(rtype))
  {
    hide Take, HasForm, RawOf, NamesOf;
    if g != [] {
      ItemsForm(buf, g[..|g| - 1], rtype, posauthority);
      if Take(buf, g[|g| - 1], rtype, posauthority).Kept? { TakeForm(buf, g[|g| - 1], rtype, posauthority); }
    }
  }

  /** What is read from the data kept of a set are the items of its records, in packet order. */
  lemma KeptIsRead(buf: seq<byte>, g: seq<nat>, rtype: seq<byte>, posauthority: nat)
    requires HasOwnForm(rtype) && ItemsOf(buf, g, rtype, posauthority).Some?
    ensures var items := ItemsOf(buf, g, rtype, posauthority).value;
            RawOf(rtype) + NamesOf(rtype) > 0 && ReadItems(EncodeAll(items), 0, RawOf(rtype), NamesOf(rtype)) == items
  {
    ItemsForm(buf, g, rtype, posauthority);
    ItemsReadBack(ItemsOf(buf, g, rtype, posauthority).value, RawOf(rtype), NamesOf(rtype));
  }

  lemma ItemsNext(buf: seq<byte>, g: seq<nat>, i: nat, rtype: seq<byte>, posauthority: nat)
    requires HasOwnForm(rtype) && i < |g| && ItemsOf(buf, g[..i], rtype, posauthority).Some?
    ensures ItemsOf(buf, g[..i + 1], rtype, posauthority) ==
            match Take(buf, g[i], rtype, posauthority)
            case Broken => None
            case Skipped => ItemsOf(buf, g[..i], rtype, posauthority)
            case Kept(it) => Some(ItemsOf(buf, g[..i], rtype, posauthority).value + [it])
  {
    hide Take;
    assert g[..i + 1][..i] == g[..i];
  }

  lemma {:induction false} ItemsBroken(buf: seq<byte>, g: seq<nat>, i: nat, rtype: seq<byte>, posauthority: nat)
    requires HasOwnForm(rtype) && i <= |g| && ItemsOf(buf, g[..i], rtype, posauthority) == None
    ensures ItemsOf(buf, g, rtype, posauthority) == None
    decreases |g|
  {
    hide Take;
    if i == |g| {
      assert g[..i] == g;
    } else {
      assert g[..|g| - 1][..i] == g[..i];
      ItemsBroken(buf, g[..|g| - 1], i, rtype, posauthority);
    }
  }

  /** Saves the items of a set; fails when a record is broken. */
  method SaveSet(buf: seq<byte>, g: seq<nat>, rtype: seq<byte>, posauthority: nat)
      returns (ok: bool, save: Option<seq<byte>>, any: bool)
    requires HasOwnForm(rtype)
    ensures ok <==> ItemsOf(buf, g, rtype, posauthority).Some?
    ensures ok ==> Saves(save, EncodeAll(ItemsOf(buf, g, rtype, posauthority).value))
    ensures ok ==> any == (ItemsOf(buf, g, rtype, posauthority).value != [])
  {
    save, any := Some([]), false;
    var i: nat := 0;
    ghost var items: seq<Item> := [];
    hide Take, Saves, Encode, HasOwnForm;
    assert Saves(save, EncodeAll(items)) by { SavesNothing(); }
    assert g[..0] == [];
    while i < |g|
      invariant i <= |g| && ItemsOf(buf, g[..i], rtype, posauthority) == Some(items)
      invariant Saves(save, EncodeAll(items)) && any == (items != [])
    {
      var t := TakeOne(buf, g[i], rtype, posauthority);
      ItemsNext(buf, g, i, rtype, posauthority);
      if t.Broken? {
        ItemsBroken(buf, g, i + 1, rtype, posauthority);
        return false, save, any;
      }
      if t.Kept? {
        save := SaveItem(save, t.it, EncodeAll(items));
        EncodeAllAppend(items, t.it);
        items, any := items + [t.it], true;
      }
      i := i + 1;
    }
    assert g[..i] == g;
    ok := true;
  }

  lemma SavesNothing()
    ensures Saves(Some([]), EncodeAll([]))
  {
  }

  // ---------- records of no special form ----------

  /** The data of the record, if it is all in the packet. */
  function RawAt(buf: seq<byte>, p: nat): (r: Option<seq<byte>>)
    ensures r.Some? ==> |r.value| <= MAX_RAW
  {
    match RecordAt(buf, p)
    case None => None
    case Some(rec) =>
      if rec.after + 10 + rec.DataLength() > |buf| then None
      else Some(buf[rec.after + 10..rec.after + 10 + rec.DataLength()])
  }

  predicate AllRaw(ds: seq<seq<byte>>) {
    forall i :: 0 <= i < |ds| ==> |ds[i]| <= MAX_RAW
  }

  function RawsOf(buf: seq<byte>, g: seq<nat>): (r: Option<seq<seq<byte>>>)
    ensures r.Some? ==> AllRaw(r.value)
  {
    if g == [] then Some([])
    else match RawsOf(buf, g[..|g| - 1])
      case None => None
      case Some(ds) => match RawAt(buf, g[|g| - 1]) case None => None case Some(d) => Some(ds + [d])
  }

  lemma {:induction false} RawsBroken(buf: seq<byte>, g: seq<nat>, i: nat)
    requires i <= |g| && RawsOf(buf, g[..i]) == None
    ensures RawsOf(buf, g) == None
    decreases |g|
  {
    hide RawAt;
    if i == |g| {
      assert g[..i] == g;
    } else {
      assert g[..|g| - 1][..i] == g[..i];
      RawsBroken(buf, g[..|g| - 1], i);
    }
  }

  lemma {:induction false} EncodeRawsAppend(ds: seq<seq<byte>>, d: seq<byte>)
    requires AllRaw(ds) && |d| <= MAX_RAW
    ensures AllRaw(ds + [d]) && EncodeRaws(ds + [d]) == EncodeRaws(ds) + Pack2Big(|d|) + d
  {
    hide Pack2Big;
    if ds == [] {
      assert ds + [d] == [d];
      assert EncodeRaws([d]) == Pack2Big(|d|) + d + EncodeRaws([]);
    } else {
      EncodeRawsAppend(ds[1..], d);
      assert (ds + [d])[1..] == ds[1..] + [d];
      var h := Pack2Big(|ds[0]|) + ds[0];
      assert h + (EncodeRaws(ds[1..]) + Pack2Big(|d|) + d) == h + EncodeRaws(ds[1..]) + Pack2Big(|d|) + d;
    }
  }

  lemma RawsNext(buf: seq<byte>, g: seq<nat>, i: nat)
    requires i < |g| && RawsOf(buf, g[..i]).Some?
    ensures RawsOf(buf, g[..i + 1]) ==
            match RawAt(buf, g[i]) case None => None case Some(d) => Some(RawsOf(buf, g[..i]).value + [d])
  {
    hide RawAt;
    assert g[..i + 1][..i] == g[..i];
  }

  /** Saves the data of a set, each behind its length; fails when some are not all in the packet. */
  method SaveRaws(buf: seq<byte>, g: seq<nat>) returns (ok: bool, save: Option<seq<byte>>)
    ensures ok <==> RawsOf(buf, g).Some?
    ensures ok ==> Saves(save, EncodeRaws(RawsOf(buf, g).value))
  {
    save := Some([]);
    var i: nat := 0;
    ghost var ds: seq<seq<byte>> := [];
    assert g[..0] == [];
    assert Saves(save, EncodeRaws(ds));
    hide RawAt, Saves, Pack2Big, EncodeRaws;
    while i < |g|
      invariant i <= |g| && RawsOf(buf, g[..i]) == Some(ds) && AllRaw(ds) && Saves(save, EncodeRaws(ds))
    {
      var d := RawData(buf, g[i]);
      RawsNext(buf, g, i);
      if d == None {
        RawsBroken(buf, g, i + 1);
        return false, save;
      }
      save := SaveData(save, Pack2Big(|d.value|), EncodeRaws(ds));
      save := SaveData(save, d.value, EncodeRaws(ds) + Pack2Big(|d.value|));
      EncodeRawsAppend(ds, d.value);
      ds := ds + [d.value];
      i := i + 1;
    }
    assert g[..i] == g;
    ok := true;
  }

  method RawData(buf: seq<byte>, p: nat) returns (r: Option<seq<byte>>)
    ensures r == RawAt(buf, p)
  {
    hide RecordAt;
    var rec := ReadRecord(buf, p);
    if rec == None { return None; }
    var at, n := rec.value.after + 10, rec.value.DataLength();
    if at + n > |buf| { return None; }
    return Some(buf[at..at + n]);
  }

  // ---------- what becomes of a set ----------

  /** What is put into the cache: type and owner in lower case, data, time to live. */
  datatype Stored = Stored(key: seq<byte>, data: seq<byte>, ttl: nat)

  ghost predicate GoodGroup(buf: seq<byte>, g: seq<nat>) {
    g != [] && forall i :: 0 <= i < |g| ==> RecordAt(buf, g[i]).Some?
  }

  function OwnerOf(buf: seq<byte>, g: seq<nat>): (d: seq<byte>)
    requires GoodGroup(buf, g)
  {
    RecordAt(buf, g[0]).value.name
  }

  function TypeOf(buf: seq<byte>, g: seq<nat>): (t: seq<byte>)
    requires GoodGroup(buf, g)
    ensures |t| == 2
  {
    RecordAt(buf, g[0]).value.header[..2]
  }

  function TtlOf(buf: seq<byte>, g: seq<nat>): (t: nat)
    requires GoodGroup(buf, g)
  {
    TtlGet(RecordAt(buf, g[0]).value.header[4..8])
  }

  /** What becomes of the data of a set. */
  datatype Keeping = Spoilt | NotKept | KeptAs(data: seq<byte>)

  function Keep(data: seq<byte>): (k: Keeping) {
    if |data| <= SAVE_SPACE then KeptAs(data) else NotKept
  }

  /** The data under which the set is kept. Of several aliases only the last one is kept. */
  function DataOf(buf: seq<byte>, g: seq<nat>, posauthority: nat): (k: Keeping)
    requires GoodGroup(buf, g)
  {
    var t := TypeOf(buf, g);
    if t == ANY || t == AXFR then NotKept
    else if t == CNAME then
      match TargetAt(buf, g[|g| - 1]) case None => Spoilt case Some(x) => KeptAs(x.name)
    else if HasOwnForm(t) then
      match ItemsOf(buf, g, t, posauthority)
      case None => Spoilt
      case Some(items) => if t == SOA && items == [] then NotKept else Keep(EncodeAll(items))
    else
      match RawsOf(buf, g) case None => Spoilt case Some(ds) => Keep(EncodeRaws(ds))
  }

  datatype Entry = Fails | Passed | Put(s: Stored)

  /** What a set puts into the cache: nothing when its owner is outside the zone that was asked or belongs to other
      root servers, otherwise its data under its type and its owner in lower case. */
  function EntryOf(buf: seq<byte>, zone: seq<byte>, posauthority: nat, roots: seq<Root>, g: seq<nat>): (e: Entry)
    requires GoodGroup(buf, g) && WellFormed(OwnerOf(buf, g))
  {
    if !IsSuffix(OwnerOf(buf, g), zone) || !SameRoots(roots, OwnerOf(buf, g), zone) then Passed
    else match DataOf(buf, g, posauthority)
      case Spoilt => Fails
      case NotKept => Passed
      case KeptAs(data) => Put(Stored(TypeOf(buf, g) + Fold(OwnerOf(buf, g)), data, TtlOf(buf, g)))
  }

  ghost predicate AllGood(buf: seq<byte>, groups: seq<seq<nat>>) {
    forall i :: 0 <= i < |groups| ==> GoodGroup(buf, groups[i]) && WellFormed(OwnerOf(buf, groups[i]))
  }

  /** What all sets put into the cache, one after the other, up to the first one with a broken record. */
  ghost function Entries(buf: seq<byte>, zone: seq<byte>, posauthority: nat, roots: seq<Root>, groups: seq<seq<nat>>):
      (r: (bool, seq<Stored>))
    requires AllGood(buf, groups)
  {
    if groups == [] then (true, [])
    else
      var r := Entries(buf, zone, posauthority, roots, groups[..|groups| - 1]);
      if !r.0 then r
      else match EntryOf(buf, zone, posauthority, roots, groups[|groups| - 1])
        case Fails => (false, r.1)
        case Passed => r
        case Put(s) => (true, r.1 + [s])
  }

  lemma AllGoodPart(buf: seq<byte>, groups: seq<seq<nat>>, i: nat)
    requires AllGood(buf, groups) && i <= |groups|
    ensures AllGood(buf, groups[..i])
  {
    hide GoodGroup, WellFormed;
  }

  lemma EntriesNext(buf: seq<byte>, zone: seq<byte>, posauthority: nat, roots: seq<Root>, groups: seq<seq<nat>>, i: nat)
    requires AllGood(buf, groups) && i < |groups| && AllGood(buf, groups[..i]) && AllGood(buf, groups[..i + 1])
    requires Entries(buf, zone, posauthority, roots, groups[..i]).0
    ensures GoodGroup(buf, groups[i]) && WellFormed(OwnerOf(buf, groups[i]))
    ensures var r := Entries(buf, zone, posauthority, roots, groups[..i]);
            Entries(buf, zone, posauthority, roots, groups[..i + 1]) ==
            match EntryOf(buf, zone, posauthority, roots, groups[i])
            case Fails => (false, r.1)
            case Passed => r
            case Put(s) => (true, r.1 + [s])
  {
    hide EntryOf, GoodGroup, WellFormed;
    assert groups[..i + 1][..i] == groups[..i];
  }

  lemma {:induction false} EntriesBroken(buf: seq<byte>, zone: seq<byte>, posauthority: nat, roots: seq<Root>, groups: seq<seq<nat>>, i: nat)
    requires AllGood(buf, groups) && i <= |groups| && AllGood(buf, groups[..i])
    requires !Entries(buf, zone, posauthority, roots, groups[..i]).0
    ensures Entries(buf, zone, posauthority, roots, groups) == Entries(buf, zone, posauthority, roots, groups[..i])
    decreases |groups|
  {
    hide EntryOf, GoodGroup, WellFormed;
    if i == |groups| {
      assert groups[..i] == groups;
    } else {
      var init := groups[..|groups| - 1];
      assert init[..i] == groups[..i];
      EntriesBroken(buf, zone, posauthority, roots, init, i);
    }
  }

  /** Everything put into the cache is put there by one of the sets; unless a record is broken every set that puts
      something has done so. */
  lemma {:induction false} EntriesAreSets(buf: seq<byte>, zone: seq<byte>, posauthority: nat, roots: seq<Root>, groups: seq<seq<nat>>)
    requires AllGood(buf, groups)
    ensures var r := Entries(buf, zone, posauthority, roots, groups);
            && (forall s :: s in r.1 ==> exists i :: 0 <= i < |groups| && EntryOf(buf, zone, posauthority, roots, groups[i]) == Put(s))
            && (r.0 <==> forall i :: 0 <= i < |groups| ==> EntryOf(buf, zone, posauthority, roots, groups[i]) != Fails)
            && (r.0 ==> forall i :: 0 <= i < |groups| && EntryOf(buf, zone, posauthority, roots, groups[i]).Put? ==>
                  EntryOf(buf, zone, posauthority, roots, groups[i]).s in r.1)
  {
    hide EntryOf, GoodGroup, WellFormed;
    if groups != [] {
      var n := |groups| - 1;
      var init := groups[..n];
      EntriesAreSets(buf, zone, posauthority, roots, init);
      assert forall i :: 0 <= i < n ==> init[i] == groups[i];
      var r := Entries(buf, zone, posauthority, roots, groups);
      forall s | s in r.1
        ensures exists i :: 0 <= i < |groups| && EntryOf(buf, zone, posauthority, roots, groups[i]) == Put(s)
      {
        if s in Entries(buf, zone, posauthority, roots, init).1 {
          var i :| 0 <= i < n && EntryOf(buf, zone, posauthority, roots, init[i]) == Put(s);
          assert EntryOf(buf, zone, posauthority, roots, groups[i]) == Put(s);
        } else {
          assert EntryOf(buf, zone, posauthority, roots, groups[n]) == Put(s);
        }
      }
    }
  }

  // ---------- only names inside the zone ----------

  /** The entry is for the owner of the set, which ends in the zone, and whose closest listed root is the zone's. */
  ghost predicate ForOwner(buf: seq<byte>, zone: seq<byte>, roots: seq<Root>, g: seq<nat>, s: Stored)
    requires GoodGroup(buf, g) && WellFormed(OwnerOf(buf, g))
  {
    var d := OwnerOf(buf, g);
    && s.key == TypeOf(buf, g) + Fold(d) && s.ttl == TtlOf(buf, g)
    && IsSuffix(d, zone) && Search(roots, d, 0) == Search(roots, zone, 0)
  }

  lemma PutIsInside(buf: seq<byte>, zone: seq<byte>, posauthority: nat, roots: seq<Root>, g: seq<nat>, s: Stored)
    requires GoodGroup(buf, g) && WellFormed(OwnerOf(buf, g)) && EntryOf(buf, zone, posauthority, roots, g) == Put(s)
    ensures ForOwner(buf, zone, roots, g, s)
  {
    hide GoodGroup, WellFormed, DataOf, TypeOf, TtlOf, OwnerOf, Search, IsSuffix, Fold;
  }

  /** Whatever the packet, everything that its sets put into the cache is for an owner inside the zone that was asked,
      under the same root servers. */
  lemma EntriesInside(buf: seq<byte>, zone: seq<byte>, posauthority: nat, roots: seq<Root>, groups: seq<seq<nat>>)
    requires AllGood(buf, groups)
    ensures forall s :: s in Entries(buf, zone, posauthority, roots, groups).1 ==>
              exists i :: 0 <= i < |groups| && ForOwner(buf, zone, roots, groups[i], s)
  {
    hide EntryOf, GoodGroup, WellFormed, Entries, ForOwner;
    EntriesAreSets(buf, zone, posauthority, roots, groups);
    forall s | s in Entries(buf, zone, posauthority, roots, groups).1
      ensures exists i :: 0 <= i < |groups| && ForOwner(buf, zone, roots, groups[i], s)
    {
      var i :| 0 <= i < |groups| && EntryOf(buf, zone, posauthority, roots, groups[i]) == Put(s);
      PutIsInside(buf, zone, posauthority, roots, groups[i], s);
    }
  }

  // ---------- aliases in the cache are names ----------

  /** Data under the type of aliases are a name. */
  predicate AliasIsName(key: seq<byte>, data: seq<byte>) {
    |key| >= 2 && key[..2] == CNAME ==> WellFormed(data)
  }

  lemma PutAliasIsName(buf: seq<byte>, zone: seq<byte>, posauthority: nat, roots: seq<Root>, g: seq<nat>)
    requires GoodGroup(buf, g) && WellFormed(OwnerOf(buf, g)) && EntryOf(buf, zone, posauthority, roots, g).Put?
    ensures var s := EntryOf(buf, zone, posauthority, roots, g).s; AliasIsName(s.key, s.data)
  {
    hide WellFormed, IsSuffix, SameRoots, ItemsOf, RawsOf;
    var s := EntryOf(buf, zone, posauthority, roots, g).s;
    assert s.key[..2] == TypeOf(buf, g);
    TargetSound(buf, g[|g| - 1]);
  }

  /** Whatever the packet, the data that its sets put into the cache under the type of aliases are names. */
  lemma AliasesAreNames(buf: seq<byte>, zone: seq<byte>, posauthority: nat, roots: seq<Root>, groups: seq<seq<nat>>)
    requires AllGood(buf, groups)
    ensures forall s :: s in Entries(buf, zone, posauthority, roots, groups).1 ==> AliasIsName(s.key, s.data)
  {
    hide EntryOf, GoodGroup, WellFormed, Entries, AliasIsName;
    EntriesAreSets(buf, zone, posauthority, roots, groups);
    forall s | s in Entries(buf, zone, posauthority, roots, groups).1
      ensures AliasIsName(s.key, s.data)
    {
      var i :| 0 <= i < |groups| && EntryOf(buf, zone, posauthority, roots, groups[i]) == Put(s);
      PutAliasIsName(buf, zone, posauthority, roots, groups[i]);
    }
  }

  // ---------- storing ----------

  /** The data of one set. */
  method DataFor(buf: seq<byte>, g: seq<nat>, t: seq<byte>, posauthority: nat) returns (k: Keeping)
    requires GoodGroup(buf, g) && t == TypeOf(buf, g)
    ensures k == DataOf(buf, g, posauthority)
  {
    hide ItemsOf, RawsOf, RecordAt, Get4Big, TargetAt, Take;
    if t == ANY || t == AXFR { return NotKept; }
    if t == CNAME {
      var r := ReadRecord(buf, g[|g| - 1]);
      var target := ReadTarget(buf, g[|g| - 1], r.value);
      return if target == None then Spoilt else KeptAs(target.value.name);
    }
    if HasOwnForm(t) {
      var ok, save, any := SaveSet(buf, g, t, posauthority);
      if !ok { return Spoilt; }
      return if save == None || (t == SOA && !any) then NotKept else KeptAs(save.value);
    }
    var ok, save := SaveRaws(buf, g);
    if !ok { return Spoilt; }
    return if save == None then NotKept else KeptAs(save.value);
  }

  /** One set. */
  method StoreSet(buf: seq<byte>, zone: seq<byte>, posauthority: nat, roots: seq<Root>, g: seq<nat>) returns (e: Entry)
    requires GoodGroup(buf, g) && WellFormed(zone) && WellFormed(OwnerOf(buf, g)) && RootsOk(roots)
    ensures e == EntryOf(buf, zone, posauthority, roots, g)
  {
    hide DataOf, WellFormed, IsSuffix, RecordAt, Fold, SameRoots, TtlGet, RootsOk;
    var r := ReadRecord(buf, g[0]);
    var rec := r.value;
    var inside := Suffix(rec.name, zone);
    if !inside { return Passed; }
    var same := RootsSame(roots, rec.name, zone);
    if !same { return Passed; }
    var k := DataFor(buf, g, rec.header[..2], posauthority);
    match k
    case Spoilt => return Fails;
    case NotKept => return Passed;
    case KeptAs(data) => return Put(Stored(rec.header[..2] + Fold(rec.name), data, TtlGet(rec.header[4..8])));
  }

  lemma GroupsGood(buf: seq<byte>, ps: seq<nat>, groups: seq<seq<nat>>)
    requires Listed(buf, ps) && Grouped(buf, ps, groups)
    ensures AllGood(buf, groups)
  {
    hide KeyAt, Apart, Smaller;
    forall i | 0 <= i < |groups|
      ensures GoodGroup(buf, groups[i]) && WellFormed(OwnerOf(buf, groups[i]))
    {
      var g := groups[i];
      assert g in groups;
      forall j | 0 <= j < |g|
        ensures RecordAt(buf, g[j]).Some?
      {
        assert g[j] in g;
      }
      OwnerSound(buf, g[0]);
    }
  }

  /** The pass over the sets; it fails at a set with a broken record. */
  method StoreSets(buf: seq<byte>, zone: seq<byte>, posauthority: nat, roots: seq<Root>, groups: seq<seq<nat>>)
      returns (ok: bool, stored: seq<Stored>)
    requires AllGood(buf, groups) && WellFormed(zone) && RootsOk(roots)
    ensures (ok, stored) == Entries(buf, zone, posauthority, roots, groups)
  {
    hide EntryOf, GoodGroup, WellFormed, RootsOk, AllGood;
    stored, ok := [], true;
    var i: nat := 0;
    AllGoodPart(buf, groups, 0);
    while i < |groups|
      invariant i <= |groups| && AllGood(buf, groups[..i]) && ok
      invariant (ok, stored) == Entries(buf, zone, posauthority, roots, groups[..i])
    {
      AllGoodPart(buf, groups, i + 1);
      EntriesNext(buf, zone, posauthority, roots, groups, i);
      var e := StoreSet(buf, zone, posauthority, roots, groups[i]);
      if e.Fails? {
        EntriesBroken(buf, zone, posauthority, roots, groups, i + 1);
        return false, stored;
      }
      if e.Put? { stored := stored + [e.s]; }
      i := i + 1;
    }
    assert groups[..i] == groups;
  }
}
