/** What the resolver keeps of a set of records: the data of its records, one behind the other, with names written
    out. What is kept is what is later read back. */
module SetData {
  import opened Bytes
  import opened Domain
  import opened Packet
  import opened Records
  import opened Scan

  const SAVE_SPACE := 8192
  const MAX_RAW := 65535

  /** The data of one record: bytes of fixed length, and names. */
  datatype Item = Item(raw: seq<byte>, names: seq<seq<byte>>)

  predicate AllNames(ds: seq<seq<byte>>) {
    forall i :: 0 <= i < |ds| ==> WellFormed(ds[i]) && |ds[i]| <= MAX_NAME
  }

  predicate HasForm(it: Item, raw: nat, names: nat) {
    |it.raw| == raw && |it.names| == names && AllNames(it.names)
  }

  predicate AllHaveForm(items: seq<Item>, raw: nat, names: nat) {
    forall i :: 0 <= i < |items| ==> HasForm(items[i], raw, names)
  }

  function Flat(ds: seq<seq<byte>>): (s: seq<byte>) {
    if ds == [] then [] else ds[0] + Flat(ds[1..])
  }

  function Encode(it: Item): (s: seq<byte>) {
    it.raw + Flat(it.names)
  }

  function EncodeAll(items: seq<Item>): (s: seq<byte>) {
    if items == [] then [] else Encode(items[0]) + EncodeAll(items[1..])
  }

  // ---------- reading ----------

  function ReadNames(data: seq<byte>, pos: nat, k: nat): (r: Option<(seq<seq<byte>>, nat)>)
    ensures r.Some? ==> r.value.1 >= pos + k && (k > 0 ==> r.value.1 <= |data|)
    decreases k
  {
    if k == 0 then Some(([], pos))
    else
      GetNameSound(data, pos);
      match Limited(Decode(data, pos, MAX_STEPS))
      case None => None
      case Some(d) =>
        match ReadNames(data, d.end, k - 1)
        case None => None
        case Some(rest) => Some(([d.name] + rest.0, rest.1))
  }

  function ReadItem(data: seq<byte>, pos: nat, raw: nat, names: nat): (r: Option<(Item, nat)>)
    requires raw + names > 0
    ensures r.Some? ==> pos < r.value.1 <= |data|
  {
    if raw > 0 && pos + raw > |data| then None
    else
      match ReadNames(data, pos + raw, names)
      case None => None
      case Some(ds) => Some((Item(if raw > 0 then data[pos..pos + raw] else [], ds.0), ds.1))
  }

  /** The records that are read until one cannot be read. */
  function ReadItems(data: seq<byte>, pos: nat, raw: nat, names: nat): (items: seq<Item>)
    requires raw + names > 0 && pos <= |data|
    decreases |data| - pos
  {
    match ReadItem(data, pos, raw, names)
    case None => []
    case Some(it) => [it.0] + ReadItems(data, it.1, raw, names)
  }

  // ---------- what is written is read back ----------

  lemma Behind<T>(a: seq<T>, b: seq<T>, c: seq<T>)
    ensures (a + (b + c))[|a|..|a| + |b|] == b && a + (b + c) == (a + b) + c
  {
  }

  predicate ReadsNames(data: seq<byte>, pos: nat, ds: seq<seq<byte>>, end: nat) {
    ReadNames(data, pos, |ds|) == Some((ds, end))
  }

  predicate ReadsItem(data: seq<byte>, pos: nat, raw: nat, names: nat, it: Item, end: nat)
    requires raw + names > 0
  {
    ReadItem(data, pos, raw, names) == Some((it, end))
  }

  predicate ReadsName(data: seq<byte>, pos: nat, d: seq<byte>, end: nat) {
    Limited(Decode(data, pos, MAX_STEPS)) == Some(Decoded(d, end))
  }

  lemma ReadNamesNext(data: seq<byte>, pos: nat, d: seq<byte>, end: nat, ds: seq<seq<byte>>, last: nat)
    requires ReadsName(data, pos, d, end) && ReadsNames(data, end, ds, last)
    ensures ReadsNames(data, pos, [d] + ds, last)
  {
    hide Decode;
  }

  lemma OneNameReadsBack(front: seq<byte>, d: seq<byte>, rest: seq<byte>)
    requires WellFormed(d) && |d| <= MAX_NAME
    ensures ReadsName(front + (d + rest), |front|, d, |front| + |d|)
  {
    hide Decodes, ReadsName;
    Behind(front, d, rest);
    DecodeLiteral(front + (d + rest), |front|, d, MAX_STEPS);
    ShortName(front + (d + rest), |front|, d, |front| + |d|);
  }

  lemma ShortName(data: seq<byte>, pos: nat, d: seq<byte>, end: nat)
    requires Decodes(data, pos, MAX_STEPS, d, end) && |d| <= MAX_NAME
    ensures ReadsName(data, pos, d, end)
  {
    hide Decode;
  }

  lemma NoNamesLeft(data: seq<byte>, pos: nat)
    ensures ReadsNames(data, pos, [], pos)
  {
  }

  lemma FirstOf<T>(ds: seq<T>)
    requires ds != []
    ensures [ds[0]] + ds[1..] == ds
  {
  }

  lemma FlatFirst(ds: seq<seq<byte>>, front: seq<byte>, rest: seq<byte>)
    requires ds != []
    ensures front + (Flat(ds) + rest) == front + (ds[0] + (Flat(ds[1..]) + rest))
    ensures front + (Flat(ds) + rest) == (front + ds[0]) + (Flat(ds[1..]) + rest)
    ensures |Flat(ds)| == |ds[0]| + |Flat(ds[1..])|
  {
    assert Flat(ds) + rest == ds[0] + (Flat(ds[1..]) + rest);
  }

  lemma {:induction false} NamesReadBack(front: seq<byte>, ds: seq<seq<byte>>, rest: seq<byte>)
    requires AllNames(ds)
    ensures ReadsNames(front + (Flat(ds) + rest), |front|, ds, |front| + |Flat(ds)|)
    decreases |ds|
  {
    hide ReadsNames, ReadsName, WellFormed;
    if ds == [] {
      NoNamesLeft(front + (Flat(ds) + rest), |front|);
    } else {
      var d := ds[0];
      FlatFirst(ds, front, rest);
      OneNameReadsBack(front, d, Flat(ds[1..]) + rest);
      NamesReadBack(front + d, ds[1..], rest);
      ReadNamesNext(front + (Flat(ds) + rest), |front|, d, |front| + |d|, ds[1..], |front| + |Flat(ds)|);
      FirstOf(ds);
    }
  }

  lemma ReadItemIs(data: seq<byte>, pos: nat, raw: nat, names: nat, it: Item, end: nat)
    requires raw + names > 0 && pos + raw <= |data| && |it.raw| == raw && data[pos..pos + raw] == it.raw
    requires |it.names| == names && ReadsNames(data, pos + raw, it.names, end)
    ensures ReadsItem(data, pos, raw, names, it, end)
  {
  }

  lemma ItemReadsBack(front: seq<byte>, it: Item, rest: seq<byte>, raw: nat, names: nat)
    requires raw + names > 0 && HasForm(it, raw, names)
    ensures ReadsItem(front + (Encode(it) + rest), |front|, raw, names, it, |front| + |Encode(it)|)
  {
    hide ReadsItem, ReadsNames, AllNames;
    var tail := Flat(it.names) + rest;
    assert Encode(it) + rest == it.raw + tail;
    Behind(front, it.raw, tail);
    NamesReadBack(front + it.raw, it.names, rest);
    ReadItemIs(front + (Encode(it) + rest), |front|, raw, names, it, |front| + |Encode(it)|);
  }

  lemma {:induction false} ItemsReadBackFrom(front: seq<byte>, items: seq<Item>, raw: nat, names: nat)
    requires raw + names > 0 && AllHaveForm(items, raw, names)
    ensures |front| <= |front + EncodeAll(items)|
    ensures ReadItems(front + EncodeAll(items), |front|, raw, names) == items
    decreases |items|
  {
    hide ReadItem, Encode, HasForm;
    var buf := front + EncodeAll(items);
    if items == [] {
      NothingLeft(buf, |front|, raw, names);
    } else {
      var it, rest := items[0], EncodeAll(items[1..]);
      ItemReadsBack(front, it, rest, raw, names);
      Behind(front, Encode(it), rest);
      ItemsReadBackFrom(front + Encode(it), items[1..], raw, names);
      assert buf == front + (Encode(it) + rest) == (front + Encode(it)) + rest;
      assert [it] + items[1..] == items;
    }
  }

  lemma NothingLeft(data: seq<byte>, pos: nat, raw: nat, names: nat)
    requires raw + names > 0 && pos == |data|
    ensures ReadItem(data, pos, raw, names) == None
  {
  }

  /** The data of a set are read back record by record, in order, and nothing else is read. */
  lemma ItemsReadBack(items: seq<Item>, raw: nat, names: nat)
    requires raw + names > 0 && AllHaveForm(items, raw, names)
    ensures ReadItems(EncodeAll(items), 0, raw, names) == items
  {
    ItemsReadBackFrom([], items, raw, names);
    assert [] + EncodeAll(items) == EncodeAll(items);
  }

  // ---------- records of no special form ----------

  function EncodeRaws(ds: seq<seq<byte>>): (s: seq<byte>)
    requires forall i :: 0 <= i < |ds| ==> |ds[i]| <= MAX_RAW
  {
    if ds == [] then [] else Pack2Big(|ds[0]|) + ds[0] + EncodeRaws(ds[1..])
  }

  /** Each record behind its length, or None when a length goes beyond the end. */
  function ReadRaws(data: seq<byte>, pos: nat): (r: Option<seq<seq<byte>>>)
    requires pos <= |data|
    decreases |data| - pos
  {
    if pos + 2 > |data| then Some([])
    else
      var n := Get2Big(data, pos);
      if n > |data| - pos - 2 then None
      else match ReadRaws(data, pos + 2 + n)
        case None => None
        case Some(rest) => Some([data[pos + 2..pos + 2 + n]] + rest)
  }

  lemma RawFirst(front: seq<byte>, d: seq<byte>, rest: seq<byte>)
    requires |d| <= MAX_RAW
    ensures var buf, p := front + (Pack2Big(|d|) + d + rest), |front|;
            && p + 2 + |d| <= |buf| && Get2Big(buf, p) == |d| && buf[p + 2..p + 2 + |d|] == d
            && buf == (front + Pack2Big(|d|) + d) + rest && |front + Pack2Big(|d|) + d| == p + 2 + |d|
  {
    var h := Pack2Big(|d|);
    var buf, p := front + (h + d + rest), |front|;
    assert buf[p] == h[0] && buf[p + 1] == h[1];
  }

  /** Records of no special form are read back as well. */
  lemma {:induction false} RawsReadBack(front: seq<byte>, ds: seq<seq<byte>>)
    requires forall i :: 0 <= i < |ds| ==> |ds[i]| <= MAX_RAW
    ensures ReadRaws(front + EncodeRaws(ds), |front|) == Some(ds)
    decreases |ds|
  {
    if ds != [] {
      var d, rest := ds[0], EncodeRaws(ds[1..]);
      RawFirst(front, d, rest);
      RawsReadBack(front + Pack2Big(|d|) + d, ds[1..]);
      FirstOf(ds);
    }
  }

  // ---------- what is kept of a set ----------

  /** Records of these types have a form of their own. */
  predicate HasOwnForm(rtype: seq<byte>) {
    rtype == NS || rtype == PTR || rtype == MX || rtype == SOA || rtype == A
  }

  function RawOf(rtype: seq<byte>): (n: nat) {
    if rtype == MX then 2 else if rtype == SOA then 20 else if rtype == A then 4 else 0
  }

  function NamesOf(rtype: seq<byte>): (n: nat) {
    if rtype == A then 0 else if rtype == SOA then 2 else 1
  }

  /** Taking a record: it may not be readable, or not to be kept. */
  datatype Taken = Broken | Skipped | Kept(it: Item)

  /** The item of the record at `p`: an SOA has its bytes behind the names, the others in front; an SOA of the
      authority section and an address that is not four bytes long are not kept. */
  function Take(buf: seq<byte>, p: nat, rtype: seq<byte>, posauthority: nat): (t: Taken)
    requires HasOwnForm(rtype)
  {
    match RecordAt(buf, p)
    case None => Broken
    case Some(r) =>
      var at := r.after + 10;
      if rtype == A && r.DataLength() != 4 then Skipped
      else if rtype == SOA then
        match ReadNames(buf, at, 2)
        case None => Broken
        case Some(ds) =>
          if ds.1 + 20 > |buf| then Broken
          else if p < posauthority then Kept(Item(buf[ds.1..ds.1 + 20], ds.0)) else Skipped
      else
        match ReadItem(buf, at, RawOf(rtype), NamesOf(rtype))
        case None => Broken
        case Some(it) => Kept(it.0)
  }

  lemma {:induction false} ReadNamesForm(data: seq<byte>, pos: nat, k: nat)
    requires ReadNames(data, pos, k).Some?
    ensures |ReadNames(data, pos, k).value.0| == k && AllNames(ReadNames(data, pos, k).value.0)
    decreases k
  {
    hide Decode, Limited, WellFormed, Skip;
    if k > 0 {
      GetNameSound(data, pos);
      var d := Limited(Decode(data, pos, MAX_STEPS)).value;
      ReadNamesForm(data, d.end, k - 1);
    }
  }

  lemma TakeForm(buf: seq<byte>, p: nat, rtype: seq<byte>, posauthority: nat)
    requires HasOwnForm(rtype) && Take(buf, p, rtype, posauthority).Kept?
    ensures HasForm(Take(buf, p, rtype, posauthority).it, RawOf(rtype), NamesOf(rtype))
  {
    hide Decode, ReadNames;
    var r := RecordAt(buf, p).value;
    if rtype == SOA {
      ReadNamesForm(buf, r.after + 10, 2);
    } else {
      ReadNamesForm(buf, r.after + 10 + RawOf(rtype), NamesOf(rtype));
    }
  }
}
