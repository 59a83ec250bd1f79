/** The constant database file: a header of 256 table pointers, the records, the 256 hash tables. */
module CdbFormat {
  import opened Bytes
  import opened CdbTable
  import DjbHash

  const HEADER := 2048

  datatype Record = Record(key: seq<byte>, data: seq<byte>) {
    function Size(): nat { 8 + |key| + |data| }
  }

  /** File position after the records. */
  function End(recs: seq<Record>): (p: nat)
    ensures p >= HEADER + 8 * |recs|
  {
    if recs == [] then HEADER else End(recs[..|recs| - 1]) + recs[|recs| - 1].Size()
  }

  /** Hash and position of every record, in order. */
  function Hps(recs: seq<Record>): (xs: seq<Hp>)
    requires End(recs) <= WORD
    ensures |xs| == |recs|
    ensures forall i :: 0 <= i < |xs| ==> xs[i].p >= HEADER
  {
    if recs == [] then []
    else
      var r := recs[|recs| - 1];
      assert End(recs[..|recs| - 1]) + 8 <= End(recs);
      Hps(recs[..|recs| - 1]) + [Hp(DjbHash.Of(r.key), End(recs[..|recs| - 1]))]
  }

  /** The entries that go to table `b`, in order. */
  function Bucket(xs: seq<Hp>, b: nat): (r: seq<Hp>)
    ensures |r| <= |xs|
    ensures forall i :: 0 <= i < |r| ==> r[i] in xs && r[i].h % 256 == b
  {
    if xs == [] then []
    else Bucket(xs[..|xs| - 1], b) + if xs[|xs| - 1].h % 256 == b then [xs[|xs| - 1]] else []
  }

  predicate RecordAt(f: seq<byte>, p: nat, r: Record) {
    && p + r.Size() <= |f|
    && |r.key| < WORD && |r.data| < WORD
    && Get4(f, p) == |r.key| && Get4(f, p + 4) == |r.data|
    && f[p + 8..p + 8 + |r.key|] == r.key
    && f[p + 8 + |r.key|..p + r.Size()] == r.data
  }

  predicate RecordsAt(f: seq<byte>, recs: seq<Record>) {
    recs == [] || (RecordsAt(f, recs[..|recs| - 1]) && RecordAt(f, End(recs[..|recs| - 1]), recs[|recs| - 1]))
  }

  predicate SlotsAt(f: seq<byte>, p: nat, t: seq<Hp>) {
    p + 8 * |t| <= |f| && forall u :: 0 <= u < |t| ==> SlotAt(f, p + 8 * u, t[u])
  }

  predicate SlotAt(f: seq<byte>, p: nat, x: Hp) {
    p + 8 <= |f| && Get4(f, p) == x.h && Get4(f, p + 4) == x.p
  }

  /** Table `b`: twice as many slots as entries, the entries placed in the order of their records. */
  function TableOf(recs: seq<Record>, b: nat): (t: seq<Hp>)
    requires End(recs) <= WORD
    ensures |t| == 2 * |Bucket(Hps(recs), b)|
  {
    var xs := Bucket(Hps(recs), b);
    Build(xs, 2 * |xs|)
  }

  /** Table `b` is where the header says and is `t`. */
  predicate TableAt(f: seq<byte>, b: nat, t: seq<Hp>) {
    b < 256 && HEADER <= |f| && Get4(f, 8 * b + 4) == |t| && SlotsAt(f, Get4(f, 8 * b), t)
  }

  ghost predicate IsCdb(f: seq<byte>, recs: seq<Record>) {
    && |f| < WORD && End(recs) <= |f|
    && Get4(f, 0) == End(recs)
    && RecordsAt(f, recs)
    && forall b :: 0 <= b < 256 ==> TableAt(f, b, TableOf(recs, b))
  }

  lemma {:induction false} SelectBucket(xs: seq<Hp>, h: uint32)
    ensures Select(Bucket(xs, h % 256), h) == Select(xs, h)
  {
    if xs != [] {
      var ys, x := xs[..|xs| - 1], xs[|xs| - 1];
      SelectBucket(ys, h);
      var b := Bucket(ys, h % 256);
      if x.h % 256 == h % 256 {
        assert Bucket(xs, h % 256) == b + [x] && (b + [x])[..|b|] == b;
      } else {
        assert Bucket(xs, h % 256) == b;
      }
    }
  }

  /** The records with the given key, in order. */
  function Wanted(recs: seq<Record>, key: seq<byte>): (r: seq<Record>) {
    if recs == [] then []
    else Wanted(recs[..|recs| - 1], key) + if recs[|recs| - 1].key == key then [recs[|recs| - 1]] else []
  }
}
