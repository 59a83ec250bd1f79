/** The records of a response packet: finding them, ordering them, and going through them set by set. */
module Records {
  import opened Bytes
  import opened Domain
  import opened Packet
  import opened Order
  import opened IncreasingSeq
  import Heapsort

  const CLASS_IN: seq<byte> := [0, 1]

  /** Owner, the position behind it, and the ten bytes there: type, class, time to live, data length. */
  datatype Record = Record(name: seq<byte>, after: nat, header: seq<byte>) {
    function DataLength(): nat
      requires |header| == 10
    {
      Get2Big(header, 8)
    }
  }

  function RecordAt(buf: seq<byte>, pos: nat): (r: Option<Record>)
    ensures r.Some? ==> |r.value.header| == 10
  {
    match Limited(Decode(buf, pos, MAX_STEPS))
    case None => None
    case Some(d) => if d.end + 10 > |buf| then None else Some(Record(d.name, d.end, buf[d.end..d.end + 10]))
  }

  method ReadRecord(buf: seq<byte>, pos: nat) returns (r: Option<Record>)
    ensures r == RecordAt(buf, pos)
  {
    hide Decode, Limited;
    var d := GetName(buf, pos);
    if d == None { return None; }
    var header := Copy(buf, d.value.end, 10);
    if header == None { return None; }
    return Some(Record(d.value.name, d.value.end, header.value));
  }

  /** Positions of `k` records, back to back from `pos` on, or None when one of them cannot be read. */
  function Positions(buf: seq<byte>, pos: nat, k: nat): (r: Option<seq<nat>>)
    decreases k
  {
    if k == 0 then Some([])
    else match RecordAt(buf, pos)
      case None => None
      case Some(rec) =>
        match Positions(buf, rec.after + 10 + rec.DataLength(), k - 1)
        case None => None
        case Some(rest) => Some([pos] + rest)
  }

  /** The position behind `k` records, or None when one of them cannot be read. */
  function EndOf(buf: seq<byte>, pos: nat, k: nat): (r: Option<nat>)
    decreases k
  {
    if k == 0 then Some(pos)
    else match RecordAt(buf, pos)
      case None => None
      case Some(rec) => EndOf(buf, rec.after + 10 + rec.DataLength(), k - 1)
  }

  // ---------- the order ----------

  /** Type and class, then the owner in lower case. */
  function KeyAt(buf: seq<byte>, pos: nat): (k: Key)
    ensures |k.tag| == 4
  {
    match RecordAt(buf, pos)
    case None => Key([0, 0, 0, 0], [])
    case Some(r) => Key(r.header[..4], Fold(r.name))
  }

  function AfterAt(buf: seq<byte>, pos: nat): (p: nat) {
    match RecordAt(buf, pos)
    case None => 0
    case Some(r) => r.after
  }

  predicate Smaller(buf: seq<byte>, p: nat, q: nat) {
    var c := Compare(KeyAt(buf, p), KeyAt(buf, q));
    c < 0 || (c == 0 && AfterAt(buf, p) < AfterAt(buf, q))
  }

  /** The comparison as the resolver makes it, on two records that can be read. */
  method IsSmaller(buf: seq<byte>, pos1: nat, pos2: nat) returns (less: bool)
    requires RecordAt(buf, pos1).Some? && RecordAt(buf, pos2).Some?
    ensures less == Smaller(buf, pos1, pos2)
  {
    var r := ReadRecord(buf, pos1);
    var s := ReadRecord(buf, pos2);
    var h1, h2 := r.value.header[..4], s.value.header[..4];
    assert |Fold(r.value.name)| == |r.value.name| && |Fold(s.value.name)| == |s.value.name|;
    assert KeyAt(buf, pos1) == Key(h1, Fold(r.value.name)) && KeyAt(buf, pos2) == Key(h2, Fold(s.value.name));
    hide RecordAt, KeyAt, Fold, Diff;
    var d := Diff(h1, h2);
    if d < 0 { return true; }
    if d > 0 { return false; }
    if |r.value.name| < |s.value.name| { return true; }
    if |r.value.name| > |s.value.name| { return false; }
    var c := CaseDiff(r.value.name, s.value.name);
    if c < 0 { return true; }
    if c > 0 { return false; }
    return r.value.after < s.value.after;
  }

  function Less(buf: seq<byte>): (f: (nat, nat) -> bool) {
    (p: nat, q: nat) => Smaller(buf, p, q)
  }

  lemma SmallerTransitive(buf: seq<byte>, p: nat, q: nat, r: nat)
    requires !Smaller(buf, p, q) && !Smaller(buf, q, r)
    ensures !Smaller(buf, p, r)
  {
    hide KeyAt, AfterAt, Compare;
    CompareOpposite(KeyAt(buf, p), KeyAt(buf, q));
    CompareOpposite(KeyAt(buf, q), KeyAt(buf, r));
    CompareOpposite(KeyAt(buf, p), KeyAt(buf, r));
    CompareTransitive(KeyAt(buf, r), KeyAt(buf, q), KeyAt(buf, p));
    if Compare(KeyAt(buf, p), KeyAt(buf, r)) == 0 {
      CompareZero(KeyAt(buf, p), KeyAt(buf, q));
      CompareZero(KeyAt(buf, q), KeyAt(buf, r));
    }
  }

  lemma SmallerAsymmetric(buf: seq<byte>, p: nat, q: nat)
    requires Smaller(buf, p, q)
    ensures !Smaller(buf, q, p)
  {
    hide KeyAt, AfterAt, Compare;
    CompareOpposite(KeyAt(buf, p), KeyAt(buf, q));
  }

  lemma LessIsOrder(buf: seq<byte>)
    ensures Heapsort.StrictWeakOrder(Less(buf))
  {
    hide Smaller;
    var less := Less(buf);
    forall p, q | less(p, q)
      ensures !less(q, p)
    {
      SmallerAsymmetric(buf, p, q);
    }
    forall p, q, r | !less(p, q) && !less(q, r)
      ensures !less(p, r)
    {
      SmallerTransitive(buf, p, q, r);
    }
  }

  // ---------- the records in the packet ----------

  /** The records of a packet follow each other. */
  lemma {:induction false} PositionsIncrease(buf: seq<byte>, pos: nat, k: nat)
    requires Positions(buf, pos, k).Some?
    ensures var ps := Positions(buf, pos, k).value;
            && |ps| == k && Increasing(ps)
            && (forall i :: 0 <= i < k ==> RecordAt(buf, ps[i]).Some? && ps[i] >= pos && AfterAt(buf, ps[i]) > ps[i])
            && (forall i, j :: 0 <= i < j < k ==> AfterAt(buf, ps[i]) < ps[j])
    decreases k
  {
    hide Decode;
    if k > 0 {
      var rec := RecordAt(buf, pos).value;
      var next := rec.after + 10 + rec.DataLength();
      DecodeSound(buf, pos, MAX_STEPS);
      PositionsIncrease(buf, next, k - 1);
      var ps, rest := Positions(buf, pos, k).value, Positions(buf, next, k - 1).value;
      assert forall i :: 1 <= i < k ==> ps[i] == rest[i - 1];
    }
  }

  /** The order of two different records of a packet is never open. */
  lemma SmallerTotal(buf: seq<byte>, pos: nat, k: nat, i: nat, j: nat)
    requires Positions(buf, pos, k).Some? && i < k && j < k && i != j
    ensures var ps := Positions(buf, pos, k).value;
            |ps| == k && (Smaller(buf, ps[i], ps[j]) || Smaller(buf, ps[j], ps[i]))
  {
    PositionsIncrease(buf, pos, k);
    var ps := Positions(buf, pos, k).value;
    hide KeyAt, AfterAt, Compare, Positions, RecordAt;
    CompareOpposite(KeyAt(buf, ps[i]), KeyAt(buf, ps[j]));
  }

  // ---------- going through them set by set ----------

  predicate InClass(buf: seq<byte>, p: nat) {
    KeyAt(buf, p).tag[2..4] == CLASS_IN
  }

  /** The records of the packet with the type, class and owner of `p`, in packet order. */
  function Members(buf: seq<byte>, ps: seq<nat>, p: nat): (r: seq<nat>)
    ensures forall q :: q in r <==> q in ps && KeyAt(buf, q) == KeyAt(buf, p)
  {
    if ps == [] then []
    else Members(buf, ps[..|ps| - 1], p) + if KeyAt(buf, ps[|ps| - 1]) == KeyAt(buf, p) then [ps[|ps| - 1]] else []
  }

  lemma {:induction false} MembersIncrease(buf: seq<byte>, ps: seq<nat>, p: nat)
    requires Increasing(ps)
    ensures Increasing(Members(buf, ps, p))
  {
    hide KeyAt;
    if ps != [] {
      var init := ps[..|ps| - 1];
      MembersIncrease(buf, init, p);
      var m, last := Members(buf, init, p), ps[|ps| - 1];
      forall i | 0 <= i < |m|
        ensures m[i] < last
      {
        assert m[i] in m;
      }
      assert Members(buf, ps, p) == m + if KeyAt(buf, last) == KeyAt(buf, p) then [last] else [];
    }
  }

  /** `s` is the list `ps` sorted. */
  ghost predicate SortedOf(buf: seq<byte>, ps: seq<nat>, s: seq<nat>) {
    multiset(s) == multiset(ps) && forall i, j :: 0 <= i < j < |s| ==> !Smaller(buf, s[j], s[i])
  }

  ghost predicate Listed(buf: seq<byte>, ps: seq<nat>) {
    && Increasing(ps)
    && (forall p :: p in ps ==> RecordAt(buf, p).Some?)
    && (forall p, q :: p in ps && q in ps && p < q ==> AfterAt(buf, p) < AfterAt(buf, q))
  }

  lemma PositionsListed(buf: seq<byte>, pos: nat, k: nat)
    requires Positions(buf, pos, k).Some?
    ensures Listed(buf, Positions(buf, pos, k).value)
  {
    PositionsIncrease(buf, pos, k);
    var ps := Positions(buf, pos, k).value;
    forall p, q | p in ps && q in ps && p < q
      ensures AfterAt(buf, p) < AfterAt(buf, q)
    {
      var i :| 0 <= i < |ps| && ps[i] == p;
      var j :| 0 <= j < |ps| && ps[j] == q;
      assert i < j;
    }
  }

  /** In sorted order the keys never go down. */
  lemma KeysSorted(buf: seq<byte>, ps: seq<nat>, s: seq<nat>, i: nat, j: nat)
    requires SortedOf(buf, ps, s) && i <= j < |s|
    ensures Compare(KeyAt(buf, s[i]), KeyAt(buf, s[j])) <= 0
  {
    hide KeyAt, AfterAt, Compare;
    CompareOpposite(KeyAt(buf, s[i]), KeyAt(buf, s[j]));
    if i == j { CompareZero(KeyAt(buf, s[i]), KeyAt(buf, s[j])); }
  }

  /** Equal keys stand together. */
  lemma KeysTogether(buf: seq<byte>, ps: seq<nat>, s: seq<nat>, i: nat, j: nat, m: nat)
    requires SortedOf(buf, ps, s) && i <= j <= m < |s| && KeyAt(buf, s[i]) == KeyAt(buf, s[m])
    ensures KeyAt(buf, s[j]) == KeyAt(buf, s[i])
  {
    KeysSorted(buf, ps, s, i, j);
    KeysSorted(buf, ps, s, j, m);
    CompareTransitive(KeyAt(buf, s[i]), KeyAt(buf, s[j]), KeyAt(buf, s[m]));
    CompareZero(KeyAt(buf, s[i]), KeyAt(buf, s[m]));
  }

  lemma EqualKeysIncrease(buf: seq<byte>, ps: seq<nat>, s: seq<nat>, i: nat, j: nat)
    requires Listed(buf, ps) && SortedOf(buf, ps, s) && i < j < |s| && KeyAt(buf, s[i]) == KeyAt(buf, s[j])
    ensures s[i] < s[j]
  {
    hide KeyAt, AfterAt, Compare;
    NoRepeats(ps, s, i, j);
    SameElements(s, ps, s[i]);
    SameElements(s, ps, s[j]);
    CompareZero(KeyAt(buf, s[i]), KeyAt(buf, s[j]));
    CompareZero(KeyAt(buf, s[j]), KeyAt(buf, s[i]));
  }

  lemma StretchIncreases(buf: seq<byte>, ps: seq<nat>, s: seq<nat>, i: nat, j: nat)
    requires Listed(buf, ps) && SortedOf(buf, ps, s) && i < j <= |s|
    requires forall m :: i <= m < j ==> KeyAt(buf, s[m]) == KeyAt(buf, s[i])
    ensures Increasing(s[i..j])
  {
    hide KeyAt, Listed, SortedOf;
    var g := s[i..j];
    forall x, y | 0 <= x < y < |g|
      ensures g[x] < g[y]
    {
      EqualKeysIncrease(buf, ps, s, i + x, i + y);
    }
  }

  /** The stretch from `i` to `j` of the sorted list has one key, which neither neighbour has. */
  ghost predicate Stretch(buf: seq<byte>, s: seq<nat>, i: nat, j: nat) {
    && i < j <= |s|
    && (forall m :: i <= m < j ==> KeyAt(buf, s[m]) == KeyAt(buf, s[i]))
    && (i > 0 ==> KeyAt(buf, s[i - 1]) != KeyAt(buf, s[i]))
    && (j < |s| ==> KeyAt(buf, s[j]) != KeyAt(buf, s[i]))
  }

  lemma StretchHas(buf: seq<byte>, ps: seq<nat>, s: seq<nat>, i: nat, j: nat, m: nat)
    requires SortedOf(buf, ps, s) && Stretch(buf, s, i, j) && m < |s|
    ensures i <= m < j <==> KeyAt(buf, s[m]) == KeyAt(buf, s[i])
  {
    hide KeyAt, SortedOf;
    if KeyAt(buf, s[m]) == KeyAt(buf, s[i]) {
      if m < i {
        KeysTogether(buf, ps, s, m, i - 1, i);
      } else if m >= j {
        KeysTogether(buf, ps, s, i, j, m);
      }
    }
  }

  /** A maximal stretch of equal keys in the sorted list holds all records of its set, in packet order. */
  lemma StretchIsSet(buf: seq<byte>, ps: seq<nat>, s: seq<nat>, i: nat, j: nat)
    requires Listed(buf, ps) && SortedOf(buf, ps, s) && Stretch(buf, s, i, j)
    ensures s[i..j] == Members(buf, ps, s[i])
  {
    assert Increasing(ps) && multiset(s) == multiset(ps);
    hide KeyAt, Listed, SortedOf, Increasing;
    var g := s[i..j];
    StretchIncreases(buf, ps, s, i, j);
    MembersIncrease(buf, ps, s[i]);
    forall p: nat
      ensures p in g <==> p in Members(buf, ps, s[i])
    {
      SameElements(s, ps, p);
      if p in Members(buf, ps, s[i]) {
        var m :| 0 <= m < |s| && s[m] == p;
        StretchHas(buf, ps, s, i, j, m);
        assert g[m - i] == p;
      }
      if p in g {
        var x :| 0 <= x < |g| && g[x] == p;
        assert s[i + x] == p;
      }
    }
    IncreasingUnique(g, Members(buf, ps, s[i]));
  }

  /** No two of the groups are of the same type, class and owner. */
  ghost predicate Apart(buf: seq<byte>, groups: seq<seq<nat>>) {
    forall x, y :: 0 <= x < y < |groups| ==>
      groups[x] != [] && groups[y] != [] && KeyAt(buf, groups[x][0]) != KeyAt(buf, groups[y][0])
  }

  /** The sets of class IN among the records at `ps`: every one of them, once, with all its members. */
  ghost predicate Grouped(buf: seq<byte>, ps: seq<nat>, groups: seq<seq<nat>>) {
    && (forall g :: g in groups ==> g != [] && g[0] in ps && InClass(buf, g[0]) && g == Members(buf, ps, g[0]))
    && (forall p :: p in ps && InClass(buf, p) ==> Members(buf, ps, p) in groups)
    && Apart(buf, groups)
  }

  /** The same for the first `i` records of the sorted list `s`, and the set at `i` is not among them. */
  ghost predicate GroupedTo(buf: seq<byte>, ps: seq<nat>, s: seq<nat>, i: nat, groups: seq<seq<nat>>) {
    && i <= |s|
    && (forall g :: g in groups ==> g != [] && g[0] in s[..i] && InClass(buf, g[0]) && g == Members(buf, ps, g[0]))
    && (forall m :: 0 <= m < i && InClass(buf, s[m]) ==> Members(buf, ps, s[m]) in groups)
    && Apart(buf, groups)
    && (0 < i < |s| && InClass(buf, s[i]) ==> KeyAt(buf, s[i - 1]) != KeyAt(buf, s[i]))
  }

  lemma GroupSkip(buf: seq<byte>, ps: seq<nat>, s: seq<nat>, i: nat, groups: seq<seq<nat>>)
    requires GroupedTo(buf, ps, s, i, groups) && i < |s| && !InClass(buf, s[i])
    ensures GroupedTo(buf, ps, s, i + 1, groups)
  {
    hide KeyAt;
    assert s[..i + 1] == s[..i] + [s[i]];
    assert i + 1 < |s| && InClass(buf, s[i + 1]) ==> KeyAt(buf, s[i]) != KeyAt(buf, s[i + 1]);
    forall g | g in groups
      ensures g != [] && g[0] in s[..i + 1] && InClass(buf, g[0]) && g == Members(buf, ps, g[0])
    {
      assert g[0] in s[..i];
    }
  }

  lemma GroupIsNew(buf: seq<byte>, ps: seq<nat>, s: seq<nat>, i: nat, j: nat, groups: seq<seq<nat>>, g: seq<nat>)
    requires SortedOf(buf, ps, s) && Stretch(buf, s, i, j)
    requires GroupedTo(buf, ps, s, i, groups) && g in groups
    ensures g != [] && KeyAt(buf, g[0]) != KeyAt(buf, s[i])
  {
    var m :| 0 <= m < |s[..i]| && s[..i][m] == g[0];
    assert s[m] == g[0];
    StretchHas(buf, ps, s, i, j, m);
  }

  lemma GroupMembers(buf: seq<byte>, ps: seq<nat>, s: seq<nat>, i: nat, j: nat, groups: seq<seq<nat>>, m: nat)
    requires GroupedTo(buf, ps, s, i, groups) && Stretch(buf, s, i, j) && s[i..j] == Members(buf, ps, s[i])
    requires m < j && InClass(buf, s[m])
    ensures Members(buf, ps, s[m]) in groups + [s[i..j]]
  {
    hide KeyAt, InClass;
    if m >= i { SameMembers(buf, ps, s[m], s[i]); }
  }

  lemma GroupIsSet(buf: seq<byte>, ps: seq<nat>, s: seq<nat>, i: nat, j: nat, groups: seq<seq<nat>>, g: seq<nat>)
    requires GroupedTo(buf, ps, s, i, groups) && i < j <= |s| && s[i..j] == Members(buf, ps, s[i]) && InClass(buf, s[i])
    requires g in groups + [s[i..j]]
    ensures g != [] && g[0] in s[..j] && InClass(buf, g[0]) && g == Members(buf, ps, g[0])
  {
    hide KeyAt, InClass;
    assert s[..j] == s[..i] + s[i..j];
  }

  lemma GroupStep(buf: seq<byte>, ps: seq<nat>, s: seq<nat>, i: nat, j: nat, groups: seq<seq<nat>>)
    requires Listed(buf, ps) && SortedOf(buf, ps, s) && Stretch(buf, s, i, j) && InClass(buf, s[i])
    requires GroupedTo(buf, ps, s, i, groups)
    ensures GroupedTo(buf, ps, s, j, groups + [s[i..j]])
  {
    hide KeyAt, Listed, SortedOf, InClass;
    StretchIsSet(buf, ps, s, i, j);
    var more := groups + [s[i..j]];
    forall x, y | 0 <= x < y < |more|
      ensures more[x] != [] && more[y] != [] && KeyAt(buf, more[x][0]) != KeyAt(buf, more[y][0])
    {
      if y == |groups| { GroupIsNew(buf, ps, s, i, j, groups, more[x]); }
    }
    forall m | 0 <= m < j && InClass(buf, s[m])
      ensures Members(buf, ps, s[m]) in more
    {
      GroupMembers(buf, ps, s, i, j, groups, m);
    }
    forall g | g in more
      ensures g != [] && g[0] in s[..j] && InClass(buf, g[0]) && g == Members(buf, ps, g[0])
    {
      GroupIsSet(buf, ps, s, i, j, groups, g);
    }
    StretchEnd(buf, s, i, j);
  }

  lemma StretchEnd(buf: seq<byte>, s: seq<nat>, i: nat, j: nat)
    requires Stretch(buf, s, i, j)
    ensures j < |s| ==> KeyAt(buf, s[j - 1]) != KeyAt(buf, s[j])
  {
    hide KeyAt;
  }

  lemma {:induction false} SameMembers(buf: seq<byte>, ps: seq<nat>, p: nat, q: nat)
    requires KeyAt(buf, p) == KeyAt(buf, q)
    ensures Members(buf, ps, p) == Members(buf, ps, q)
  {
    hide KeyAt;
    if ps != [] { SameMembers(buf, ps[..|ps| - 1], p, q); }
  }

  lemma GroupedAll(buf: seq<byte>, ps: seq<nat>, s: seq<nat>, groups: seq<seq<nat>>)
    requires SortedOf(buf, ps, s) && GroupedTo(buf, ps, s, |s|, groups)
    ensures Grouped(buf, ps, groups)
  {
    hide KeyAt;
    assert s[..|s|] == s;
    forall p: nat
      ensures p in s <==> p in ps
    {
      SameElements(s, ps, p);
    }
    forall p | p in ps && InClass(buf, p)
      ensures Members(buf, ps, p) in groups
    {
      var m :| 0 <= m < |s| && s[m] == p;
    }
  }

  lemma StretchBounds(buf: seq<byte>, s: seq<nat>, i: nat, j: nat)
    requires Stretch(buf, s, i, j)
    ensures i < j <= |s|
  {
  }

  /** Whether the record at `q` is in the set that the record `r`, read at `p`, began. */
  method SameSet(buf: seq<byte>, ghost p: nat, r: Record, q: nat) returns (same: bool)
    requires RecordAt(buf, p) == Some(r) && RecordAt(buf, q).Some? && InClass(buf, p)
    ensures same == (KeyAt(buf, q) == KeyAt(buf, p))
  {
    var t := ReadRecord(buf, q);
    var u := t.value;
    GetNameSound(buf, p);
    GetNameSound(buf, q);
    assert KeyAt(buf, p) == Key(r.header[..4], Fold(r.name)) && KeyAt(buf, q) == Key(u.header[..4], Fold(u.name));
    HeaderParts(r.header);
    HeaderParts(u.header);
    hide RecordAt, KeyAt, Fold, Decode, WellFormed;
    var equal := Equal(r.name, u.name);
    if !equal { return false; }
    if u.header[..2] != r.header[..2] { return false; }
    return u.header[2..4] == CLASS_IN;
  }

  lemma HeaderParts(h: seq<byte>)
    requires |h| == 10
    ensures h[..4] == h[..2] + h[2..4] && h[..4][2..4] == h[2..4] && h[..4][..2] == h[..2]
  {
  }

  /** Where the stretch that starts at `i` ends. */
  method EndOfSet(buf: seq<byte>, s: seq<nat>, i: nat, r: Record) returns (j: nat)
    requires i < |s| && (forall p :: p in s ==> RecordAt(buf, p).Some?) && RecordAt(buf, s[i]) == Some(r) && InClass(buf, s[i])
    requires i > 0 ==> KeyAt(buf, s[i - 1]) != KeyAt(buf, s[i])
    ensures Stretch(buf, s, i, j)
  {
    hide RecordAt, KeyAt, InClass;
    j := i + 1;
    while j < |s|
      invariant i < j <= |s| && forall m :: i <= m < j ==> KeyAt(buf, s[m]) == KeyAt(buf, s[i])
    {
      var same := SameSet(buf, s[i], r, s[j]);
      if !same { break; }
      j := j + 1;
    }
  }

  method Group(buf: seq<byte>, ghost ps: seq<nat>, s: seq<nat>) returns (groups: seq<seq<nat>>)
    requires Listed(buf, ps) && SortedOf(buf, ps, s)
    ensures Grouped(buf, ps, groups)
  {
    forall p | p in s
      ensures RecordAt(buf, p).Some?
    {
      SameElements(s, ps, p);
    }
    var i: nat := 0;
    groups := [];
    assert GroupedTo(buf, ps, s, i, groups);
    while i < |s|
      invariant GroupedTo(buf, ps, s, i, groups)
    {
      hide Grouped, SortedOf, Listed, Stretch;
      assert s[i] in s;
      var r := ReadRecord(buf, s[i]);
      var rec := r.value;
      HeaderParts(rec.header);
      assert InClass(buf, s[i]) <==> rec.header[2..4] == CLASS_IN;
      hide RecordAt, KeyAt, InClass;
      if rec.header[2..4] != CLASS_IN {
        GroupSkip(buf, ps, s, i, groups);
        i := i + 1;
      } else {
        assert i > 0 ==> KeyAt(buf, s[i - 1]) != KeyAt(buf, s[i]);
        var j := EndOfSet(buf, s, i, rec);
        GroupStep(buf, ps, s, i, j, groups);
        StretchBounds(buf, s, i, j);
        groups := groups + [s[i..j]];
        i := j;
      }
    }
    GroupedAll(buf, ps, s, groups);
  }

  /** The first `j` of the `k` positions are in `done`, the next one would be at `at`. */
  ghost predicate Collected(buf: seq<byte>, pos: nat, k: nat, at: nat, j: nat, done: seq<nat>) {
    && j <= k && EndOf(buf, pos, k) == EndOf(buf, at, k - j)
    && Positions(buf, pos, k) == match Positions(buf, at, k - j)
                                 case None => None
                                 case Some(rest) => Some(done + rest)
  }

  lemma CollectStart(buf: seq<byte>, pos: nat, k: nat)
    ensures Collected(buf, pos, k, pos, 0, [])
  {
    assert forall rest: seq<nat> :: [] + rest == rest;
  }

  lemma CollectStep(buf: seq<byte>, pos: nat, k: nat, at: nat, j: nat, done: seq<nat>)
    requires Collected(buf, pos, k, at, j, done) && j < k
    ensures match RecordAt(buf, at)
            case None => Positions(buf, pos, k) == None
            case Some(r) => Collected(buf, pos, k, r.after + 10 + r.DataLength(), j + 1, done + [at])
  {
    hide RecordAt;
    match RecordAt(buf, at)
    case None =>
    case Some(r) => Regroup(done, at, Positions(buf, r.after + 10 + r.DataLength(), k - j - 1));
  }

  /** The positions of the `k` records from `pos` on, in an array. */
  method Collect(buf: seq<byte>, pos: nat, k: nat) returns (records: array<nat>, ok: bool)
    ensures fresh(records)
    ensures ok <==> Positions(buf, pos, k).Some?
    ensures ok ==> records[..] == Positions(buf, pos, k).value
  {
    records, ok := new nat[k], true;
    var at: nat := pos;
    var j: nat := 0;
    CollectStart(buf, pos, k);
    assert records[..0] == [];
    hide RecordAt, Collected;
    while j < k
      invariant j <= k && Collected(buf, pos, k, at, j, records[..j])
    {
      CollectStep(buf, pos, k, at, j, records[..j]);
      records[j] := at;
      var r := ReadRecord(buf, at);
      if r == None { return records, false; }
      assert records[..j + 1] == records[..j] + [at];
      at := r.value.after + 10 + r.value.DataLength();
      j := j + 1;
    }
    assert records[..k] == records[..];
    CollectEnd(buf, pos, k, at, records[..]);
  }

  lemma CollectEnd(buf: seq<byte>, pos: nat, k: nat, at: nat, done: seq<nat>)
    requires Collected(buf, pos, k, at, k, done)
    ensures Positions(buf, pos, k) == Some(done) && EndOf(buf, pos, k) == Some(at)
  {
    assert done + [] == done;
  }

  /** Every position collected is among those that there are, if there are that many. */
  lemma CollectedHas(buf: seq<byte>, pos: nat, k: nat, at: nat, j: nat, done: seq<nat>, p: nat)
    requires Collected(buf, pos, k, at, j, done) && p in done
    ensures Positions(buf, pos, k).Some? ==> p in Positions(buf, pos, k).value
  {
  }

  lemma Regroup(done: seq<nat>, at: nat, rest: Option<seq<nat>>)
    ensures rest.Some? ==> done + ([at] + rest.value) == (done + [at]) + rest.value
  {
  }

  /** The resolver's pass over the records of a packet: sort them, then go through them set by set. */
  method SortAndGroup(buf: seq<byte>, pos: nat, k: nat) returns (groups: Option<seq<seq<nat>>>)
    ensures groups.Some? <==> Positions(buf, pos, k).Some?
    ensures groups.Some? ==> Grouped(buf, Positions(buf, pos, k).value, groups.value)
  {
    var records, ok := Collect(buf, pos, k);
    if !ok { return None; }
    ghost var ps := records[..];
    PositionsListed(buf, pos, k);
    LessIsOrder(buf);
    hide Listed, Grouped, Smaller;
    Heapsort.Sort(Less(buf), records);
    assert SortedOf(buf, ps, records[..]);
    var g := Group(buf, ps, records[..]);
    return Some(g);
  }
}
