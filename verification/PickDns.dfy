/** The address database: lines are gathered, sorted by location and name, and written out set by set. */
module PickDns {
  import opened Bytes
  import opened Domain
  import opened Order
  import opened CdbFormat
  import Heapsort

  type Location = s: seq<byte> | |s| == 2 witness [0, 0]

  datatype Address = Address(name: seq<byte>, ip: Ip, location: Location)

  /** Names are put in lower case when a line is read. */
  predicate Lowered(a: Address) {
    Fold(a.name) == a.name
  }

  function KeyOf(a: Address): (k: Key)
    ensures |k.tag| == 2
  {
    Key(a.location, Fold(a.name))
  }

  /** Under which key of the database the address goes. */
  function DatabaseKey(a: Address): (k: seq<byte>) {
    [43] + a.location + a.name
  }

  function Ips(s: seq<Address>): (data: seq<byte>)
    ensures |data| == 4 * |s|
  {
    if s == [] then [] else Ips(s[..|s| - 1]) + s[|s| - 1].ip
  }

  function Less(): (f: (Address, Address) -> bool) {
    (a: Address, b: Address) => Compare(KeyOf(a), KeyOf(b)) < 0
  }

  lemma LessIsOrder()
    ensures Heapsort.StrictWeakOrder(Less())
  {
    hide KeyOf, Compare;
    var less := Less();
    forall a, b | less(a, b)
      ensures !less(b, a)
    {
      CompareOpposite(KeyOf(a), KeyOf(b));
    }
    forall a, b, c | !less(a, b) && !less(b, c)
      ensures !less(a, c)
    {
      CompareOpposite(KeyOf(a), KeyOf(b));
      CompareOpposite(KeyOf(b), KeyOf(c));
      CompareOpposite(KeyOf(a), KeyOf(c));
      CompareTransitive(KeyOf(c), KeyOf(b), KeyOf(a));
    }
  }

  /** Negative, zero or positive as the first address sorts before, with or after the second. */
  method AddressDiff(p: Address, q: Address) returns (r: int)
    ensures r < 0 <==> Less()(p, q)
    ensures r == 0 <==> KeyOf(p) == KeyOf(q)
  {
    assert |Fold(p.name)| == |p.name| && |Fold(q.name)| == |q.name|;
    CompareZero(KeyOf(p), KeyOf(q));
    hide Fold, Diff;
    r := Diff(p.location, q.location);
    if r < 0 { return -1; }
    if r > 0 { return 1; }
    if |p.name| < |q.name| { return -1; }
    if |p.name| > |q.name| { return 1; }
    r := CaseDiff(p.name, q.name);
  }

  // ---------- sets of the sorted list ----------

  ghost predicate InOrder(s: seq<Address>) {
    forall i, j :: 0 <= i < j < |s| ==> Compare(KeyOf(s[i]), KeyOf(s[j])) <= 0
  }

  lemma SortedInOrder(s: seq<Address>)
    requires Heapsort.Sorted(Less(), s)
    ensures InOrder(s)
  {
    hide KeyOf, Compare;
    forall i, j | 0 <= i < j < |s|
      ensures Compare(KeyOf(s[i]), KeyOf(s[j])) <= 0
    {
      assert Heapsort.AtMost(Less(), s[i], s[j]);
      CompareOpposite(KeyOf(s[i]), KeyOf(s[j]));
    }
  }

  lemma KeysTogether(s: seq<Address>, i: nat, j: nat, m: nat)
    requires InOrder(s) && i < j < m < |s| && KeyOf(s[i]) == KeyOf(s[m])
    ensures KeyOf(s[j]) == KeyOf(s[i])
  {
    hide KeyOf, Compare;
    CompareTransitive(KeyOf(s[i]), KeyOf(s[j]), KeyOf(s[m]));
    CompareZero(KeyOf(s[i]), KeyOf(s[m]));
  }

  /** One key from `i` to `j`, which neither neighbour has. */
  ghost predicate Stretch(s: seq<Address>, i: nat, j: nat) {
    && i < j <= |s|
    && (forall m :: i <= m < j ==> KeyOf(s[m]) == KeyOf(s[i]))
    && (i > 0 ==> KeyOf(s[i - 1]) != KeyOf(s[i]))
    && (j < |s| ==> KeyOf(s[j]) != KeyOf(s[i]))
  }

  lemma StretchHas(s: seq<Address>, i: nat, j: nat, m: nat)
    requires InOrder(s) && Stretch(s, i, j) && m < |s|
    ensures i <= m < j <==> KeyOf(s[m]) == KeyOf(s[i])
  {
    hide KeyOf, InOrder;
    if KeyOf(s[m]) == KeyOf(s[i]) {
      if m < i - 1 {
        KeysTogether(s, m, i - 1, i);
      } else if m > j {
        KeysTogether(s, i, j, m);
      }
    }
  }

  /** `g` holds the addresses of `all` with the key of `a`, each as often as `all` does, and nothing else. */
  ghost predicate IsSet(all: multiset<Address>, a: Address, g: seq<Address>) {
    forall b :: multiset(g)[b] == if KeyOf(b) == KeyOf(a) then all[b] else 0
  }

  lemma CountParts(s: seq<Address>, i: nat, j: nat, b: Address)
    requires i <= j <= |s|
    ensures multiset(s)[b] == multiset(s[..i])[b] + multiset(s[i..j])[b] + multiset(s[j..])[b]
  {
    assert s == s[..i] + s[i..j] + s[j..];
  }

  lemma NotThere(s: seq<Address>, b: Address)
    requires forall m :: 0 <= m < |s| ==> KeyOf(s[m]) != KeyOf(b)
    ensures multiset(s)[b] == 0
  {
    assert b !in s;
  }

  lemma StretchIsSet(s: seq<Address>, i: nat, j: nat)
    requires InOrder(s) && Stretch(s, i, j)
    ensures IsSet(multiset(s), s[i], s[i..j])
  {
    forall b
      ensures multiset(s[i..j])[b] == if KeyOf(b) == KeyOf(s[i]) then multiset(s)[b] else 0
    {
      hide InOrder, KeyOf;
      forall m: nat | m < |s|
        ensures i <= m < j <==> KeyOf(s[m]) == KeyOf(s[i])
      {
        StretchHas(s, i, j, m);
      }
      if KeyOf(b) == KeyOf(s[i]) {
        CountParts(s, i, j, b);
        NotThere(s[..i], b);
        NotThere(s[j..], b);
      } else {
        NotThere(s[i..j], b);
      }
    }
  }

  // ---------- writing them out ----------

  lemma DatabaseKeyIsKey(a: Address, b: Address)
    requires Lowered(a) && Lowered(b)
    ensures DatabaseKey(a) == DatabaseKey(b) <==> KeyOf(a) == KeyOf(b)
  {
    var k, l := DatabaseKey(a), DatabaseKey(b);
    assert k[1..3] == a.location && k[3..] == a.name && l[1..3] == b.location && l[3..] == b.name;
  }

  ghost predicate Entry(all: multiset<Address>, r: Record, g: seq<Address>) {
    g != [] && r == Record(DatabaseKey(g[0]), Ips(g)) && IsSet(all, g[0], g)
  }

  ghost predicate Entries(all: multiset<Address>, recs: seq<Record>, sets: seq<seq<Address>>) {
    |sets| == |recs| && forall x :: 0 <= x < |recs| ==> Entry(all, recs[x], sets[x])
  }

  ghost predicate Apart(recs: seq<Record>) {
    forall x, y :: 0 <= x < y < |recs| ==> recs[x].key != recs[y].key
  }

  ghost predicate Has(recs: seq<Record>, key: seq<byte>) {
    exists x :: 0 <= x < |recs| && recs[x].key == key
  }

  /** One record per location and name, holding the addresses of all lines with them. */
  ghost predicate Published(all: multiset<Address>, recs: seq<Record>, sets: seq<seq<Address>>) {
    Entries(all, recs, sets) && Apart(recs) && forall a :: a in all ==> Has(recs, DatabaseKey(a))
  }

  ghost predicate FromFirst(s: seq<Address>, i: nat, sets: seq<seq<Address>>) {
    i <= |s| && forall x :: 0 <= x < |sets| ==> sets[x] != [] && sets[x][0] in s[..i]
  }

  ghost predicate HasFirst(s: seq<Address>, i: nat, recs: seq<Record>) {
    i <= |s| && forall m :: 0 <= m < i ==> Has(recs, DatabaseKey(s[m]))
  }

  /** The first `i` addresses of the sorted list are written, and the set at `i` has not begun. */
  ghost predicate Written(s: seq<Address>, i: nat, recs: seq<Record>, sets: seq<seq<Address>>) {
    && Entries(multiset(s), recs, sets) && Apart(recs) && FromFirst(s, i, sets) && HasFirst(s, i, recs)
    && (0 < i < |s| ==> KeyOf(s[i - 1]) != KeyOf(s[i]))
  }

  lemma KeyIsNew(s: seq<Address>, i: nat, j: nat, recs: seq<Record>, sets: seq<seq<Address>>, x: nat)
    requires InOrder(s) && Stretch(s, i, j) && AllLowered(s)
    requires Entries(multiset(s), recs, sets) && FromFirst(s, i, sets) && x < |recs|
    ensures recs[x].key != DatabaseKey(s[i])
  {
    hide InOrder, KeyOf, DatabaseKey, Lowered, IsSet;
    assert Entry(multiset(s), recs[x], sets[x]);
    var m :| 0 <= m < |s[..i]| && s[..i][m] == sets[x][0];
    assert s[m] == sets[x][0];
    StretchHas(s, i, j, m);
    DatabaseKeyIsKey(s[m], s[i]);
  }

  lemma StretchHasKey(s: seq<Address>, i: nat, j: nat, m: nat)
    requires Stretch(s, i, j) && i <= m < j && AllLowered(s)
    ensures DatabaseKey(s[m]) == DatabaseKey(s[i])
  {
    hide KeyOf, DatabaseKey, Lowered;
    DatabaseKeyIsKey(s[m], s[i]);
  }

  lemma HasMore(recs: seq<Record>, r: Record, key: seq<byte>)
    ensures Has(recs, key) ==> Has(recs + [r], key)
    ensures Has(recs + [r], r.key)
  {
    var more := recs + [r];
    assert more[|recs|] == r;
    if Has(recs, key) {
      var x :| 0 <= x < |recs| && recs[x].key == key;
      assert more[x].key == key;
    }
  }

  ghost predicate AllLowered(s: seq<Address>) {
    forall m :: 0 <= m < |s| ==> Lowered(s[m])
  }

  lemma ApartNext(s: seq<Address>, i: nat, j: nat, recs: seq<Record>, sets: seq<seq<Address>>, r: Record)
    requires InOrder(s) && AllLowered(s) && Stretch(s, i, j) && Written(s, i, recs, sets) && r.key == DatabaseKey(s[i])
    ensures Apart(recs + [r])
  {
    hide InOrder, KeyOf, DatabaseKey, Lowered, IsSet, Entries, FromFirst;
    var more := recs + [r];
    forall x, y | 0 <= x < y < |more|
      ensures more[x].key != more[y].key
    {
      if y == |recs| { KeyIsNew(s, i, j, recs, sets, x); }
    }
  }

  lemma HasNext(s: seq<Address>, i: nat, j: nat, recs: seq<Record>, r: Record)
    requires AllLowered(s) && Stretch(s, i, j) && HasFirst(s, i, recs) && r.key == DatabaseKey(s[i])
    ensures HasFirst(s, j, recs + [r])
  {
    hide KeyOf, DatabaseKey, Lowered;
    forall m | 0 <= m < j
      ensures Has(recs + [r], DatabaseKey(s[m]))
    {
      if m >= i { StretchHasKey(s, i, j, m); }
      HasMore(recs, r, DatabaseKey(s[m]));
    }
  }

  lemma FromNext(s: seq<Address>, i: nat, j: nat, sets: seq<seq<Address>>)
    requires i < j <= |s| && FromFirst(s, i, sets)
    ensures FromFirst(s, j, sets + [s[i..j]])
  {
    assert s[..j] == s[..i] + s[i..j];
  }

  lemma EntriesNext(all: multiset<Address>, recs: seq<Record>, sets: seq<seq<Address>>, r: Record, g: seq<Address>)
    requires Entries(all, recs, sets) && Entry(all, r, g)
    ensures Entries(all, recs + [r], sets + [g])
  {
    hide Entry;
  }

  lemma WrittenNext(s: seq<Address>, i: nat, j: nat, recs: seq<Record>, sets: seq<seq<Address>>)
    requires InOrder(s) && AllLowered(s) && Stretch(s, i, j) && Written(s, i, recs, sets)
    ensures Written(s, j, recs + [Record(DatabaseKey(s[i]), Ips(s[i..j]))], sets + [s[i..j]])
  {
    var r := Record(DatabaseKey(s[i]), Ips(s[i..j]));
    StretchIsSet(s, i, j);
    assert Entry(multiset(s), r, s[i..j]);
    ApartNext(s, i, j, recs, sets, r);
    HasNext(s, i, j, recs, r);
    FromNext(s, i, j, sets);
    EntriesNext(multiset(s), recs, sets, r, s[i..j]);
    hide KeyOf, DatabaseKey, Apart, Entries, HasFirst, FromFirst, InOrder, AllLowered;
    assert j < |s| ==> KeyOf(s[j - 1]) != KeyOf(s[j]);
  }

  lemma WrittenNone(s: seq<Address>)
    ensures Written(s, 0, [], [])
  {
  }

  lemma WrittenAll(s: seq<Address>, recs: seq<Record>, sets: seq<seq<Address>>)
    requires Written(s, |s|, recs, sets)
    ensures Published(multiset(s), recs, sets)
  {
    hide KeyOf, DatabaseKey, Has, Apart, Entries;
    forall a | a in multiset(s)
      ensures Has(recs, DatabaseKey(a))
    {
      var m :| 0 <= m < |s| && s[m] == a;
    }
  }

  /** Where the set that starts at `i` ends. */
  method EndOfSet(s: array<Address>, i: nat) returns (j: nat)
    requires i < s.Length && (i > 0 ==> KeyOf(s[i - 1]) != KeyOf(s[i]))
    ensures Stretch(s[..], i, j)
  {
    hide KeyOf;
    j := i + 1;
    while j < s.Length
      invariant i < j <= s.Length && forall m :: i <= m < j ==> KeyOf(s[m]) == KeyOf(s[i])
    {
      var d := AddressDiff(s[i], s[j]);
      if d != 0 { break; }
      j := j + 1;
    }
  }

  /** The bytes of the addresses from `i` to `j`. */
  method Addresses(s: array<Address>, from: nat, j: nat) returns (result: seq<byte>)
    requires from <= j <= s.Length
    ensures result == Ips(s[from..j])
  {
    var i: nat := from;
    result := [];
    while i < j
      invariant from <= i <= j && result == Ips(s[from..i])
    {
      assert s[from..i + 1] == s[from..i] + [s[i]];
      result := result + s[i].ip;
      i := i + 1;
    }
  }

  /** Sorts the table and gives the records in the order in which they go into the database. */
  method Publish(x: array<Address>) returns (recs: seq<Record>, ghost sets: seq<seq<Address>>)
    requires AllLowered(x[..])
    modifies x
    ensures Published(multiset(old(x[..])), recs, sets)
  {
    ghost var all := x[..];
    LessIsOrder();
    hide AllLowered, Heapsort.StrictWeakOrder, Heapsort.Sorted, KeyOf;
    Heapsort.Sort(Less(), x);
    KeptBySort(all, x[..]);
    SortedInOrder(x[..]);
    recs, sets := [], [];
    var i: nat := 0;
    ghost var s := x[..];
    WrittenNone(s);
    hide InOrder, DatabaseKey, Published, Written;
    while i < x.Length
      invariant i <= x.Length && x[..] == s && Written(s, i, recs, sets)
    {
      BetweenSets(s, i, recs, sets);
      var j := EndOfSet(x, i);
      WrittenNext(s, i, j, recs, sets);
      StretchBounds(s, i, j);
      var key := DatabaseKey(x[i]);
      var result := Addresses(x, i, j);
      recs, sets := recs + [Record(key, result)], sets + [s[i..j]];
      i := j;
    }
    WrittenAll(s, recs, sets);
  }

  lemma BetweenSets(s: seq<Address>, i: nat, recs: seq<Record>, sets: seq<seq<Address>>)
    requires Written(s, i, recs, sets)
    ensures 0 < i < |s| ==> KeyOf(s[i - 1]) != KeyOf(s[i])
  {
  }

  lemma StretchBounds(s: seq<Address>, i: nat, j: nat)
    requires Stretch(s, i, j)
    ensures i < j <= |s|
  {
  }

  lemma KeptBySort(s: seq<Address>, t: seq<Address>)
    requires multiset(s) == multiset(t) && AllLowered(s)
    ensures AllLowered(t)
  {
    forall m | 0 <= m < |t|
      ensures Lowered(t[m])
    {
      assert t[m] in multiset(s);
      var n :| 0 <= n < |s| && s[n] == t[m];
    }
  }

  // ---------- reading them back ----------

  lemma {:induction false} WantedOnce(before: seq<Record>, recs: seq<Record>, x: nat)
    requires Apart(recs) && x < |recs| && forall i :: 0 <= i < |before| ==> before[i].key != recs[x].key
    ensures Wanted(before + recs, recs[x].key) == [recs[x]]
  {
    var all, n := before + recs, |recs| - 1;
    assert all[..|all| - 1] == before + recs[..n];
    if x < n {
      WantedOnce(before, recs[..n], x);
    } else {
      NoneWanted(before + recs[..n], recs[x].key);
    }
  }

  lemma {:induction false} NoneWanted(recs: seq<Record>, key: seq<byte>)
    requires forall i :: 0 <= i < |recs| ==> recs[i].key != key
    ensures Wanted(recs, key) == []
  {
    if recs != [] { NoneWanted(recs[..|recs| - 1], key); }
  }

  /** Looking up any location and name that a line gave finds one record, with exactly the addresses of the
      lines for them; the records in front are those of the other kind, whose keys start with another letter. */
  lemma OneRecordEach(all: multiset<Address>, before: seq<Record>, recs: seq<Record>, sets: seq<seq<Address>>, a: Address)
      returns (g: seq<Address>)
    requires Published(all, recs, sets) && a in all && (forall b :: b in all ==> Lowered(b))
    requires forall i :: 0 <= i < |before| ==> before[i].key != [] && before[i].key[0] == 37
    ensures Wanted(before + recs, DatabaseKey(a)) == [Record(DatabaseKey(a), Ips(g))]
    ensures IsSet(all, a, g)
  {
    assert Has(recs, DatabaseKey(a));
    var x :| 0 <= x < |recs| && recs[x].key == DatabaseKey(a);
    WantedOnce(before, recs, x);
    g := sets[x];
    assert Entry(all, recs[x], g);
    SetMember(all, g);
    DatabaseKeyIsKey(a, g[0]);
  }

  lemma SetMember(all: multiset<Address>, g: seq<Address>)
    requires g != [] && IsSet(all, g[0], g)
    ensures g[0] in all
  {
    assert g[0] in multiset(g);
  }
}
