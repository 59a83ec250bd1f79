/** Printing addresses in random order without repeating one: a shuffled table mixes the bytes of a counter. */
module RandomIp {
  import opened Bytes
  import opened IncreasingSeq

  function UpTo(n: nat): (s: seq<nat>)
    ensures |s| == n && forall i :: 0 <= i < n ==> s[i] == i
  {
    seq(n, i => i)
  }

  /** Every byte occurs once. */
  ghost predicate Permutation(tab: seq<byte>) {
    multiset(tab) == multiset(UpTo(256))
  }

  lemma Injective(tab: seq<byte>, x: byte, y: byte)
    requires Permutation(tab) && |tab| == 256 && tab[x] == tab[y]
    ensures x == y
  {
    if x < y {
      NoRepeats(UpTo(256), tab, x, y);
    } else if y < x {
      NoRepeats(UpTo(256), tab, y, x);
    }
  }

  /** The table after the shuffle, whatever the random numbers are. */
  method Shuffle() returns (tab: array<byte>)
    ensures fresh(tab) && tab.Length == 256 && Permutation(tab[..])
  {
    tab := new byte[256](i => if 0 <= i < 256 then i else 0);
    assert tab[..] == UpTo(256);
    var j: nat := 256;
    while j > 0
      invariant j <= 256 && Permutation(tab[..])
    {
      var i: nat := *;
      i := i % j;
      tab[j - 1], tab[i] := tab[i], tab[j - 1];
      j := j - 1;
    }
  }

  // ---------- the mixing ----------

  function XorByte(a: byte, b: byte): (r: byte) {
    assert Xor(a, b) < 256 by {
      assert Pow2(8) == 256;
      XorBound(a, b, 8);
    }
    Xor(a, b)
  }

  lemma XorByteCancels(c: byte, x: byte, y: byte)
    requires XorByte(c, x) == XorByte(c, y)
    ensures x == y
  {
    XorCancels(c, x);
    XorCancels(c, y);
  }

  /** What is carried into step `k`: the byte written last, or 0. */
  function Carried(s: seq<byte>, k: nat): (c: byte)
    requires s != []
  {
    if k == 0 then 0 else s[(k - 1) % |s|]
  }

  /** Sequences that are the same after one element of each was replaced. */
  lemma Replaced<T>(s: seq<T>, t: seq<T>, i: nat, x: T, y: T)
    requires |s| == |t| && i < |s| && s[i := x] == t[i := y]
    ensures x == y && forall m :: 0 <= m < |s| && m != i ==> s[m] == t[m]
  {
    assert s[i := x][i] == t[i := y][i];
    forall m | 0 <= m < |s| && m != i
      ensures s[m] == t[m]
    {
      assert s[i := x][m] == t[i := y][m];
    }
  }

  lemma SameAt<T>(s: seq<T>, t: seq<T>, i: nat)
    requires |s| == |t| && i < |s| && s[i] == t[i] && forall m :: 0 <= m < |s| && m != i ==> s[m] == t[m]
    ensures s == t
  {
  }

  /** What step `k` makes of the bytes. */
  function Step(tab: seq<byte>, s: seq<byte>, k: nat): (r: seq<byte>)
    requires |tab| == 256 && s != []
    ensures |r| == |s|
  {
    var i := k % |s|;
    s[i := tab[XorByte(Carried(s, k), s[i])]]
  }

  /** The bytes after `k` steps, which go round and round over them. */
  function MixedTo(tab: seq<byte>, s: seq<byte>, k: nat): (r: seq<byte>)
    requires |tab| == 256 && s != []
    ensures |r| == |s|
  {
    if k == 0 then s else Step(tab, MixedTo(tab, s, k - 1), k - 1)
  }

  lemma StepInjective(tab: seq<byte>, s: seq<byte>, t: seq<byte>, k: nat)
    requires Permutation(tab) && |tab| == 256 && |s| == |t| >= 2 && Step(tab, s, k) == Step(tab, t, k)
    ensures s == t
  {
    hide XorByte, Permutation;
    var i := k % |s|;
    var c, d := Carried(s, k), Carried(t, k);
    Replaced(s, t, i, tab[XorByte(c, s[i])], tab[XorByte(d, t[i])]);
    if k > 0 { Neighbours(k - 1, |s|); }
    assert c == d;
    Injective(tab, XorByte(c, s[i]), XorByte(d, t[i]));
    XorByteCancels(c, s[i], t[i]);
    SameAt(s, t, i);
  }

  lemma Neighbours(k: nat, n: nat)
    requires n >= 2
    ensures k % n != (k + 1) % n
  {
    if k % n + 1 < n {
      ModUnique(k + 1, n, k / n, k % n + 1);
    } else {
      ModUnique(k + 1, n, k / n + 1, 0);
    }
  }

  /** Different bytes stay different, however many steps are made. */
  lemma {:induction false} MixedInjective(tab: seq<byte>, s: seq<byte>, t: seq<byte>, k: nat)
    requires Permutation(tab) && |tab| == 256 && |s| == |t| >= 2 && MixedTo(tab, s, k) == MixedTo(tab, t, k)
    ensures s == t
  {
    if k > 0 {
      StepInjective(tab, MixedTo(tab, s, k - 1), MixedTo(tab, t, k - 1), k - 1);
      MixedInjective(tab, s, t, k - 1);
    }
  }

  const ROUNDS := 100

  /** What becomes of the bytes of the counter. */
  function Mixture(tab: seq<byte>, s: seq<byte>): (r: seq<byte>)
    requires |tab| == 256
    ensures |r| == |s|
  {
    if s == [] then [] else if |s| == 1 then [tab[s[0]]] else MixedTo(tab, s, ROUNDS * |s|)
  }

  lemma MixtureInjective(tab: seq<byte>, s: seq<byte>, t: seq<byte>)
    requires Permutation(tab) && |tab| == 256 && |s| == |t| && Mixture(tab, s) == Mixture(tab, t)
    ensures s == t
  {
    if |s| == 1 {
      Injective(tab, s[0], t[0]);
    } else if |s| > 1 {
      MixedInjective(tab, s, t, ROUNDS * |s|);
    }
  }

  // ---------- the counter ----------

  function Digits(u: nat, n: nat): (s: seq<byte>)
    ensures |s| == n
  {
    if n == 0 then [] else [u % 256] + Digits(u / 256, n - 1)
  }

  function Pow256(n: nat): (p: nat)
    ensures p > 0
  {
    if n == 0 then 1 else 256 * Pow256(n - 1)
  }

  lemma {:induction false} DigitsInjective(u: nat, v: nat, n: nat)
    requires u < Pow256(n) && v < Pow256(n) && Digits(u, n) == Digits(v, n)
    ensures u == v
  {
    if n > 0 {
      assert Digits(u, n)[1..] == Digits(u / 256, n - 1) && Digits(v, n)[1..] == Digits(v / 256, n - 1);
      assert u % 256 == Digits(u, n)[0] == v % 256;
      DigitsInjective(u / 256, v / 256, n - 1);
    }
  }

  lemma {:induction false} DigitsWrap(n: nat)
    ensures Digits(Pow256(n), n) == Digits(0, n)
  {
    if n > 0 { DigitsWrap(n - 1); }
  }

  lemma Powers()
    ensures Pow256(0) == 1 && Pow256(1) == 256 && Pow256(2) == 65536 && Pow256(3) == 16777216 && Pow256(4) == 0x1_0000_0000
  {
  }

  // ---------- the addresses ----------

  function Address(tab: seq<byte>, fix: seq<byte>, u: nat): (ip: seq<byte>)
    requires |tab| == 256 && |fix| <= 4
    ensures |ip| == 4
  {
    fix + Mixture(tab, Digits(u, 4 - |fix|))
  }

  /** How many addresses begin with `fixed` given bytes. */
  function Space(fixed: nat): (n: nat)
    requires fixed <= 4
    ensures n > 0
  {
    Pow256(4 - fixed)
  }

  lemma AddressInjective(tab: seq<byte>, fix: seq<byte>, u: nat, v: nat)
    requires Permutation(tab) && |tab| == 256 && |fix| <= 4 && u < Space(|fix|) && v < Space(|fix|)
    requires Address(tab, fix, u) == Address(tab, fix, v)
    ensures u == v
  {
    hide Mixture, Digits, Permutation;
    var n := 4 - |fix|;
    var s, t := Digits(u, n), Digits(v, n);
    assert Address(tab, fix, u)[|fix|..] == Mixture(tab, s) && Address(tab, fix, v)[|fix|..] == Mixture(tab, t);
    MixtureInjective(tab, s, t);
    DigitsInjective(u, v, n);
  }

  /** How many addresses are printed; the number asked for is not checked when no byte is fixed. */
  function Limit(fixed: nat, loops: nat): (n: nat)
    requires fixed <= 4
  {
    if fixed == 4 && loops > 1 then 1
    else if fixed == 3 && loops > 256 then 256
    else if fixed == 2 && loops > 65536 then 65536
    else if fixed == 1 && loops > 16777216 then 16777216
    else loops
  }

  ghost predicate Distinct(s: seq<seq<byte>>) {
    forall i, j :: 0 <= i < j < |s| ==> s[i] != s[j]
  }

  /** The addresses for the counters from `total - 1` down. */
  ghost predicate Printed(t: seq<byte>, fix: seq<byte>, total: nat, printed: seq<seq<byte>>)
    requires |t| == 256 && |fix| <= 4
  {
    |printed| <= total && forall k :: 0 <= k < |printed| ==> printed[k] == Address(t, fix, total - 1 - k)
  }

  lemma NoneTwice(tab: seq<byte>, fix: seq<byte>, printed: seq<seq<byte>>)
    requires Permutation(tab) && |tab| == 256 && |fix| <= 4 && Printed(tab, fix, |printed|, printed)
    requires |printed| <= Space(|fix|)
    ensures Distinct(printed)
  {
    hide Permutation, Address, Space;
    var n := |printed|;
    forall i, j | 0 <= i < j < n
      ensures printed[i] != printed[j]
    {
      if printed[i] == printed[j] { AddressInjective(tab, fix, n - 1 - i, n - 1 - j); }
    }
  }

  lemma SomeTwice(tab: seq<byte>, fix: seq<byte>, printed: seq<seq<byte>>)
    requires |tab| == 256 && |fix| <= 4 && Printed(tab, fix, |printed|, printed)
    requires |printed| > Space(|fix|)
    ensures !Distinct(printed)
  {
    DigitsWrap(4 - |fix|);
    hide Digits, Mixture;
    var p, n := Space(|fix|), |printed|;
    assert Address(tab, fix, p) == Address(tab, fix, 0);
    hide Address, Space;
    assert printed[n - 1 - p] == Address(tab, fix, p) && printed[n - 1] == Address(tab, fix, 0);
  }

  lemma LimitFits(fixed: nat, loops: nat)
    requires fixed <= 4
    ensures Limit(fixed, loops) <= Space(fixed) <==> fixed > 0 || loops <= 0x1_0000_0000
  {
    Powers();
  }

  /** No address is printed twice exactly when some byte is fixed or at most 2^32 addresses are asked for. */
  lemma DistinctWhen(tab: seq<byte>, fix: seq<byte>, loops: nat, printed: seq<seq<byte>>)
    requires Permutation(tab) && |tab| == 256 && |fix| <= 4 && |printed| == Limit(|fix|, loops)
    requires Printed(tab, fix, |printed|, printed)
    ensures Distinct(printed) <==> |fix| > 0 || loops <= 0x1_0000_0000
  {
    LimitFits(|fix|, loops);
    hide Permutation, Printed, Limit, Space, Distinct;
    if |printed| <= Space(|fix|) {
      NoneTwice(tab, fix, printed);
    } else {
      SomeTwice(tab, fix, printed);
    }
  }

  // ---------- the program ----------

  /** The hundred rounds over the free bytes. */
  method Mix(tab: array<byte>, ip: array<byte>, fixed: nat)
    requires tab.Length == 256 && ip.Length == 4 && fixed < 3 && tab != ip
    modifies ip
    ensures ip[..fixed] == old(ip[..fixed])
    ensures ip[fixed..] == MixedTo(tab[..], old(ip[fixed..]), ROUNDS * (4 - fixed))
  {
    ghost var s, t := ip[fixed..], tab[..];
    var c: byte := 0;
    var j: nat := 0;
    hide MixedTo, Carried;
    NothingMixed(t, s);
    while j < ROUNDS
      invariant j <= ROUNDS && tab[..] == t && ip[..fixed] == old(ip[..fixed]) && |s| == 4 - fixed
      invariant ip[fixed..] == MixedTo(t, s, j * (4 - fixed)) && c == Carried(ip[fixed..], j * (4 - fixed))
    {
      c := Round(tab, ip, fixed, c, s, j);
      j := j + 1;
    }
  }

  lemma NothingMixed(tab: seq<byte>, s: seq<byte>)
    requires |tab| == 256 && s != []
    ensures MixedTo(tab, s, 0) == s && Carried(s, 0) == 0
  {
  }

  /** Once over the free bytes. */
  method Round(tab: array<byte>, ip: array<byte>, fixed: nat, c0: byte, ghost s: seq<byte>, ghost j: nat) returns (c: byte)
    requires tab.Length == 256 && ip.Length == 4 && fixed < 3 && tab != ip && |s| == 4 - fixed
    requires ip[fixed..] == MixedTo(tab[..], s, j * |s|) && c0 == Carried(ip[fixed..], j * |s|)
    modifies ip
    ensures ip[..fixed] == old(ip[..fixed])
    ensures ip[fixed..] == MixedTo(tab[..], s, (j + 1) * |s|) && c == Carried(ip[fixed..], (j + 1) * |s|)
  {
    c := c0;
    var i: nat := fixed;
    hide MixedTo, Carried;
    while i < 4
      invariant fixed <= i <= 4 && tab[..] == old(tab[..]) && ip[..fixed] == old(ip[..fixed])
      invariant ip[fixed..] == MixedTo(tab[..], s, j * |s| + i - fixed) && c == Carried(ip[fixed..], j * |s| + i - fixed)
    {
      c := One(tab, ip, fixed, i, c, s, j);
      i := i + 1;
    }
    assert (j + 1) * |s| == j * |s| + 4 - fixed;
  }

  method One(tab: array<byte>, ip: array<byte>, fixed: nat, i: nat, c0: byte, ghost s: seq<byte>, ghost j: nat) returns (c: byte)
    requires tab.Length == 256 && ip.Length == 4 && fixed < 3 && tab != ip && |s| == 4 - fixed && fixed <= i < 4
    requires ip[fixed..] == MixedTo(tab[..], s, j * |s| + i - fixed) && c0 == Carried(ip[fixed..], j * |s| + i - fixed)
    modifies ip
    ensures ip[..fixed] == old(ip[..fixed])
    ensures ip[fixed..] == MixedTo(tab[..], s, j * |s| + i + 1 - fixed)
    ensures c == Carried(ip[fixed..], j * |s| + i + 1 - fixed)
  {
    ghost var k := j * |s| + i - fixed;
    ghost var r, t := ip[fixed..], tab[..];
    ModUnique(k, |s|, j, i - fixed);
    hide XorByte;
    c := XorByte(c0, ip[i]);
    assert c == XorByte(Carried(r, k), r[k % |s|]);
    c := tab[c];
    ip[i] := c;
    assert ip[fixed..] == r[i - fixed := c] == MixedTo(t, s, k + 1);
  }

  /** All addresses have four bytes and begin with the given ones. */
  ghost predicate AllStart(printed: seq<seq<byte>>, fix: seq<byte>) {
    forall k :: 0 <= k < |printed| ==> |printed[k]| == 4 && fix <= printed[k]
  }

  /** The addresses that the program prints, in order. */
  method Print(loops: nat, fix: seq<byte>) returns (printed: seq<seq<byte>>)
    requires |fix| <= 4
    ensures |printed| == Limit(|fix|, loops) && AllStart(printed, fix)
    ensures Distinct(printed) <==> |fix| > 0 || loops <= 0x1_0000_0000
  {
    var tab := Shuffle();
    ghost var t := tab[..];
    var ip := new byte[4](i => if 0 <= i < |fix| then fix[i] else 0);
    assert ip[..|fix|] == fix;
    var left := Limit(|fix|, loops);
    ghost var total := left;
    printed := [];
    hide Permutation, Address, Limit, Printed, Distinct, AllStart;
    NonePrinted(t, fix, total);
    while left > 0
      invariant |printed| + left == total && ip[..|fix|] == fix && tab[..] == t
      invariant Printed(t, fix, total, printed)
    {
      left := left - 1;
      Next(tab, ip, fix, left);
      OneMorePrinted(t, fix, total, printed);
      printed := printed + [ip[..]];
    }
    DistinctWhen(t, fix, loops, printed);
    PrintedStart(t, fix, total, printed);
  }

  lemma NonePrinted(t: seq<byte>, fix: seq<byte>, total: nat)
    requires |t| == 256 && |fix| <= 4
    ensures Printed(t, fix, total, [])
  {
  }

  lemma OneMorePrinted(t: seq<byte>, fix: seq<byte>, total: nat, printed: seq<seq<byte>>)
    requires |t| == 256 && |fix| <= 4 && Printed(t, fix, total, printed) && |printed| < total
    ensures Printed(t, fix, total, printed + [Address(t, fix, total - 1 - |printed|)])
  {
    hide Address;
  }

  lemma PrintedStart(t: seq<byte>, fix: seq<byte>, total: nat, printed: seq<seq<byte>>)
    requires |t| == 256 && |fix| <= 4 && Printed(t, fix, total, printed)
    ensures AllStart(printed, fix)
  {
    hide Mixture, Digits;
  }

  /** The address for one value of the counter. */
  method Next(tab: array<byte>, ip: array<byte>, fix: seq<byte>, u: nat)
    requires tab.Length == 256 && ip.Length == 4 && tab != ip && |fix| <= 4 && ip[..|fix|] == fix
    modifies ip
    ensures ip[..|fix|] == fix && ip[..] == Address(tab[..], fix, u)
  {
    var fixed := |fix|;
    Count(ip, fixed, u);
    ghost var s := ip[fixed..];
    hide MixedTo, Digits;
    if fixed == 3 {
      ip[3] := tab[ip[3]];
      assert ip[fixed..] == [tab[s[0]]];
    } else if fixed < 3 {
      Mix(tab, ip, fixed);
    }
    assert ip[fixed..] == Mixture(tab[..], s);
    assert ip[..] == ip[..fixed] + ip[fixed..];
  }

  /** Puts the digits of the counter into the free bytes. */
  method Count(ip: array<byte>, fixed: nat, u0: nat)
    requires ip.Length == 4 && fixed <= 4
    modifies ip
    ensures ip[..fixed] == old(ip[..fixed]) && ip[fixed..] == Digits(u0, 4 - fixed)
  {
    var u: nat := u0;
    var i: nat := fixed;
    while i < 4
      invariant fixed <= i <= 4 && ip[..fixed] == old(ip[..fixed])
      invariant Digits(u0, 4 - fixed) == ip[fixed..i] + Digits(u, 4 - i)
    {
      ghost var s := ip[fixed..i];
      ip[i] := u % 256;
      assert ip[fixed..i + 1] == s + [u % 256];
      u := u / 256;
      i := i + 1;
    }
  }
}
