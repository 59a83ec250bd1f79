/** Bytes, 32-bit words and the bitwise operators of C on unsigned words.

  A byte or a word is the number it stands for; the bitwise operators are
  defined on the binary digits of natural numbers, so that no bit-vector
  reasoning is needed where their laws are used.
 */
module Bytes {

  type byte = x: int | 0 <= x < 256
  type uint32 = x: int | 0 <= x < WORD
  type uint64 = x: int | 0 <= x < TIME
  const WORD: int := 0x1_0000_0000
  const TIME: int := 0x1_0000_0000_0000_0000

  datatype Option<+T> = None | Some(value: T)

  /** An address of version 4. */
  type Ip = s: seq<byte> | |s| == 4 witness [0, 0, 0, 0]
  const NO_IP: Ip := [0, 0, 0, 0]

  // ---------- words in a byte buffer, low byte first ----------

  function Pack4(u: uint32): (s: seq<byte>)
    ensures |s| == 4 && Word(s[0], s[1], s[2], s[3]) == u
  {
    var u1 := u / 256;
    var u2 := u1 / 256;
    [u % 256, u1 % 256, u2 % 256, u2 / 256]
  }

  function Word(a: byte, b: byte, c: byte, d: byte): (u: uint32) {
    a + 0x100 * b + 0x1_0000 * c + 0x100_0000 * d
  }

  function Get4(b: seq<byte>, p: nat): (u: uint32)
    requires p + 4 <= |b|
  {
    Word(b[p], b[p + 1], b[p + 2], b[p + 3])
  }

  lemma Get4Same(b: seq<byte>, c: seq<byte>, p: nat)
    requires p + 4 <= |b| && p + 4 <= |c|
    requires forall k :: p <= k < p + 4 ==> b[k] == c[k]
    ensures Get4(b, p) == Get4(c, p)
  {
  }

  lemma Get4Packed(b: seq<byte>, p: nat, u: uint32)
    requires p + 4 <= |b| && b[p..p + 4] == Pack4(u)
    ensures Get4(b, p) == u
  {
    var s := b[p..p + 4];
    assert s[0] == b[p] && s[1] == b[p + 1] && s[2] == b[p + 2] && s[3] == b[p + 3];
  }

  function Overwrite(b: seq<byte>, p: nat, s: seq<byte>): (r: seq<byte>)
    requires p + |s| <= |b|
    ensures |r| == |b|
    ensures forall k :: 0 <= k < |b| ==> r[k] == if p <= k < p + |s| then s[k - p] else b[k]
  {
    b[..p] + s + b[p + |s|..]
  }

  function Put4(b: seq<byte>, p: nat, u: uint32): (r: seq<byte>)
    requires p + 4 <= |b|
    ensures |r| == |b|
    ensures Get4(r, p) == u
    ensures forall k :: 0 <= k < |b| && !(p <= k < p + 4) ==> r[k] == b[k]
  {
    Overwrite(b, p, Pack4(u))
  }

  // ---------- network byte order ----------

  function Pack2Big(u: nat): (s: seq<byte>)
    requires u < 65536
    ensures |s| == 2 && Get2Big(s, 0) == u
  {
    [u / 256, u % 256]
  }

  function Get2Big(b: seq<byte>, p: nat): (u: nat)
    requires p + 2 <= |b|
    ensures u < 65536
  {
    var hi: int, lo: int := b[p], b[p + 1];
    0x100 * hi + lo
  }

  function Pack4Big(u: uint32): (s: seq<byte>)
    ensures |s| == 4 && Get4Big(s, 0) == u
  {
    var s := Pack4(u);
    [s[3], s[2], s[1], s[0]]
  }

  function Get4Big(b: seq<byte>, p: nat): (u: uint32)
    requires p + 4 <= |b|
  {
    Word(b[p + 3], b[p + 2], b[p + 1], b[p])
  }

  // ---------- exclusive or, digit by digit ----------

  function Xor(a: nat, b: nat): (r: nat)
    decreases a + b
  {
    if a == 0 && b == 0 then 0 else 2 * Xor(a / 2, b / 2) + Differ(a % 2, b % 2)
  }

  function Differ(x: int, y: int): (d: int)
    ensures 0 <= d <= 1
  {
    if x == y then 0 else 1
  }

  lemma Digits(q: int, d: int)
    requires 0 <= d <= 1
    ensures (2 * q + d) / 2 == q && (2 * q + d) % 2 == d
  {
  }

  lemma {:induction false} XorDigits(a: nat, b: nat)
    ensures Xor(a, b) % 2 == Differ(a % 2, b % 2) && Xor(a, b) / 2 == Xor(a / 2, b / 2)
  {
    Digits(Xor(a / 2, b / 2), Differ(a % 2, b % 2));
  }

  lemma {:induction false} XorZero(a: nat)
    ensures Xor(a, 0) == a && Xor(0, a) == a
    decreases a
  {
    if a != 0 { XorZero(a / 2); }
  }

  lemma {:induction false} XorSelf(a: nat)
    ensures Xor(a, a) == 0
  {
    if a != 0 { XorSelf(a / 2); }
  }

  lemma {:induction false} XorCommutes(a: nat, b: nat)
    ensures Xor(a, b) == Xor(b, a)
    decreases a + b
  {
    if a + b != 0 { XorCommutes(a / 2, b / 2); }
  }

  /** Two numbers with the same last digit and the same other digits are equal. */
  lemma SameDigits(x: nat, y: nat)
    requires x % 2 == y % 2 && x / 2 == y / 2
    ensures x == y
  {
  }

  lemma {:induction false} XorAssociates(a: nat, b: nat, c: nat)
    ensures Xor(Xor(a, b), c) == Xor(a, Xor(b, c))
    decreases a + b + c
  {
    if a == 0 {
      XorZero(b);
      XorZero(Xor(b, c));
    } else {
      var x, y := Xor(Xor(a, b), c), Xor(a, Xor(b, c));
      assert x % 2 == y % 2 && x / 2 == Xor(Xor(a / 2, b / 2), c / 2) && y / 2 == Xor(a / 2, Xor(b / 2, c / 2)) by {
        XorDigits(a, b);
        XorDigits(b, c);
        XorDigits(Xor(a, b), c);
        XorDigits(a, Xor(b, c));
      }
      XorAssociates(a / 2, b / 2, c / 2);
      SameDigits(x, y);
    }
  }

  /** Exclusive or with the same word twice changes nothing: an XOR link gives either neighbour from the other. */
  lemma XorCancels(a: nat, b: nat)
    ensures Xor(Xor(a, b), b) == a
    ensures Xor(a, Xor(a, b)) == b
  {
    XorAssociates(a, b, b);
    XorSelf(b);
    XorZero(a);
    XorAssociates(a, a, b);
    XorSelf(a);
    XorZero(b);
  }

  /** An XOR link whose one neighbour changes from `from` to `to`. */
  lemma XorReplaces(link: nat, from: nat, to: nat, other: nat)
    requires link == Xor(from, other)
    ensures Xor(Xor(link, from), to) == Xor(to, other)
  {
    XorCommutes(from, other);
    XorCancels(other, from);
    XorCommutes(other, to);
  }

  function Pow2(n: nat): (r: nat)
    ensures r > 0
  {
    if n == 0 then 1 else 2 * Pow2(n - 1)
  }

  lemma {:induction false} XorBound(a: nat, b: nat, n: nat)
    requires a < Pow2(n) && b < Pow2(n)
    ensures Xor(a, b) < Pow2(n)
    decreases n
  {
    if n != 0 { XorBound(a / 2, b / 2, n - 1); }
  }

  lemma Pow2Word()
    ensures Pow2(32) == WORD
  {
    assert Pow2(8) == 256;
    assert Pow2(16) == 65536;
    assert Pow2(24) == 0x100_0000;
  }

  lemma XorWord(a: uint32, b: uint32)
    ensures Xor(a, b) < WORD
  {
    Pow2Word();
    XorBound(a, b, 32);
  }

  // ---------- bitwise and ----------

  function And(a: nat, b: nat): (r: nat)
    decreases a
  {
    if a == 0 then 0 else (a % 2) * (b % 2) + 2 * And(a / 2, b / 2)
  }

  lemma {:induction false} AndAllOnes(a: nat, n: nat)
    ensures And(a, Pow2(n) - 1) == a % Pow2(n)
    decreases a
  {
    if a == 0 {
    } else if n == 0 {
      assert And(a / 2, 0) == And(a / 2, 0 / 2);
      AndAllOnes(a / 2, 0);
    } else {
      AndAllOnes(a / 2, n - 1);
      assert (Pow2(n) - 1) / 2 == Pow2(n - 1) - 1;
      HalfMod(a, Pow2(n - 1));
    }
  }

  lemma HalfMod(a: nat, m: nat)
    requires m > 0
    ensures a % (2 * m) == 2 * (a / 2 % m) + a % 2
  {
    var q, r := a / 2 / m, 2 * (a / 2 % m) + a % 2;
    assert a / 2 == m * q + a / 2 % m;
    assert a == (2 * m) * q + r;
    ModUnique(a, 2 * m, q, r);
  }

  lemma ModUnique(a: int, m: int, q: int, r: int)
    requires m > 0 && a == m * q + r && 0 <= r < m
    ensures a % m == r && a / m == q
  {
    var q', r' := a / m, a % m;
    var d := q - q';
    assert a == m * q' + r';
    assert m * d == m * q - m * q';
    if d >= 1 {
      MulAtLeast(m, d);
    } else if d <= -1 {
      MulAtLeast(m, -d);
    }
  }

  lemma MulAtLeast(m: int, d: int)
    requires m > 0 && d >= 1
    ensures m * d >= m
  {
  }

  lemma {:induction false} AndDigits(a: nat, b: nat)
    ensures And(2 * a, 2 * b) == 2 * And(a, b)
  {
  }

  /** Masking four times a word with `4 * m - 4`, m a power of two, as the bucket hash does. */
  lemma AndBucketMask(r: nat, n: nat)
    ensures And(4 * r, 4 * Pow2(n) - 4) == 4 * (r % Pow2(n))
  {
    var mask := Pow2(n) - 1;
    AndAllOnes(r, n);
    AndDigits(r, mask);
    AndDigits(2 * r, 2 * mask);
    assert And(2 * (2 * r), 2 * (2 * mask)) == 4 * And(r, mask);
    assert 2 * (2 * r) == 4 * r && 2 * (2 * mask) == 4 * Pow2(n) - 4;
  }
}
