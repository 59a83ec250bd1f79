/** When a stretch of a packet stands for a name: the relation between what the response writer emits
    and what the decompressor reads. */
module Compression {
  import opened Bytes
  import opened Domain
  import opened Packet

  /** The bytes of `buf` at the positions `own` spell `d` at `pos`, up to case. A pointer leads strictly
      backward, to a name that ends before the pointer and starts with a label. */
  ghost predicate Encodes(buf: seq<byte>, own: set<nat>, pos: nat, d: seq<byte>)
    decreases |d|, pos
  {
    && d != [] && pos < |buf| && pos in own
    && (if buf[pos] >= 192 then PointerAt(buf, own, pos) && Encodes(buf, own, Target(buf, pos), d)
        else if buf[pos] == 0 then d == [0]
        else LabelAt(buf, own, pos, d) && Encodes(buf, own, pos + 1 + d[0], d[1 + d[0]..]))
  }

  ghost predicate PointerAt(buf: seq<byte>, own: set<nat>, pos: nat)
    requires pos < |buf| && buf[pos] >= 192
  {
    && pos + 1 < |buf| && pos + 1 in own
    && var t := Target(buf, pos);
       t < pos && 0 < buf[t] < 192 && EndsBy(buf, t, pos)
  }

  predicate EndsBy(buf: seq<byte>, pos: nat, limit: nat) {
    var e := Skip(buf, pos); e.Some? && e.value <= limit
  }

  ghost predicate LabelAt(buf: seq<byte>, own: set<nat>, pos: nat, d: seq<byte>)
    requires pos < |buf| && d != []
  {
    && 0 < buf[pos] <= MAX_LABEL && d[0] == buf[pos] && 1 + d[0] < |d| && pos + 1 + d[0] <= |buf|
    && (forall k: nat :: pos <= k < pos + 1 + d[0] ==> k in own)
    && Same(buf[pos + 1..pos + 1 + d[0]], d[1..1 + d[0]])
  }

  // ---------- decoding ----------

  lemma SameLabelFirst(l: seq<byte>, n: seq<byte>, d: seq<byte>)
    requires l != [] && d != [] && l[0] == d[0] && |l| == 1 + d[0] <= |d|
    requires Same(l[1..], d[1..1 + d[0]]) && Same(n, d[1 + d[0]..])
    ensures Same(l + n, d)
  {
    hide Fold;
    SameConcat(l[..1], d[..1], l[1..], d[1..1 + d[0]]);
    assert l[..1] == d[..1];
    SameConcat(l[..1] + l[1..], d[..1] + d[1..1 + d[0]], n, d[1 + d[0]..]);
    assert l == l[..1] + l[1..];
    assert d == d[..1] + d[1..1 + d[0]] + d[1 + d[0]..];
  }

  /** `r` is the name `d` up to case, ending where skipping ends. */
  ghost predicate Reads(buf: seq<byte>, pos: nat, r: Option<Decoded>, d: seq<byte>) {
    r.Some? && Same(r.value.name, d) && Skip(buf, pos) == Some(r.value.end)
  }

  lemma ReadsLabel(buf: seq<byte>, own: set<nat>, pos: nat, d: seq<byte>, steps: nat)
    requires pos < |buf| && d != [] && LabelAt(buf, own, pos, d) && steps >= 1 + d[0] + 1
    requires Reads(buf, pos + 1 + d[0], Decode(buf, pos + 1 + d[0], steps - 1 - d[0]), d[1 + d[0]..])
    ensures Reads(buf, pos, Decode(buf, pos, steps), d)
  {
    hide Same;
    var next := pos + 1 + d[0];
    assert buf[pos..next][1..] == buf[pos + 1..next];
    SameLabelFirst(buf[pos..next], Decode(buf, next, steps - 1 - d[0]).value.name, d);
  }

  /** What is encoded is decoded, well within the limit on steps. */
  lemma {:induction false} EncodesDecodes(buf: seq<byte>, own: set<nat>, pos: nat, d: seq<byte>, steps: nat)
    requires Encodes(buf, own, pos, d)
    requires steps >= if buf[pos] >= 192 then 2 * |d| else 2 * |d| - 1
    ensures Reads(buf, pos, Decode(buf, pos, steps), d)
    decreases |d|, pos
  {
    hide LabelAt, Same;
    if buf[pos] >= 192 {
      EncodesDecodes(buf, own, Target(buf, pos), d, steps - 1);
    } else if buf[pos] != 0 {
      assert 0 < d[0] == buf[pos] <= MAX_LABEL && 1 + d[0] < |d| by { LabelLength(buf, own, pos, d); }
      EncodesDecodes(buf, own, pos + 1 + d[0], d[1 + d[0]..], steps - 1 - d[0]);
      ReadsLabel(buf, own, pos, d, steps);
    } else {
      ReadsRoot(buf, pos, steps);
    }
  }

  lemma ReadsRoot(buf: seq<byte>, pos: nat, steps: nat)
    requires pos < |buf| && buf[pos] == 0 && steps > 0
    ensures Reads(buf, pos, Decode(buf, pos, steps), [0])
  {
  }

  lemma LabelLength(buf: seq<byte>, own: set<nat>, pos: nat, d: seq<byte>)
    requires pos < |buf| && d != [] && LabelAt(buf, own, pos, d)
    ensures 0 < d[0] == buf[pos] <= MAX_LABEL && 1 + d[0] < |d| && pos + 1 + d[0] <= |buf|
  {
  }

  lemma {:induction false} EncodesSkips(buf: seq<byte>, own: set<nat>, pos: nat, d: seq<byte>)
    requires Encodes(buf, own, pos, d)
    ensures Skip(buf, pos).Some? && pos < Skip(buf, pos).value <= |buf|
    decreases |d|
  {
    hide Same;
    if 0 < buf[pos] < 192 {
      EncodesSkips(buf, own, pos + 1 + d[0], d[1 + d[0]..]);
    }
  }

  // ---------- pointers lead backward ----------

  /** The pointer leads to an earlier name, which ends before the pointer. */
  predicate Backward(buf: seq<byte>, p: nat) {
    p + 1 < |buf| && buf[p] >= 192 && Target(buf, p) < p && EndsBy(buf, Target(buf, p), p)
  }

  ghost predicate AllBackward(buf: seq<byte>, ps: seq<nat>) {
    forall k :: 0 <= k < |ps| && ps[k] < |buf| && buf[ps[k]] >= 192 ==> Backward(buf, ps[k])
  }

  /** Every pointer that is met in decoding the name, at its beginning or behind labels, leads backward. */
  lemma {:induction false} EncodesBackward(buf: seq<byte>, own: set<nat>, pos: nat, d: seq<byte>, steps: nat)
    requires Encodes(buf, own, pos, d)
    ensures AllBackward(buf, Met(buf, pos, steps))
    decreases |d|, pos
  {
    hide LabelAt, PointerAt, AllBackward, Backward;
    NoneMet(buf);
    if steps > 0 {
      if buf[pos] >= 192 {
        PointerBackward(buf, own, pos);
        EncodesBackward(buf, own, Target(buf, pos), d, steps - 1);
        MetFirst(buf, pos, Met(buf, Target(buf, pos), steps - 1));
      } else if buf[pos] != 0 {
        LabelLength(buf, own, pos, d);
        MetFirst(buf, pos, []);
        if steps >= 1 + buf[pos] {
          EncodesBackward(buf, own, pos + 1 + d[0], d[1 + d[0]..], steps - 1 - d[0]);
          MetFirst(buf, pos, Met(buf, pos + 1 + d[0], steps - 1 - d[0]));
        }
      } else {
        MetFirst(buf, pos, []);
      }
    }
  }

  lemma NoneMet(buf: seq<byte>)
    ensures AllBackward(buf, [])
  {
  }

  lemma MetFirst(buf: seq<byte>, pos: nat, ps: seq<nat>)
    requires AllBackward(buf, ps) && (pos < |buf| && buf[pos] >= 192 ==> Backward(buf, pos))
    ensures AllBackward(buf, [pos] + ps) && AllBackward(buf, [pos])
  {
    hide Backward;
  }

  lemma PointerBackward(buf: seq<byte>, own: set<nat>, pos: nat)
    requires pos < |buf| && buf[pos] >= 192 && PointerAt(buf, own, pos)
    ensures Backward(buf, pos) && pos + 1 < |buf| && Target(buf, pos) < pos
  {
  }

  // ---------- growing, patching and cutting the packet ----------

  /** `buf'` still has every byte of `buf` that belongs to a name. */
  ghost predicate Keeps(buf: seq<byte>, own: set<nat>, buf': seq<byte>, own': set<nat>) {
    && |buf| <= |buf'| && own <= own'
    && forall k: nat :: k in own && k < |buf| ==> buf'[k] == buf[k]
  }

  lemma KeepsLabel(buf: seq<byte>, own: set<nat>, buf': seq<byte>, own': set<nat>, pos: nat, d: seq<byte>)
    requires pos < |buf| && d != [] && LabelAt(buf, own, pos, d) && Keeps(buf, own, buf', own')
    ensures LabelAt(buf', own', pos, d)
  {
    hide Same;
    assert buf'[pos + 1..pos + 1 + d[0]] == buf[pos + 1..pos + 1 + d[0]];
  }

  lemma {:induction false} EncodesKept(buf: seq<byte>, own: set<nat>, buf': seq<byte>, own': set<nat>, pos: nat, d: seq<byte>)
    requires Encodes(buf, own, pos, d) && Keeps(buf, own, buf', own')
    ensures Encodes(buf', own', pos, d) && Skip(buf', pos) == Skip(buf, pos)
    decreases |d|, pos
  {
    hide LabelAt;
    if buf[pos] >= 192 {
      EncodesKept(buf, own, buf', own', Target(buf, pos), d);
      PointerKept(buf, own, buf', own', pos);
    } else if buf[pos] != 0 {
      LabelLength(buf, own, pos, d);
      KeepsLabel(buf, own, buf', own', pos, d);
      EncodesKept(buf, own, buf', own', pos + 1 + d[0], d[1 + d[0]..]);
    }
  }

  lemma PointerKept(buf: seq<byte>, own: set<nat>, buf': seq<byte>, own': set<nat>, pos: nat)
    requires pos < |buf| && pos in own && buf[pos] >= 192 && PointerAt(buf, own, pos) && Keeps(buf, own, buf', own')
    requires var t := Target(buf, pos); t in own && Skip(buf', t) == Skip(buf, t)
    ensures buf'[pos] == buf[pos] && PointerAt(buf', own', pos) && Target(buf', pos) == Target(buf, pos)
  {
  }

  /** Cutting the packet behind a name leaves the name readable: all pointers lead backward. */
  lemma LabelCut(buf: seq<byte>, own: set<nat>, pos: nat, d: seq<byte>, limit: nat)
    requires pos < limit <= |buf| && d != [] && LabelAt(buf, own, pos, d) && pos + 1 + d[0] <= limit
    ensures LabelAt(buf[..limit], own, pos, d)
  {
    hide Same;
    assert buf[..limit][pos + 1..pos + 1 + d[0]] == buf[pos + 1..pos + 1 + d[0]];
  }

  lemma PointerInside(buf: seq<byte>, own: set<nat>, pos: nat, limit: nat)
    requires pos < limit <= |buf| && buf[pos] >= 192 && PointerAt(buf, own, pos) && EndsBy(buf, pos, limit)
    ensures pos + 1 < limit && Target(buf, pos) < pos && EndsBy(buf, Target(buf, pos), limit)
  {
  }

  lemma PointerCut(buf: seq<byte>, own: set<nat>, pos: nat, limit: nat)
    requires pos + 1 < limit <= |buf| && buf[pos] >= 192 && PointerAt(buf, own, pos)
    requires Skip(buf[..limit], Target(buf, pos)) == Skip(buf, Target(buf, pos))
    ensures PointerAt(buf[..limit], own, pos) && Target(buf[..limit], pos) == Target(buf, pos)
  {
  }

  lemma {:induction false} EncodesCut(buf: seq<byte>, own: set<nat>, pos: nat, d: seq<byte>, limit: nat)
    requires Encodes(buf, own, pos, d) && EndsBy(buf, pos, limit) && limit <= |buf|
    ensures Encodes(buf[..limit], own, pos, d) && Skip(buf[..limit], pos) == Skip(buf, pos)
    decreases |d|, pos
  {
    hide LabelAt, PointerAt;
    EncodesSkips(buf, own, pos, d);
    if buf[pos] >= 192 {
      PointerInside(buf, own, pos, limit);
      EncodesCut(buf, own, Target(buf, pos), d, limit);
      PointerCut(buf, own, pos, limit);
    } else if buf[pos] != 0 {
      LabelLength(buf, own, pos, d);
      EncodesSkips(buf, own, pos + 1 + d[0], d[1 + d[0]..]);
      EncodesCut(buf, own, pos + 1 + d[0], d[1 + d[0]..], limit);
      LabelCut(buf, own, pos, d, limit);
    }
  }

  // ---------- emitting a name ----------

  lemma {:induction false} EncodesSame(buf: seq<byte>, own: set<nat>, pos: nat, d: seq<byte>, e: seq<byte>)
    requires Encodes(buf, own, pos, d) && Same(d, e) && WellFormed(d) && WellFormed(e)
    ensures Encodes(buf, own, pos, e)
    decreases |d|, pos
  {
    SameFirst(d, e);
    hide Same, Fold;
    if buf[pos] >= 192 {
      EncodesSame(buf, own, Target(buf, pos), d, e);
    } else if buf[pos] == 0 {
      NotEmpty(e);
    } else {
      var n := 1 + d[0];
      LabelSame(buf, own, pos, d, e);
      EncodesSame(buf, own, pos + n, d[n..], e[n..]);
    }
  }

  lemma LabelSame(buf: seq<byte>, own: set<nat>, pos: nat, d: seq<byte>, e: seq<byte>)
    requires pos < |buf| && d != [] && e != [] && LabelAt(buf, own, pos, d) && Same(d, e) && d[0] == e[0]
    ensures LabelAt(buf, own, pos, e) && Same(d[1 + d[0]..], e[1 + d[0]..])
  {
    var n := 1 + d[0];
    SameParts(d, e, 1, n);
    SameParts(d, e, n, |d|);
    assert d[n..|d|] == d[n..] && e[n..|d|] == e[n..];
    SameTransitive(buf[pos + 1..pos + n], d[1..n], e[1..n]);
  }

  ghost function Range(lo: nat, hi: nat): (s: set<nat>)
    ensures forall k: nat :: k in s <==> lo <= k < hi
    decreases hi - lo
  {
    if lo >= hi then {} else {lo} + Range(lo + 1, hi)
  }

  /** Labels written out in full in front of an encoded rest encode the whole name. */
  lemma {:induction false} LiteralPrefix(buf: seq<byte>, own: set<nat>, start: nat, d: seq<byte>, q: nat, k: nat)
    requires WellFormed(d) && Boundary(d, q) && Boundary(d, k) && q <= k <= |d| && start + k <= |buf|
    requires buf[start..start + k] == d[..k] && Range(start, start + k) <= own
    requires Encodes(buf, own, start + k, d[k..])
    ensures Encodes(buf, own, start + q, d[q..]) && Skip(buf, start + q) == Skip(buf, start + k)
    decreases k - q
  {
    hide Encodes, WellFormed, Boundary, Range, Skip;
    if q < k {
      BoundaryNext(d, q, k);
      BoundaryStep(d, q);
      BoundaryTail(d, q);
      LiteralPrefix(buf, own, start, d, q + 1 + d[q], k);
      LiteralLabel(buf, own, start, d, q, k);
    }
  }

  lemma LiteralLabel(buf: seq<byte>, own: set<nat>, start: nat, d: seq<byte>, q: nat, k: nat)
    requires q < k <= |d| && start + k <= |buf| && 0 < d[q] <= MAX_LABEL && q + 1 + d[q] <= k
    requires buf[start..start + k] == d[..k] && Range(start, start + k) <= own
    requires Encodes(buf, own, start + q + 1 + d[q], d[q + 1 + d[q]..])
    ensures Encodes(buf, own, start + q, d[q..]) && Skip(buf, start + q) == Skip(buf, start + q + 1 + d[q])
  {
    hide LabelAt, Range, Encodes, Skip;
    NotEmptyEncoded(buf, own, start + q + 1 + d[q], d[q + 1 + d[q]..]);
    LiteralLabelAt(buf, own, start, d, q, k);
    EncodesLabel(buf, own, start + q, d[q..]);
  }

  lemma NotEmptyEncoded(buf: seq<byte>, own: set<nat>, pos: nat, d: seq<byte>)
    requires Encodes(buf, own, pos, d)
    ensures d != []
  {
  }

  lemma LiteralLabelAt(buf: seq<byte>, own: set<nat>, start: nat, d: seq<byte>, q: nat, k: nat)
    requires q < k <= |d| && start + k <= |buf| && 0 < d[q] <= MAX_LABEL && q + 1 + d[q] <= k
    requires buf[start..start + k] == d[..k] && Range(start, start + k) <= own
    requires q + 1 + d[q] < |d|
    ensures LabelAt(buf, own, start + q, d[q..]) && start + q in own
    ensures d[q..][0] == d[q] && d[q..][1 + d[q]..] == d[q + 1 + d[q]..]
  {
    SliceParts(buf, start, d, q, k);
    assert start + q in Range(start, start + k);
  }

  lemma SliceParts(buf: seq<byte>, start: nat, d: seq<byte>, q: nat, k: nat)
    requires q < k <= |d| && start + k <= |buf| && 0 < d[q] <= MAX_LABEL && q + 1 + d[q] <= k
    requires buf[start..start + k] == d[..k]
    ensures var p, e := start + q, d[q..];
            && buf[p] == d[q] == e[0] && 1 + e[0] <= |e|
            && e[1 + e[0]..] == d[q + 1 + d[q]..]
            && buf[p + 1..p + 1 + e[0]] == e[1..1 + e[0]]
  {
    var e := d[q..];
    assert buf[start + q] == buf[start..start + k][q];
    SliceSlice(buf, start, start + k, q + 1, q + 1 + d[q]);
    SliceSlice(d, 0, k, q + 1, q + 1 + d[q]);
    SliceSlice(d, q, |d|, 1, 1 + d[q]);
    assert d[q..|d|] == e && d[0..k] == d[..k];
  }

  lemma SliceSlice<T>(s: seq<T>, a: nat, b: nat, i: nat, j: nat)
    requires a <= b <= |s| && i <= j <= b - a
    ensures s[a..b][i..j] == s[a + i..a + j]
  {
    var u, v := s[a..b][i..j], s[a + i..a + j];
    forall k | 0 <= k < j - i
      ensures u[k] == v[k]
    {
      assert u[k] == s[a..b][i + k] == s[a + (i + k)];
    }
  }

  lemma EncodesLabel(buf: seq<byte>, own: set<nat>, pos: nat, d: seq<byte>)
    requires pos < |buf| && d != [] && LabelAt(buf, own, pos, d) && pos in own
    requires 1 + d[0] <= |d| && Encodes(buf, own, pos + 1 + d[0], d[1 + d[0]..])
    ensures Encodes(buf, own, pos, d) && Skip(buf, pos) == Skip(buf, pos + 1 + d[0])
  {
    LabelLength(buf, own, pos, d);
  }
}
