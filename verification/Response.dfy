/** The response packet under construction: header, question, records, and the table of names for compression. */
module Response {
  import opened Bytes
  import opened Domain
  import opened Packet
  import opened Compression
  import opened Shortening

  const CAPACITY := 65535
  const HEADER := 12

  /** A name written into the packet: where it starts, what it is, where its encoding ends. */
  datatype Emitted = Emitted(pos: nat, name: seq<byte>, end: nat)

  /** A name that can be asked for or answered with. */
  predicate IsName(d: seq<byte>) {
    WellFormed(d) && |d| <= MAX_NAME
  }

  ghost predicate Written(buf: seq<byte>, own: set<nat>, e: Emitted) {
    IsName(e.name) && Encodes(buf, own, e.pos, e.name) && Skip(buf, e.pos) == Some(e.end) && e.end <= |buf|
  }

  ghost predicate NamesOk(buf: seq<byte>, own: set<nat>, names: seq<Emitted>) {
    forall i :: 0 <= i < |names| ==> Written(buf, own, names[i])
  }

  /** An entry of the name table: a pointer to it can replace the name. */
  ghost predicate EntryOk(buf: seq<byte>, own: set<nat>, d: seq<byte>, p: nat) {
    && WellFormed(d) && |d| <= TABLE_NAME && p < POINTER_LIMIT
    && Encodes(buf, own, p, d) && 0 < buf[p] < 192 && EndsBy(buf, p, |buf|)
  }

  ghost predicate TableOk(buf: seq<byte>, own: set<nat>, tab: seq<seq<byte>>, ptr: seq<nat>) {
    |tab| == |ptr| && forall i :: 0 <= i < |tab| ==> EntryOk(buf, own, tab[i], ptr[i])
  }

  /** Name bytes lie behind the header and outside the length field that is still to be filled in. */
  ghost predicate OwnOk(own: set<nat>, len: nat, started: bool, dpos: nat) {
    && (forall k: nat :: k in own ==> HEADER <= k < len)
    && (started ==> HEADER + 2 <= dpos <= len && dpos - 1 !in own && dpos - 2 !in own)
  }

  // ---------- keeping names readable ----------

  lemma NamesKept(buf: seq<byte>, own: set<nat>, buf': seq<byte>, own': set<nat>, names: seq<Emitted>)
    requires NamesOk(buf, own, names) && Keeps(buf, own, buf', own')
    ensures NamesOk(buf', own', names)
  {
    forall i | 0 <= i < |names|
      ensures Written(buf', own', names[i])
    {
      assert Written(buf, own, names[i]);
      EncodesKept(buf, own, buf', own', names[i].pos, names[i].name);
    }
  }

  lemma EntryKept(buf: seq<byte>, own: set<nat>, buf': seq<byte>, own': set<nat>, d: seq<byte>, p: nat)
    requires EntryOk(buf, own, d, p) && Keeps(buf, own, buf', own')
    ensures EntryOk(buf', own', d, p)
  {
    EncodesKept(buf, own, buf', own', p, d);
    EncodesOwns(buf, own, p, d);
  }

  lemma EncodesOwns(buf: seq<byte>, own: set<nat>, pos: nat, d: seq<byte>)
    requires Encodes(buf, own, pos, d)
    ensures pos < |buf| && pos in own
  {
  }

  lemma TableKept(buf: seq<byte>, own: set<nat>, buf': seq<byte>, own': set<nat>, tab: seq<seq<byte>>, ptr: seq<nat>)
    requires TableOk(buf, own, tab, ptr) && Keeps(buf, own, buf', own')
    ensures TableOk(buf', own', tab, ptr)
  {
    forall i | 0 <= i < |tab|
      ensures EntryOk(buf', own', tab[i], ptr[i])
    {
      EntryKept(buf, own, buf', own', tab[i], ptr[i]);
    }
  }

  lemma KeepsAppend(buf: seq<byte>, own: set<nat>, s: seq<byte>, more: set<nat>)
    ensures Keeps(buf, own, buf + s, own + more)
  {
  }

  // ---------- one name ----------

  /** Entries made while the name `d` is being written from `start` on. */
  ghost predicate Pending(tab: seq<seq<byte>>, ptr: seq<nat>, n: nat, d: seq<byte>, start: nat, k: nat)
    requires WellFormed(d)
  {
    && n <= |tab| == |ptr|
    && forall i :: n <= i < |tab| ==> PendingEntry(tab[i], ptr[i], d, start, k)
  }

  ghost predicate PendingEntry(e: seq<byte>, p: nat, d: seq<byte>, start: nat, k: nat)
    requires WellFormed(d)
  {
    && start <= p < start + k && p - start < |d| && Boundary(d, p - start)
    && e == d[p - start..] && |e| <= TABLE_NAME && p < POINTER_LIMIT && d[p - start] != 0
  }

  lemma PendingMore(tab: seq<seq<byte>>, ptr: seq<nat>, n: nat, d: seq<byte>, start: nat, k: nat)
    requires WellFormed(d) && Pending(tab, ptr, n, d, start, k) && Boundary(d, k) && k < |d| && d[k] != 0
    ensures Pending(tab, ptr, n, d, start, k + 1 + d[k])
    ensures |d| - k <= TABLE_NAME && start + k < POINTER_LIMIT ==>
              Pending(tab + [d[k..]], ptr + [start + k], n, d, start, k + 1 + d[k])
  {
  }

  /** A table entry that matches the rest of the name was there before the name was begun: the others are longer. */
  lemma MatchIsOld(tab: seq<seq<byte>>, ptr: seq<nat>, n: nat, d: seq<byte>, start: nat, k: nat, i: nat)
    requires WellFormed(d) && Pending(tab, ptr, n, d, start, k) && k <= |d| && i < |tab| && Same(d[k..], tab[i])
    ensures i < n
  {
    assert |Fold(d[k..])| == |Fold(tab[i])|;
  }

  /** The end of a name: a zero byte, or a pointer to an entry that is the same up to case. */
  lemma TailEncodes(buf: seq<byte>, own: set<nat>, buf': seq<byte>, own': set<nat>, pos: nat, rest: seq<byte>, e: seq<byte>, p: nat)
    requires EntryOk(buf, own, e, p) && Same(rest, e) && WellFormed(rest) && |buf| <= pos && pos + 2 == |buf'|
    requires Keeps(buf, own, buf', own') && pos in own' && pos + 1 in own'
    requires buf'[pos..] == Pack2Big(49152 + p)
    ensures Encodes(buf', own', pos, rest) && Skip(buf', pos) == Some(pos + 2)
  {
    SameSymmetric(rest, e);
    EncodesOwns(buf, own, p, e);
    EncodesSame(buf, own, p, e, rest);
    EncodesKept(buf, own, buf', own', p, rest);
    PointerBytes(buf', pos, p);
    EncodesPointer(buf', own', pos, rest, p);
  }

  lemma PointerBytes(buf: seq<byte>, pos: nat, p: nat)
    requires p < POINTER_LIMIT && pos + 2 == |buf| && buf[pos..] == Pack2Big(49152 + p)
    ensures buf[pos] >= 192 && Target(buf, pos) == p
  {
    var s := Pack2Big(49152 + p);
    assert buf[pos] == buf[pos..][0] == s[0] && buf[pos + 1] == buf[pos..][1] == s[1];
  }

  lemma EncodesPointer(buf: seq<byte>, own: set<nat>, pos: nat, d: seq<byte>, p: nat)
    requires pos + 2 == |buf| && pos in own && pos + 1 in own && buf[pos] >= 192 && Target(buf, pos) == p
    requires d != [] && p < pos && 0 < buf[p] < 192 && EndsBy(buf, p, pos) && Encodes(buf, own, p, d)
    ensures Encodes(buf, own, pos, d) && Skip(buf, pos) == Some(pos + 2)
  {
    assert PointerAt(buf, own, pos);
  }

  lemma ZeroEncodes(buf: seq<byte>, own: set<nat>, pos: nat)
    requires pos + 1 == |buf| && buf[pos] == 0 && pos in own
    ensures Encodes(buf, own, pos, [0]) && Skip(buf, pos) == Some(pos + 1)
  {
  }

  /** Once the end of the name is written, the name and all its tails in the table can be read. */
  lemma NameDone(buf0: seq<byte>, own0: set<nat>, names: seq<Emitted>, tab: seq<seq<byte>>, ptr: seq<nat>, n: nat,
                 d: seq<byte>, k: nat, tail: seq<byte>)
    requires IsName(d) && Boundary(d, k) && k < |d|
    requires NamesOk(buf0, own0, names) && n <= |tab| == |ptr| && TableOk(buf0, own0, tab[..n], ptr[..n])
    requires Pending(tab, ptr, n, d, |buf0|, k)
    requires TailOk(buf0 + d[..k], tail, own0 + Range(|buf0|, |buf0| + k + |tail|), d[k..])
    ensures var buf, own := buf0 + d[..k] + tail, own0 + Range(|buf0|, |buf0| + k + |tail|);
            TableOk(buf, own, tab, ptr) && NamesOk(buf, own, names + [Emitted(|buf0|, d, |buf|)])
  {
    hide Encodes, Skip, WellFormed, Boundary, PendingEntry, EntryOk, Keeps;
    var start := |buf0|;
    var buf, own := buf0 + d[..k] + tail, own0 + Range(start, start + k + |tail|);
    assert buf == buf0 + (d[..k] + tail);
    KeepsAppend(buf0, own0, d[..k] + tail, Range(start, start + k + |tail|));
    NamesKept(buf0, own0, buf, own, names);
    TableKept(buf0, own0, buf, own, tab[..n], ptr[..n]);
    assert buf[start..start + k] == d[..k];
    forall i | 0 <= i < |tab|
      ensures EntryOk(buf, own, tab[i], ptr[i])
    {
      if i < n {
        assert EntryOk(buf, own, tab[..n][i], ptr[..n][i]);
      } else {
        PendingDone(buf, own, tab[i], ptr[i], d, start, k);
      }
    }
    assert Boundary(d, 0) by { BoundaryStart(d); }
    LiteralPrefix(buf, own, start, d, 0, k);
    assert d[0..] == d;
  }

  lemma BoundaryStart(d: seq<byte>)
    requires WellFormed(d)
    ensures Boundary(d, 0)
  {
  }

  lemma PendingDone(buf: seq<byte>, own: set<nat>, e: seq<byte>, p: nat, d: seq<byte>, start: nat, k: nat)
    requires WellFormed(d) && PendingEntry(e, p, d, start, k) && Boundary(d, k) && k <= |d|
    requires start + k <= |buf| && buf[start..start + k] == d[..k] && Range(start, start + k) <= own
    requires Encodes(buf, own, start + k, d[k..]) && EndsBy(buf, start + k, |buf|)
    ensures EntryOk(buf, own, e, p)
  {
    hide Encodes, Skip;
    var q := p - start;
    LiteralPrefix(buf, own, start, d, q, k);
    BoundaryTail(d, q);
    assert buf[p] == buf[start..start + k][q] == d[q];
  }

  lemma Grow(buf: seq<byte>, own: set<nat>, s: seq<byte>, names: seq<Emitted>, tab: seq<seq<byte>>, ptr: seq<nat>,
             usable: bool, started: bool, dpos: nat)
    requires NamesOk(buf, own, names) && OwnOk(own, |buf|, started, dpos) && (usable ==> TableOk(buf, own, tab, ptr))
    ensures NamesOk(buf + s, own, names) && OwnOk(own, |buf + s|, started, dpos)
    ensures usable ==> TableOk(buf + s, own, tab, ptr)
  {
    KeepsAppend(buf, own, s, {});
    assert own + {} == own;
    NamesKept(buf, own, buf + s, own, names);
    if usable {
      TableKept(buf, own, buf + s, own, tab, ptr);
    }
  }

  lemma OwnMore(own: set<nat>, len: nat, started: bool, dpos: nat, len': nat)
    requires OwnOk(own, len, started, dpos) && HEADER <= len <= len'
    ensures OwnOk(own + Range(len, len'), len', started, dpos)
  {
  }

  /** The state while a name is being written: `d[..k]` is behind the old packet, the table holds the old
      entries and then entries for tails of `d`. */
  ghost predicate Writing(buf0: seq<byte>, own: set<nat>, buf: seq<byte>, tab0: seq<seq<byte>>, ptr0: seq<nat>,
                          tab: seq<seq<byte>>, ptr: seq<nat>, d: seq<byte>, k: nat) {
    && IsName(d) && Boundary(d, k) && k < |d|
    && TableOk(buf0, own, tab0, ptr0)
    && |tab0| <= |tab| == |ptr| && tab[..|tab0|] == tab0 && ptr[..|tab0|] == ptr0
    && Pending(tab, ptr, |tab0|, d, |buf0|, k)
    && buf == buf0 + d[..k]
  }

  lemma Begin(buf0: seq<byte>, own: set<nat>, tab0: seq<seq<byte>>, ptr0: seq<nat>, d: seq<byte>)
    requires IsName(d) && TableOk(buf0, own, tab0, ptr0)
    ensures d != [] && Writing(buf0, own, buf0, tab0, ptr0, tab0, ptr0, d, 0)
  {
    NotEmpty(d);
    BoundaryStart(d);
    assert buf0 + d[..0] == buf0;
  }

  lemma EntryName(buf: seq<byte>, own: set<nat>, e: seq<byte>, p: nat)
    requires EntryOk(buf, own, e, p)
    ensures WellFormed(e)
  {
    hide Encodes, Skip, WellFormed;
  }

  lemma PendingName(e: seq<byte>, p: nat, d: seq<byte>, start: nat, k: nat)
    requires WellFormed(d) && PendingEntry(e, p, d, start, k)
    ensures WellFormed(e)
  {
    hide WellFormed, Boundary;
    BoundaryTail(d, p - start);
  }

  lemma TabNames(buf0: seq<byte>, own: set<nat>, tab0: seq<seq<byte>>, ptr0: seq<nat>,
                 tab: seq<seq<byte>>, ptr: seq<nat>, d: seq<byte>, k: nat, i: nat)
    requires WellFormed(d) && TableOk(buf0, own, tab0, ptr0) && |tab0| <= |tab| == |ptr| && tab[..|tab0|] == tab0
    requires Pending(tab, ptr, |tab0|, d, |buf0|, k) && i < |tab|
    ensures WellFormed(tab[i])
  {
    hide EntryOk, PendingEntry, WellFormed;
    if i < |tab0| {
      assert tab[i] == tab[..|tab0|][i];
      EntryName(buf0, own, tab0[i], ptr0[i]);
    } else {
      PendingName(tab[i], ptr[i], d, |buf0|, k);
    }
  }

  lemma AllNames(buf0: seq<byte>, own: set<nat>, buf: seq<byte>, tab0: seq<seq<byte>>, ptr0: seq<nat>,
                 tab: seq<seq<byte>>, ptr: seq<nat>, d: seq<byte>, k: nat)
    requires Writing(buf0, own, buf, tab0, ptr0, tab, ptr, d, k)
    ensures k < |d| && WellFormed(d[k..]) && Boundary(d, k) && IsName(d) && buf == buf0 + d[..k]
    ensures d[k] != 0 ==> d[k] <= MAX_LABEL && k + 1 + d[k] < |d|
    ensures forall i :: 0 <= i < |tab| ==> WellFormed(tab[i])
  {
    hide WellFormed, Boundary, TableOk, Pending;
    BoundaryTail(d, k);
    LabelFits(d, k);
    forall i | 0 <= i < |tab|
      ensures WellFormed(tab[i])
    {
      TabNames(buf0, own, tab0, ptr0, tab, ptr, d, k, i);
    }
  }

  lemma LabelFits(d: seq<byte>, k: nat)
    requires k < |d| && WellFormed(d[k..])
    ensures if d[k] == 0 then d[k..] == [0] else d[k] <= MAX_LABEL && k + 1 + d[k] < |d|
  {
  }

  lemma NextLabel(buf0: seq<byte>, own: set<nat>, buf: seq<byte>, tab0: seq<seq<byte>>, ptr0: seq<nat>,
                  tab: seq<seq<byte>>, ptr: seq<nat>, tab': seq<seq<byte>>, ptr': seq<nat>, d: seq<byte>, k: nat)
    requires Writing(buf0, own, buf, tab0, ptr0, tab, ptr, d, k) && d[k] != 0 && k + 1 + d[k] <= |d|
    requires (tab' == tab && ptr' == ptr)
             || (tab' == tab + [d[k..]] && ptr' == ptr + [|buf|] && |d[k..]| <= TABLE_NAME && |buf| < POINTER_LIMIT)
    ensures k + 1 + d[k] < |d|
    ensures Writing(buf0, own, buf + d[k..k + 1 + d[k]], tab0, ptr0, tab', ptr', d, k + 1 + d[k])
  {
    hide TableOk, PendingEntry, Boundary, WellFormed, Pending;
    PendingMore(tab, ptr, |tab0|, d, |buf0|, k);
    BoundaryStep(d, k);
    BoundaryTail(d, k + 1 + d[k]);
    NextSlice(buf0, d, k, k + 1 + d[k]);
    if tab' != tab {
      KeptPrefix(tab, d[k..], |tab0|);
      KeptPrefix(ptr, |buf|, |tab0|);
    }
  }

  lemma NextSlice<T>(a: seq<T>, d: seq<T>, i: nat, j: nat)
    requires i <= j <= |d|
    ensures a + d[..i] + d[i..j] == a + d[..j]
  {
  }

  lemma KeptPrefix<T>(s: seq<T>, x: T, n: nat)
    requires n <= |s|
    ensures (s + [x])[..n] == s[..n]
  {
  }

  lemma WritingParts(buf0: seq<byte>, own: set<nat>, buf: seq<byte>, tab0: seq<seq<byte>>, ptr0: seq<nat>,
                     tab: seq<seq<byte>>, ptr: seq<nat>, d: seq<byte>, k: nat)
    requires Writing(buf0, own, buf, tab0, ptr0, tab, ptr, d, k)
    ensures IsName(d) && Boundary(d, k) && k < |d| && buf == buf0 + d[..k] && |tab0| <= |tab| == |ptr|
    ensures TableOk(buf0, own, tab[..|tab0|], ptr[..|tab0|]) && Pending(tab, ptr, |tab0|, d, |buf0|, k)
  {
  }

  lemma TabGrew(buf0: seq<byte>, own: set<nat>, buf: seq<byte>, tab0: seq<seq<byte>>, ptr0: seq<nat>,
                tab: seq<seq<byte>>, ptr: seq<nat>, d: seq<byte>, k: nat)
    requires Writing(buf0, own, buf, tab0, ptr0, tab, ptr, d, k)
    ensures tab0 <= tab && ptr0 <= ptr && |tab0| == |ptr0| && |buf| == |buf0| + k
  {
  }

  lemma MatchEntry(buf0: seq<byte>, own: set<nat>, tab: seq<seq<byte>>, ptr: seq<nat>, n: nat, d: seq<byte>, k: nat, i: nat)
    requires WellFormed(d) && Boundary(d, k) && k < |d| && n <= |tab| == |ptr|
    requires TableOk(buf0, own, tab[..n], ptr[..n]) && Pending(tab, ptr, n, d, |buf0|, k)
    requires i < |tab| && Same(d[k..], tab[i])
    ensures EntryOk(buf0, own, tab[i], ptr[i]) && WellFormed(d[k..])
  {
    hide EntryOk, WellFormed, Boundary, Same;
    MatchIsOld(tab, ptr, n, d, |buf0|, k, i);
    BoundaryTail(d, k);
    assert EntryOk(buf0, own, tab[..n][i], ptr[..n][i]);
  }

  lemma PointerEnds(buf0: seq<byte>, own: set<nat>, s: seq<byte>, rest: seq<byte>, e: seq<byte>, p: nat)
    requires EntryOk(buf0, own, e, p) && WellFormed(rest) && Same(rest, e)
    ensures p < POINTER_LIMIT && TailOk(buf0 + s, Pack2Big(49152 + p), own + Range(|buf0|, |buf0| + |s| + 2), rest)
  {
    var more := Range(|buf0|, |buf0| + |s| + 2);
    EntryLow(buf0, own, e, p);
    KeptBehind(buf0, own, s, Pack2Big(49152 + p), more);
    PointerIsTail(buf0, own, buf0 + s, own + more, rest, e, p);
  }

  lemma KeptBehind(buf0: seq<byte>, own: set<nat>, s: seq<byte>, tail: seq<byte>, more: set<nat>)
    ensures Keeps(buf0, own, buf0 + s + tail, own + more)
  {
    KeepsAppend(buf0, own, s + tail, more);
    Associate(buf0, s, tail);
    hide Keeps;
  }

  lemma PointerIsTail(buf0: seq<byte>, own: set<nat>, buf: seq<byte>, own': set<nat>, rest: seq<byte>, e: seq<byte>, p: nat)
    requires EntryOk(buf0, own, e, p) && WellFormed(rest) && Same(rest, e) && p < POINTER_LIMIT && |buf0| <= |buf|
    requires Keeps(buf0, own, buf + Pack2Big(49152 + p), own') && |buf| in own' && |buf| + 1 in own'
    ensures TailOk(buf, Pack2Big(49152 + p), own', rest)
  {
    var tail := Pack2Big(49152 + p);
    assert |tail| == 2 && (buf + tail)[|buf|..] == tail;
    hide Encodes, Skip, Same, WellFormed, EndsBy, TailOk, Keeps, EntryOk, Pack2Big;
    TailEncodes(buf0, own, buf + tail, own', |buf|, rest, e, p);
    TailIsOk(buf, tail, own', rest);
  }

  lemma EntryLow(buf: seq<byte>, own: set<nat>, e: seq<byte>, p: nat)
    requires EntryOk(buf, own, e, p)
    ensures p < POINTER_LIMIT
  {
    hide Encodes;
  }

  lemma Associate<T>(a: seq<T>, b: seq<T>, c: seq<T>)
    ensures a + b + c == a + (b + c) && (a + b + c)[|a + b|..] == c
  {
  }

  lemma TailIsOk(buf: seq<byte>, tail: seq<byte>, own: set<nat>, rest: seq<byte>)
    requires Encodes(buf + tail, own, |buf|, rest) && Skip(buf + tail, |buf|) == Some(|buf| + |tail|)
    ensures TailOk(buf, tail, own, rest)
  {
  }

  ghost predicate TailOk(buf: seq<byte>, tail: seq<byte>, own: set<nat>, rest: seq<byte>) {
    Encodes(buf + tail, own, |buf|, rest) && Skip(buf + tail, |buf|) == Some(|buf| + |tail|)
  }

  lemma ZeroEnds(buf0: seq<byte>, own: set<nat>, d: seq<byte>, k: nat)
    requires WellFormed(d) && Boundary(d, k) && k < |d| && d[k] == 0
    ensures TailOk(buf0 + d[..k], [d[k]], own + Range(|buf0|, |buf0| + k + 1), d[k..])
  {
    hide WellFormed, Boundary, Range, Encodes, Skip, TailOk;
    BoundaryTail(d, k);
    LabelFits(d, k);
    var buf, more := buf0 + d[..k], own + Range(|buf0|, |buf0| + k + 1);
    assert |buf| in more;
    ZeroEncodes(buf + [0], more, |buf|);
    TailIsOk(buf, [0], more, [0]);
  }

  const QUERY_HEADER: seq<byte> := [0, 0, 129, 128, 0, 1, 0, 0, 0, 0, 0, 0]

  lemma NothingYet(buf: seq<byte>, dpos: nat)
    requires buf == []
    ensures NamesOk(buf, {}, []) && OwnOk({}, 0, false, dpos) && TableOk(buf, {}, [], [])
  {
  }

  /** What stands behind the owner of a record: type, class IN, time to live, and a length of 0. */
  function RecordHead(rtype: seq<byte>, ttl: uint32): (s: seq<byte>)
    requires |rtype| == 2
    ensures |s| == 10
  {
    (rtype + [0, 1]) + (Pack4Big(ttl) + [0, 0])
  }

  lemma TwoMore<T>(s: seq<T>, x: T)
    ensures forall y :: s + [x] + [y] == s + [x, y]
  {
  }

  lemma HeadThere(b: seq<byte>, e: seq<byte>, s: seq<byte>, head: seq<byte>)
    requires s == b + (e + head) && |head| == 10
    ensures |b| + 10 <= |s| && s[..|b|] == b && s[|s| - 10..] == head
  {
  }

  lemma Behind(a: seq<byte>, b: seq<byte>, c: seq<byte>)
    ensures a + b + c == a + (b + c) && |a + (b + c)| == |a| + |b| + |c|
  {
  }

  /** In an empty packet there is nothing to point to, and room for every name. */
  lemma FirstName(q: seq<byte>)
    requires IsName(q)
    ensures Encoded([], [], q) == q && HEADER + |q| + 4 <= CAPACITY && |QUERY_HEADER| == HEADER
  {
    hide WellFormed;
    EncodedIsShorter([], [], q);
    CutIs([], q);
  }

  lemma Opened(own: set<nat>, len: nat, dpos0: nat, dpos: nat)
    requires OwnOk(own, len, false, dpos0) && HEADER <= len && len + 2 <= dpos
    ensures OwnOk(own, dpos, true, dpos)
  {
  }

  lemma Closed(own: set<nat>, len: nat, started: bool, dpos: nat)
    requires OwnOk(own, len, started, dpos)
    ensures OwnOk(own, len, false, dpos)
  {
  }

  lemma Patched(buf: seq<byte>, own: set<nat>, p: nat, v: byte, names: seq<Emitted>,
                tab: seq<seq<byte>>, ptr: seq<nat>, usable: bool)
    requires NamesOk(buf, own, names) && (usable ==> TableOk(buf, own, tab, ptr)) && p < |buf| && p !in own
    ensures NamesOk(buf[p := v], own, names) && (usable ==> TableOk(buf[p := v], own, tab, ptr))
  {
    NamesKept(buf, own, buf[p := v], own, names);
    if usable {
      TableKept(buf, own, buf[p := v], own, tab, ptr);
    }
  }

  lemma NotOwned(own: set<nat>, len: nat, dpos: nat)
    requires OwnOk(own, len, true, dpos)
    ensures HEADER + 2 <= dpos <= len && dpos - 2 !in own && dpos - 1 !in own
    ensures forall k: nat :: k < HEADER ==> k !in own
  {
  }

  lemma HeaderNotOwned(own: set<nat>, len: nat, started: bool, dpos: nat)
    requires OwnOk(own, len, started, dpos)
    ensures forall k: nat :: k < HEADER ==> k !in own
  {
  }

  function Inc(b: byte): (r: byte) {
    if b == 255 then 0 else b + 1
  }

  function WithLength(buf: seq<byte>, dpos: nat): (r: seq<byte>)
    requires 2 <= dpos <= |buf| <= CAPACITY
    ensures |r| == |buf| && Get2Big(r, dpos - 2) == |buf| - dpos
    ensures forall k :: 0 <= k < |buf| && k != dpos - 2 && k != dpos - 1 ==> r[k] == buf[k]
  {
    var s := Pack2Big(|buf| - dpos);
    buf[dpos - 2 := s[0]][dpos - 1 := s[1]]
  }

  function WithCount(buf: seq<byte>, x: nat): (r: seq<byte>)
    requires x + 1 < |buf|
    ensures |r| == |buf| && Get2Big(r, x) == (Get2Big(buf, x) + 1) % 65536
    ensures forall k :: 0 <= k < |buf| && k != x && k != x + 1 ==> r[k] == buf[k]
  {
    var lo := Inc(buf[x + 1]);
    var c := buf[x + 1 := lo];
    if lo == 0 then c[x := Inc(c[x])] else c
  }

  /** The packet with a record ended: data length at `dpos - 2`, a 16-bit count at `x`. */
  function RecordDone(buf: seq<byte>, dpos: nat, x: nat): (r: seq<byte>)
    requires HEADER + 2 <= dpos <= |buf| <= CAPACITY && x + 2 <= HEADER
    ensures |r| == |buf|
    ensures Get2Big(r, dpos - 2) == |buf| - dpos
    ensures Get2Big(r, x) == (Get2Big(buf, x) + 1) % 65536
    ensures forall k :: 0 <= k < |buf| && k != dpos - 2 && k != dpos - 1 && k != x && k != x + 1 ==> r[k] == buf[k]
  {
    WithCount(WithLength(buf, dpos), x)
  }

  /** A whole alias record ends the packet `r`: its type, class, time to live and length are in front of its data, the
      answers have been counted, and in front of the record nothing else has changed. */
  ghost predicate AliasRecord(b: seq<byte>, r: seq<byte>, dpos: nat, ttl: uint32) {
    && HEADER <= |b| && |b| + 10 <= dpos <= |r|
    && r[dpos - 10..dpos - 2] == [0, 5] + [0, 1] + Pack4Big(ttl)
    && Get2Big(r, dpos - 2) == |r| - dpos && Get2Big(r, 6) == (Get2Big(b, 6) + 1) % 65536
    && forall k :: 0 <= k < |b| && k != 6 && k != 7 ==> r[k] == b[k]
  }

  lemma CnameDone(b: seq<byte>, s: seq<byte>, e: seq<byte>, r: seq<byte>, dpos: nat, ttl: uint32)
    requires HEADER <= |b| && |b| + 10 <= |s| == dpos && |s| + |e| <= CAPACITY
    requires s[..|b|] == b && s[|s| - 10..] == RecordHead([0, 5], ttl)
    requires r == RecordDone(s + e, dpos, 6)
    ensures AliasRecord(b, r, dpos, ttl)
  {
    hide WithLength, WithCount;
    var t := s + e;
    var h := [0, 5] + [0, 1] + Pack4Big(ttl);
    assert t[6] == b[6] && t[7] == b[7];
    forall k | dpos - 10 <= k < dpos - 2
      ensures r[k] == h[k - (dpos - 10)]
    {
      assert t[k] == s[k] == s[|s| - 10..][k - (dpos - 10)];
    }
  }

  /** `v |= bits` for one byte. */
  function SetBits(v: byte, bits: byte): (r: byte) {
    OrByte(v, bits);
    Or(v, bits)
  }

  function Or(a: nat, b: nat): (r: nat)
    decreases a + b
  {
    if a == 0 && b == 0 then 0 else 2 * Or(a / 2, b / 2) + if a % 2 == 0 && b % 2 == 0 then 0 else 1
  }

  lemma {:induction false} OrBound(a: nat, b: nat, n: nat)
    requires a < Pow2(n) && b < Pow2(n)
    ensures Or(a, b) < Pow2(n)
    decreases n
  {
    if n != 0 { OrBound(a / 2, b / 2, n - 1); }
  }

  lemma OrByte(v: byte, bits: byte)
    ensures Or(v, bits) < 256
  {
    assert Pow2(8) == 256;
    OrBound(v, bits, 8);
  }

  /** The names that end by `limit`. */
  function Before(names: seq<Emitted>, limit: nat): (r: seq<Emitted>)
    ensures forall e :: e in r <==> e in names && e.end <= limit
  {
    if names == [] then []
    else Before(names[..|names| - 1], limit) + if names[|names| - 1].end <= limit then [names[|names| - 1]] else []
  }

  lemma Cut(buf: seq<byte>, own: set<nat>, names: seq<Emitted>, started: bool, dpos: nat, limit: nat)
    requires NamesOk(buf, own, names) && OwnOk(own, |buf|, started, dpos) && limit <= |buf|
    ensures NamesOk(buf[..limit], own * Range(0, limit), Before(names, limit))
    ensures OwnOk(own * Range(0, limit), limit, false, dpos)
  {
    var kept := Before(names, limit);
    forall i | 0 <= i < |kept|
      ensures Written(buf[..limit], own * Range(0, limit), kept[i])
    {
      assert kept[i] in kept;
      var j :| 0 <= j < |names| && names[j] == kept[i];
      assert Written(buf, own, names[j]);
      CutOne(buf, own, names[j], limit);
    }
  }

  lemma CutOne(buf: seq<byte>, own: set<nat>, e: Emitted, limit: nat)
    requires Written(buf, own, e) && e.end <= limit <= |buf|
    ensures Written(buf[..limit], own * Range(0, limit), e)
  {
    EncodesCut(buf, own, e.pos, e.name, limit);
    EncodesWithin(buf[..limit], own, e.pos, e.name, own * Range(0, limit));
  }

  /** Positions beyond the packet do not matter. */
  lemma {:induction false} EncodesWithin(buf: seq<byte>, own: set<nat>, pos: nat, d: seq<byte>, own': set<nat>)
    requires Encodes(buf, own, pos, d) && forall k: nat :: k in own && k < |buf| ==> k in own'
    ensures Encodes(buf, own', pos, d)
    decreases |d|, pos
  {
    hide Same, Skip;
    if buf[pos] >= 192 {
      EncodesWithin(buf, own, Target(buf, pos), d, own');
    } else if buf[pos] != 0 {
      EncodesWithin(buf, own, pos + 1 + d[0], d[1 + d[0]..], own');
    }
  }

  // ---------- the packet ----------

  class Builder {
    const response: array<byte>
    var response_len: nat
    var tctarget: nat
    const name: array<seq<byte>>
    const name_ptr: array<nat>
    var name_num: nat
    var dpos: nat
    var flaghidettl: bool

    /** Positions of name bytes; the names written so far; whether every table entry can be pointed to;
        whether a record has been started, so that its length field is at `dpos - 2`. */
    ghost var own: set<nat>
    ghost var names: seq<Emitted>
    ghost var usable: bool
    ghost var started: bool

    ghost predicate Base()
      reads this
    {
      && response.Length == CAPACITY && name.Length == NAMES && name_ptr.Length == NAMES
      && response_len <= CAPACITY && name_num <= NAMES && tctarget <= CAPACITY
    }

    ghost function Buf(): (b: seq<byte>)
      requires Base()
      reads this, response
    {
      response[..response_len]
    }

    ghost predicate Valid()
      reads this, response, name, name_ptr
    {
      && Base()
      && NamesOk(Buf(), own, names)
      && OwnOk(own, response_len, started, dpos)
      && (usable ==> TableOk(Buf(), own, name[..name_num], name_ptr[..name_num]))
    }

    constructor ()
      ensures Valid() && names == [] && response_len == 0 && usable && !started
      ensures fresh(response) && fresh(name) && fresh(name_ptr)
    {
      response := new byte[CAPACITY];
      name := new seq<byte>[NAMES];
      name_ptr := new nat[NAMES];
      response_len, tctarget, name_num, dpos, flaghidettl := 0, 0, 0, 0, false;
      own, names, usable, started := {}, [], true, false;
    }

    method HideTtl()
      modifies this`flaghidettl
      ensures flaghidettl
    {
      flaghidettl := true;
    }

    /** The bytes behind the packet so far, if there is room. */
    method Append(s: seq<byte>) returns (ok: bool)
      requires Base()
      modifies this`response_len, response
      ensures Base()
      ensures ok <==> |s| <= CAPACITY - old(response_len)
      ensures Buf() == if ok then old(Buf()) + s else old(Buf())
    {
      if |s| > CAPACITY - response_len { return false; }
      forall i | 0 <= i < |s| {
        response[response_len + i] := s[i];
      }
      ghost var before := old(Buf());
      response_len := response_len + |s|;
      assert Buf()[..|before|] == before;
      assert Buf() == before + s;
      return true;
    }

    method AddBytes(s: seq<byte>) returns (ok: bool)
      requires Valid()
      modifies this`response_len, response
      ensures Valid()
      ensures ok <==> |s| <= CAPACITY - old(response_len)
      ensures Buf() == if ok then old(Buf()) + s else old(Buf())
    {
      ghost var b := Buf();
      hide NamesOk, TableOk, OwnOk;
      ok := Append(s);
      if ok {
        Grow(b, own, s, names, name[..name_num], name_ptr[..name_num], usable, started, dpos);
      }
    }

    /** The first table entry that is the same name, or `name_num`. */
    method Find(d: seq<byte>) returns (i: nat)
      requires Base() && WellFormed(d) && forall j :: 0 <= j < name_num ==> WellFormed(name[j])
      ensures i <= name_num && (i < name_num ==> Same(d, name[i]))
      ensures forall j :: 0 <= j < i ==> !Same(d, name[j])
    {
      i := 0;
      while i < name_num
        invariant i <= name_num && forall j :: 0 <= j < i ==> !Same(d, name[j])
      {
        var same := Domain.Equal(d, name[i]);
        if same { return; }
        i := i + 1;
      }
    }

    /** Enters a name that is about to be written into the table, if it is short enough, early enough and there is room. */
    method Remember(d: seq<byte>)
      requires Base()
      modifies this`name_num, name, name_ptr
      ensures Base()
      ensures if |d| <= TABLE_NAME && response_len < POINTER_LIMIT && old(name_num) < NAMES
              then name_num == old(name_num) + 1
                   && name[..name_num] == old(name[..name_num]) + [d]
                   && name_ptr[..name_num] == old(name_ptr[..name_num]) + [response_len]
              else name_num == old(name_num)
                   && name[..name_num] == old(name[..name_num]) && name_ptr[..name_num] == old(name_ptr[..name_num])
    {
      if |d| <= TABLE_NAME && response_len < POINTER_LIMIT {
        if name_num < NAMES {
          name[name_num] := d;
          name_ptr[name_num] := response_len;
          name_num := name_num + 1;
        }
      }
    }

    /** The last piece of a name: its bytes belong to names from now on. */
    method FinishName(tail: seq<byte>, ghost buf0: seq<byte>, ghost n: nat, ghost d: seq<byte>, ghost k: nat) returns (ok: bool)
      requires Base() && IsName(d) && Boundary(d, k) && k < |d| && Buf() == buf0 + d[..k] && HEADER <= |buf0|
      requires NamesOk(buf0, own, names) && OwnOk(own, |buf0|, started, dpos)
      requires n <= name_num && TableOk(buf0, own, name[..name_num][..n], name_ptr[..name_num][..n])
      requires Pending(name[..name_num], name_ptr[..name_num], n, d, |buf0|, k)
      requires TailOk(buf0 + d[..k], tail, own + Range(|buf0|, |buf0| + k + |tail|), d[k..])
      modifies this`response_len, response, this`own, this`names, this`usable
      ensures Valid() && usable == ok && |buf0| <= response_len && Buf()[..|buf0|] == buf0
      ensures names == old(names) + if ok then [Emitted(|buf0|, d, response_len)] else []
      ensures ok <==> k + |tail| <= CAPACITY - |buf0|
      ensures ok ==> Buf() == buf0 + (d[..k] + tail)
    {
      hide NamesOk, TableOk, OwnOk, Pending, Boundary, IsName, Range, TailOk;
      ok := Append(tail);
      usable := ok;
      if ok {
        NameDone(buf0, own, names, name[..name_num], name_ptr[..name_num], n, d, k, tail);
        OwnMore(own, |buf0|, started, dpos, response_len);
        names := names + [Emitted(|buf0|, d, response_len)];
        own := own + Range(|buf0|, response_len);
        assert buf0 + d[..k] + tail == buf0 + (d[..k] + tail);
      } else {
        Grow(buf0, own, d[..k], names, [], [], false, started, dpos);
      }
    }

    /** A failure in the middle of a name: what was written before can still be read, but the table may
        point to the unfinished name. */
    ghost method GiveUp(buf0: seq<byte>, s: seq<byte>)
      requires Base() && NamesOk(buf0, own, names) && OwnOk(own, |buf0|, started, dpos) && Buf() == buf0 + s
      modifies this`usable
      ensures Valid() && !usable
    {
      hide NamesOk, TableOk, OwnOk;
      Grow(buf0, own, s, names, [], [], false, started, dpos);
      usable := false;
    }

    /** A pointer to the entry that was found. */
    method AddPointer(d: seq<byte>, k: nat, i: nat, ghost buf0: seq<byte>, ghost tab0: seq<seq<byte>>, ghost ptr0: seq<nat>)
      returns (ok: bool)
      requires Base() && HEADER <= |buf0| && k < |d| && d[k] != 0 && i < name_num
      requires NamesOk(buf0, own, names) && OwnOk(own, |buf0|, started, dpos)
      requires Writing(buf0, own, Buf(), tab0, ptr0, name[..name_num], name_ptr[..name_num], d, k)
      requires |tab0| == |ptr0| && Going(tab0, ptr0, name[..name_num], name_ptr[..name_num], d, k, |buf0|)
      requires Same(d[k..], name[i]) && forall j :: 0 <= j < i ==> !Same(d[k..], name[..name_num][j])
      modifies this`response_len, response, this`own, this`names, this`usable
      ensures Valid() && usable == ok && |buf0| <= response_len && Buf()[..|buf0|] == buf0
      ensures names == old(names) + if ok then [Emitted(|buf0|, d, response_len)] else []
      ensures Added(buf0, tab0, ptr0, d, ok)
    {
      hide NamesOk, TableOk, OwnOk, IsName, WellFormed, Boundary, Pending, TailOk, Range, Same, Writing, EntryOk, Going, Noted,
        After, CutFrom, Encoded, FirstMatch;
      ghost var tab, ptr := name[..name_num], name_ptr[..name_num];
      TabGrew(buf0, own, Buf(), tab0, ptr0, tab, ptr, d, k);
      WritingParts(buf0, own, Buf(), tab0, ptr0, tab, ptr, d, k);
      MatchEntry(buf0, own, tab, ptr, |tab0|, d, k, i);
      MatchIsOld(tab, ptr, |tab0|, d, |buf0|, k, i);
      SameMatch(tab0, tab, d[k..], i);
      PointerEnds(buf0, own, d[..k], d[k..], name[i], name_ptr[i]);
      GoingEnds(tab0, ptr0, tab, ptr, d, k, |buf0|);
      ok := FinishName(Pack2Big(49152 + name_ptr[i]), buf0, |tab0|, d, k);
    }

    /** One turn of the loop: a pointer if the rest of the name is known, else one label. */
    method AddLabel(d: seq<byte>, k: nat, ghost buf0: seq<byte>, ghost tab0: seq<seq<byte>>, ghost ptr0: seq<nat>)
      returns (done: bool, ok: bool, k': nat)
      requires Base() && HEADER <= |buf0| && k < |d| && d[k] != 0
      requires NamesOk(buf0, own, names) && OwnOk(own, |buf0|, started, dpos)
      requires Writing(buf0, own, Buf(), tab0, ptr0, name[..name_num], name_ptr[..name_num], d, k)
      requires |tab0| == |ptr0| && Going(tab0, ptr0, name[..name_num], name_ptr[..name_num], d, k, |buf0|)
      modifies this`response_len, response, this`name_num, name, name_ptr, this`own, this`names, this`usable
      ensures if done then Valid() && usable == ok && |buf0| <= response_len && Buf()[..|buf0|] == buf0
                           && names == old(names) + (if ok then [Emitted(|buf0|, d, response_len)] else [])
                           && Added(buf0, tab0, ptr0, d, ok)
              else Base() && k < k' < |d| && own == old(own) && names == old(names)
                   && Writing(buf0, own, Buf(), tab0, ptr0, name[..name_num], name_ptr[..name_num], d, k')
                   && Going(tab0, ptr0, name[..name_num], name_ptr[..name_num], d, k', |buf0|)
    {
      hide NamesOk, TableOk, OwnOk, IsName, WellFormed, Boundary, Pending, TailOk, Range, Same, Writing, EntryOk, Going, Noted,
        After, CutFrom, Encoded, FirstMatch;
      done, ok, k' := true, false, k;
      ghost var tab, ptr := name[..name_num], name_ptr[..name_num];
      AllNames(buf0, own, Buf(), tab0, ptr0, tab, ptr, d, k);
      TabGrew(buf0, own, Buf(), tab0, ptr0, tab, ptr, d, k);
      var i := Find(d[k..]);
      assert forall j :: 0 <= j < i ==> tab[j] == name[j];
      if i < name_num {
        ok := AddPointer(d, k, i, buf0, tab0, ptr0);
        return;
      }
      SameMatch(tab0, tab, d[k..], i);
      ghost var before := Buf();
      Remember(d[k..]);
      GoingMore(tab0, ptr0, tab, ptr, name[..name_num], name_ptr[..name_num], d, k, |buf0|);
      ok := Append(d[k..k + d[k] + 1]);
      if !ok {
        GiveUp(buf0, d[..k]);
        return;
      }
      NextLabel(buf0, own, before, tab0, ptr0, tab, ptr, name[..name_num], name_ptr[..name_num], d, k);
      done, k' := false, k + d[k] + 1;
    }

    /** Whether a name has been added: exactly if there is room for it as it is written; and what there is then. */
    ghost predicate Added(buf0: seq<byte>, tab0: seq<seq<byte>>, ptr0: seq<nat>, d: seq<byte>, ok: bool)
      requires Base() && |tab0| == |ptr0|
      reads this, response, name, name_ptr
    {
      && (ok <==> |buf0| + |Encoded(tab0, ptr0, d)| <= CAPACITY)
      && (ok ==> Buf() == buf0 + Encoded(tab0, ptr0, d) && (name[..name_num], name_ptr[..name_num]) == After(tab0, ptr0, d, |buf0|))
    }

    /** Adds a name, shortened by a pointer as soon as the rest of it is known. */
    method AddName(d: seq<byte>) returns (ok: bool)
      requires Valid() && usable && HEADER <= response_len && IsName(d)
      modifies this`response_len, response, this`name_num, name, name_ptr, this`own, this`names, this`usable
      ensures Valid() && usable == ok
      ensures old(response_len) <= response_len && Buf()[..old(response_len)] == old(Buf())
      ensures names == old(names) + if ok then [Emitted(old(response_len), d, response_len)] else []
      ensures Added(old(Buf()), old(name[..name_num]), old(name_ptr[..name_num]), d, ok)
    {
      hide NamesOk, TableOk, OwnOk, IsName, WellFormed, Boundary, Pending, TailOk, Range, Same, Writing, Going, Noted, After, CutFrom,
        Encoded;
      ghost var buf0, tab0, ptr0 := Buf(), name[..name_num], name_ptr[..name_num];
      GoingBegins(tab0, ptr0, d, |buf0|);
      Begin(buf0, own, tab0, ptr0, d);
      var k: nat := 0;
      while d[k] != 0
        invariant own == old(own) && names == old(names)
        invariant Base() && k < |d| && Writing(buf0, own, Buf(), tab0, ptr0, name[..name_num], name_ptr[..name_num], d, k)
        invariant Going(tab0, ptr0, name[..name_num], name_ptr[..name_num], d, k, |buf0|)
        decreases |d| - k
      {
        var done;
        done, ok, k := AddLabel(d, k, buf0, tab0, ptr0);
        if done { return; }
      }
      WritingParts(buf0, own, Buf(), tab0, ptr0, name[..name_num], name_ptr[..name_num], d, k);
      ZeroEnds(buf0, own, d, k);
      BoundaryTail(d, k);
      LabelFits(d, k);
      GoingEnds(tab0, ptr0, name[..name_num], name_ptr[..name_num], d, k, |buf0|);
      ok := FinishName([d[k]], buf0, |tab0|, d, k);
    }

    /** Two pieces behind each other. */
    method AddTwo(s: seq<byte>, t: seq<byte>) returns (ok: bool)
      requires Valid()
      modifies this`response_len, response
      ensures Valid() && old(response_len) <= response_len
      ensures ok <==> |s| + |t| <= CAPACITY - old(response_len)
      ensures ok ==> Buf() == old(Buf()) + (s + t)
    {
      hide NamesOk, TableOk, OwnOk;
      ok := AddBytes(s);
      if !ok { return; }
      ghost var b := Buf();
      ok := AddBytes(t);
      assert ok ==> Buf() == old(Buf()) + (s + t);
    }

    /** Forgets the packet built before. */
    method Reset()
      requires Base()
      modifies this`response_len, this`name_num, this`own, this`names, this`usable, this`started
      ensures Valid() && usable && !started && names == [] && response_len == 0 && name_num == 0
    {
      hide NamesOk, TableOk, OwnOk;
      response_len, name_num := 0, 0;
      own, names, usable, started := {}, [], true, false;
      NothingYet(Buf(), dpos);
      assert name[..0] == [] && name_ptr[..0] == [];
    }

    /** Starts a packet: header and question. */
    method Query(q: seq<byte>, qtype: seq<byte>, qclass: seq<byte>) returns (ok: bool)
      requires Valid() && IsName(q) && |qtype| == 2 && |qclass| == 2
      modifies this, response, name, name_ptr
      ensures Valid()
      ensures ok && tctarget == response_len && usable && !started
      ensures Buf() == QUERY_HEADER + q + (qtype + qclass) && names == [Emitted(HEADER, q, HEADER + |q|)]
      ensures (name[..name_num], name_ptr[..name_num]) == After([], [], q, HEADER)
    {
      hide NamesOk, TableOk, OwnOk, IsName, Encoded, After, QUERY_HEADER;
      FirstName(q);
      Reset();
      ok := AddBytes(QUERY_HEADER);
      if !ok { return; }
      assert name[..name_num] == [] && name_ptr[..name_num] == [];
      ok := AddName(q);
      if !ok { return; }
      ok := AddTwo(qtype, qclass);
      if !ok { return; }
      tctarget := response_len;
    }

    /** Starts a record: owner name, type, class IN, time to live, room for the length of the data. */
    method RStart(d: seq<byte>, rtype: seq<byte>, ttl: uint32) returns (ok: bool)
      requires Valid() && usable && HEADER <= response_len && IsName(d) && |rtype| == 2
      modifies this`response_len, response, this`name_num, name, name_ptr, this`own, this`names, this`usable, this`dpos, this`started
      ensures Valid()
      ensures ok ==> usable && started && dpos == response_len && old(response_len) + 10 <= response_len
      ensures ok ==> names == old(names) + [Emitted(old(response_len), d, response_len - 10)]
      ensures Begun(old(Buf()), old(name[..name_num]), old(name_ptr[..name_num]), d,
                    RecordHead(rtype, if flaghidettl then 0 else ttl), ok)
    {
      hide NamesOk, TableOk, OwnOk, IsName, Pack4Big, Encoded, After;
      Closed(own, response_len, started, dpos);
      started := false;
      ghost var buf0, tab0, ptr0 := Buf(), name[..name_num], name_ptr[..name_num];
      ok := AddName(d);
      if !ok { return; }
      ghost var len := response_len;
      var t := ttl;
      if flaghidettl { t := 0; }
      ok := AddHead(rtype, t);
      if !ok { return; }
      Behind(buf0, Encoded(tab0, ptr0, d), RecordHead(rtype, t));
      Opened(own, len, dpos, response_len);
      dpos := response_len;
      started := true;
    }

    /** Whether a record has been started with the name and what stands behind it. */
    ghost predicate Begun(buf0: seq<byte>, tab0: seq<seq<byte>>, ptr0: seq<nat>, d: seq<byte>, head: seq<byte>, ok: bool)
      requires Base() && |tab0| == |ptr0|
      reads this, response, name, name_ptr
    {
      && (ok <==> |buf0| + |Encoded(tab0, ptr0, d)| + |head| <= CAPACITY)
      && (ok ==> Buf() == buf0 + (Encoded(tab0, ptr0, d) + head)
                 && (name[..name_num], name_ptr[..name_num]) == After(tab0, ptr0, d, |buf0|))
    }

    /** Type, class IN, time to live, and room for the length of the data. */
    method AddHead(rtype: seq<byte>, ttl: uint32) returns (ok: bool)
      requires Valid() && |rtype| == 2
      modifies this`response_len, response
      ensures Valid() && old(response_len) <= response_len
      ensures ok <==> 10 <= CAPACITY - old(response_len)
      ensures ok ==> Buf() == old(Buf()) + RecordHead(rtype, ttl)
    {
      hide NamesOk, TableOk, OwnOk, Pack4Big;
      ok := AddTwo(rtype, [0, 1]);
      if !ok { return; }
      ghost var s, t := rtype + [0, 1], Pack4Big(ttl) + [0, 0];
      ok := AddTwo(Pack4Big(ttl), [0, 0]);
      if !ok { return; }
      assert old(Buf()) + s + t == old(Buf()) + (s + t);
    }

    /** Writes one byte that belongs to no name. */
    method Patch(p: nat, v: byte)
      requires Valid() && p < response_len && p !in own
      modifies response
      ensures Valid() && Buf() == old(Buf())[p := v]
    {
      hide NamesOk, TableOk, OwnOk;
      Patched(Buf(), own, p, v, names, name[..name_num], name_ptr[..name_num], usable);
      response[p] := v;
      assert Buf() == old(Buf())[p := v];
    }

    /** Fills in the length of the data of the record. */
    method SetLength()
      requires Valid() && HEADER + 2 <= dpos <= response_len && dpos - 2 !in own && dpos - 1 !in own
      modifies response
      ensures Valid() && Buf() == WithLength(old(Buf()), dpos)
    {
      hide NamesOk, TableOk, OwnOk;
      var s := Pack2Big(response_len - dpos);
      Patch(dpos - 2, s[0]);
      Patch(dpos - 1, s[1]);
    }

    /** Counts one more record in section `x`, carrying by hand. */
    method CountRecord(x: nat)
      requires Valid() && x + 1 < response_len && x !in own && x + 1 !in own
      modifies response
      ensures Valid() && Buf() == WithCount(old(Buf()), x)
    {
      hide NamesOk, TableOk, OwnOk;
      Patch(x + 1, Inc(response[x + 1]));
      if response[x + 1] == 0 {
        Patch(x, Inc(response[x]));
      }
    }

    /** Ends a record: fills in the length of its data and counts it in section `x`. */
    method RFinish(x: nat)
      requires Valid() && started && x in {6, 8, 10}
      modifies response
      ensures Valid()
      ensures Buf() == RecordDone(old(Buf()), dpos, x)
    {
      hide NamesOk, TableOk, WithLength, WithCount;
      NotOwned(own, response_len, dpos);
      hide OwnOk;
      SetLength();
      CountRecord(x);
    }

    method Cname(c: seq<byte>, d: seq<byte>, ttl: uint32) returns (ok: bool)
      requires Valid() && usable && HEADER <= response_len && IsName(c) && IsName(d)
      modifies this`response_len, response, this`name_num, name, name_ptr, this`own, this`names, this`usable, this`dpos, this`started
      ensures Valid()
      ensures ok ==> usable && started && HEADER <= response_len
                     && names == old(names) + [Emitted(old(response_len), c, dpos - 10), Emitted(dpos, d, response_len)]
      ensures var head := RecordHead([0, 5], if flaghidettl then 0 else ttl);
              var tab, ptr := old(name[..name_num]), old(name_ptr[..name_num]);
              var s := old(Buf()) + (Encoded(tab, ptr, c) + head);
              var next := After(tab, ptr, c, old(response_len));
              && (ok <==> |s| + |Encoded(next.0, next.1, d)| <= CAPACITY)
              && (ok ==> dpos == |s| && Buf() == RecordDone(s + Encoded(next.0, next.1, d), dpos, 6))
      ensures ok ==> AliasRecord(old(Buf()), Buf(), dpos, if flaghidettl then 0 else ttl)
    {
      hide NamesOk, TableOk, OwnOk, IsName, RecordDone, Pack4Big, Encoded, After, RecordHead, AliasRecord;
      ghost var b, tab, ptr := Buf(), name[..name_num], name_ptr[..name_num];
      Behind(b, Encoded(tab, ptr, c), RecordHead([0, 5], if flaghidettl then 0 else ttl));
      ok := RStart(c, [0, 5], ttl);
      if !ok { return; }
      ghost var s := Buf();
      TwoMore(old(names), Emitted(|b|, c, |s| - 10));
      HeadThere(b, Encoded(tab, ptr, c), s, RecordHead([0, 5], if flaghidettl then 0 else ttl));
      ghost var tab', ptr' := name[..name_num], name_ptr[..name_num];
      ok := NameData(d);
      if ok { CnameDone(b, s, Encoded(tab', ptr', d), Buf(), dpos, if flaghidettl then 0 else ttl); }
    }

    /** A name as the data of the record that has been started, and the end of the record. */
    method NameData(d: seq<byte>) returns (ok: bool)
      requires Valid() && usable && started && HEADER + 2 <= dpos == response_len && IsName(d)
      modifies this`response_len, response, this`name_num, name, name_ptr, this`own, this`names, this`usable
      ensures Valid() && (ok ==> usable && dpos <= response_len)
      ensures names == old(names) + if ok then [Emitted(dpos, d, response_len)] else []
      ensures var e := Encoded(old(name[..name_num]), old(name_ptr[..name_num]), d);
              && (ok <==> dpos + |e| <= CAPACITY)
              && (ok ==> Buf() == RecordDone(old(Buf()) + e, dpos, 6))
    {
      hide NamesOk, TableOk, OwnOk, IsName, RecordDone, Encoded, After;
      ok := AddName(d);
      if ok { RFinish(6); }
    }

    method Nxdomain()
      requires Valid() && HEADER <= response_len
      modifies response
      ensures Valid()
      ensures Buf() == old(Buf())[3 := SetBits(old(Buf())[3], 3)][2 := SetBits(old(Buf())[2], 4)]
    {
      hide NamesOk, TableOk;
      HeaderNotOwned(own, response_len, started, dpos);
      hide OwnOk;
      Patch(3, SetBits(response[3], 3));
      Patch(2, SetBits(response[2], 4));
    }

    method Servfail()
      requires Valid() && HEADER <= response_len
      modifies response
      ensures Valid()
      ensures Buf() == old(Buf())[3 := SetBits(old(Buf())[3], 2)]
    {
      hide NamesOk, TableOk;
      HeaderNotOwned(own, response_len, started, dpos);
      hide OwnOk;
      Patch(3, SetBits(response[3], 2));
    }

    method Id(id: seq<byte>)
      requires Valid() && HEADER <= response_len && |id| == 2
      modifies response
      ensures Valid()
      ensures Buf() == old(Buf())[0 := id[0]][1 := id[1]]
    {
      hide NamesOk, TableOk;
      HeaderNotOwned(own, response_len, started, dpos);
      hide OwnOk;
      Patch(0, id[0]);
      Patch(1, id[1]);
    }

    /** Cuts the packet down to header and question and says so in the header. The names that remain stay readable. */
    method Tc()
      requires Valid() && HEADER <= tctarget <= response_len
      modifies response, this`response_len, this`names, this`own, this`usable, this`started
      ensures Valid() && response_len == tctarget
      ensures names == Before(old(names), tctarget)
      ensures Buf() == old(Buf())[2 := SetBits(old(Buf())[2], 2)][..tctarget]
    {
      hide NamesOk, TableOk, OwnOk, SetBits, Range, Before;
      HeaderNotOwned(own, response_len, started, dpos);
      Patch(2, SetBits(response[2], 2));
      Cut(Buf(), own, names, started, dpos, tctarget);
      assert Buf()[..tctarget] == response[..tctarget];
      response_len := tctarget;
      names := Before(names, tctarget);
      own := own * Range(0, tctarget);
      usable, started := false, false;
    }
  }

  // ---------- what the packet means to a reader ----------

  /** Behind a question about a short name, that name is written in two bytes: a pointer to the question. */
  lemma AnswerPointsBack(q: seq<byte>, e: seq<byte>)
    requires WellFormed(q) && q[0] != 0 && |q| <= TABLE_NAME && WellFormed(e) && Same(e, q)
    ensures var t := After([], [], q, HEADER); Encoded(t.0, t.1, e) == [192, 12]
  {
    hide WellFormed, Same, After, Encoded;
    AgainIsPointer([], [], q, HEADER, e);
  }

  /** Every name written, at the offset at which it was written, is read back as the same name up to case,
      and reading ends just behind its encoding: neither the limit on steps nor that on length is hit. */
  lemma NamesReadable(buf: seq<byte>, own: set<nat>, names: seq<Emitted>, i: nat)
    requires NamesOk(buf, own, names) && i < |names|
    ensures var r := Limited(Decode(buf, names[i].pos, MAX_STEPS));
            r.Some? && Same(r.value.name, names[i].name) && r.value.end == names[i].end
  {
    var e := names[i];
    assert Written(buf, own, e);
    EncodesDecodes(buf, own, e.pos, e.name, MAX_STEPS);
    assert |Fold(Decode(buf, e.pos, MAX_STEPS).value.name)| == |Fold(e.name)|;
  }

  /** Every pointer that a reader meets in decoding any name of the packet leads backward, to a name that ends before
      the pointer. */
  lemma PointersBackward(buf: seq<byte>, own: set<nat>, names: seq<Emitted>, i: nat)
    requires NamesOk(buf, own, names) && i < |names|
    ensures forall k :: var ps := Met(buf, names[i].pos, MAX_STEPS);
              0 <= k < |ps| && ps[k] < |buf| && buf[ps[k]] >= 192 ==>
                ps[k] + 1 < |buf| && Target(buf, ps[k]) < ps[k] && EndsBy(buf, Target(buf, ps[k]), ps[k])
  {
    assert Written(buf, own, names[i]);
    EncodesBackward(buf, own, names[i].pos, names[i].name, MAX_STEPS);
  }
}
