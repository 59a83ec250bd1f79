/** Names inside DNS packets, with the compression of section 4.1.4 of RFC 1035. */
module Packet {
  import opened Bytes
  import opened Domain

  const MAX_STEPS := 999

  /** A decoded name, and the position after its encoding. */
  datatype Decoded = Decoded(name: seq<byte>, end: nat)

  function Target(buf: seq<byte>, pos: nat): (t: nat)
    requires pos + 1 < |buf| && buf[pos] >= 192
  {
    var hi: int, lo: int := buf[pos], buf[pos + 1];
    (hi - 192) * 256 + lo
  }

  /** The name at `pos`: a pointer continues elsewhere, a label is followed by the rest of the name, a zero
      byte ends it. Every byte of a label and every pointer costs one step. */
  function Decode(buf: seq<byte>, pos: nat, steps: nat): (r: Option<Decoded>)
    decreases steps
  {
    if steps == 0 || pos >= |buf| then None
    else if buf[pos] >= 192 then
      if pos + 1 >= |buf| then None
      else match Decode(buf, Target(buf, pos), steps - 1)
        case None => None
        case Some(d) => Some(Decoded(d.name, pos + 2))
    else if buf[pos] > MAX_LABEL then None
    else if buf[pos] == 0 then Some(Decoded([0], pos + 1))
    else
      var next := pos + 1 + buf[pos];
      if next > |buf| || steps < 1 + buf[pos] then None
      else match Decode(buf, next, steps - 1 - buf[pos])
        case None => None
        case Some(d) => Some(Decoded(buf[pos..next] + d.name, d.end))
  }

  /** Walking over a name without following pointers. */
  function Skip(buf: seq<byte>, pos: nat): (r: Option<nat>)
    decreases |buf| - pos
  {
    if pos >= |buf| then None
    else if buf[pos] >= 192 then Some(pos + 2)
    else if buf[pos] > MAX_LABEL then None
    else if buf[pos] == 0 then Some(pos + 1)
    else Skip(buf, pos + 1 + buf[pos])
  }

  /** The positions of the length bytes and pointers that are met in decoding. */
  function Met(buf: seq<byte>, pos: nat, steps: nat): (ps: seq<nat>)
    decreases steps
  {
    if steps == 0 || pos >= |buf| then []
    else if buf[pos] >= 192 then
      [pos] + if pos + 1 >= |buf| then [] else Met(buf, Target(buf, pos), steps - 1)
    else if buf[pos] > MAX_LABEL || buf[pos] == 0 || steps < 1 + buf[pos] then [pos]
    else [pos] + Met(buf, pos + 1 + buf[pos], steps - 1 - buf[pos])
  }

  // ---------- what decoding guarantees ----------

  predicate Sound(buf: seq<byte>, pos: nat, r: Option<Decoded>) {
    r.Some? ==> WellFormed(r.value.name) && pos < r.value.end <= |buf| && Skip(buf, pos) == Some(r.value.end)
  }

  lemma SoundLabel(buf: seq<byte>, pos: nat, steps: nat)
    requires pos < |buf| && 0 < buf[pos] <= MAX_LABEL && steps > 0
    requires steps >= 1 + buf[pos] ==> Sound(buf, pos + 1 + buf[pos], Decode(buf, pos + 1 + buf[pos], steps - 1 - buf[pos]))
    ensures Sound(buf, pos, Decode(buf, pos, steps))
  {
    hide WellFormed;
    var next := pos + 1 + buf[pos];
    if next <= |buf| && steps >= 1 + buf[pos] && Decode(buf, next, steps - 1 - buf[pos]).Some? {
      LabelFirst(buf[pos..next], Decode(buf, next, steps - 1 - buf[pos]).value.name);
    }
  }

  /** Whatever the packet, a decoded name is well-formed, ends inside the packet, and ends where skipping it ends. */
  lemma {:induction false} DecodeSound(buf: seq<byte>, pos: nat, steps: nat)
    ensures Sound(buf, pos, Decode(buf, pos, steps))
    decreases steps
  {
    if steps == 0 || pos >= |buf| || buf[pos] == 0 {
    } else if buf[pos] >= 192 {
      if pos + 1 < |buf| {
        DecodeSound(buf, Target(buf, pos), steps - 1);
      }
    } else if buf[pos] <= MAX_LABEL {
      if steps >= 1 + buf[pos] {
        DecodeSound(buf, pos + 1 + buf[pos], steps - 1 - buf[pos]);
      }
      SoundLabel(buf, pos, steps);
    }
  }

  lemma LabelFirst(l: seq<byte>, d: seq<byte>)
    requires l != [] && 0 < l[0] <= MAX_LABEL && |l| == 1 + l[0] && WellFormed(d)
    ensures WellFormed(l + d)
  {
    assert (l + d)[1 + l[0]..] == d;
  }

  /** More steps allowed never change a name that was decoded. */
  lemma {:induction false} DecodeMonotone(buf: seq<byte>, pos: nat, steps: nat, more: nat)
    requires steps <= more && Decode(buf, pos, steps).Some?
    ensures Decode(buf, pos, more) == Decode(buf, pos, steps)
    decreases steps
  {
    if buf[pos] >= 192 {
      DecodeMonotone(buf, Target(buf, pos), steps - 1, more - 1);
    } else if buf[pos] != 0 {
      DecodeMonotone(buf, pos + 1 + buf[pos], steps - 1 - buf[pos], more - 1 - buf[pos]);
    }
  }

  // ---------- names written out ----------

  predicate Decodes(buf: seq<byte>, pos: nat, steps: nat, d: seq<byte>, end: nat) {
    Decode(buf, pos, steps) == Some(Decoded(d, end))
  }

  lemma DecodeLabel(buf: seq<byte>, pos: nat, steps: nat, d: seq<byte>, end: nat)
    requires pos < |buf| && 0 < buf[pos] <= MAX_LABEL && pos + 1 + buf[pos] <= |buf| && steps >= 1 + buf[pos]
    requires Decodes(buf, pos + 1 + buf[pos], steps - 1 - buf[pos], d, end)
    ensures Decodes(buf, pos, steps, buf[pos..pos + 1 + buf[pos]] + d, end)
  {
  }

  lemma DecodeRoot(buf: seq<byte>, pos: nat, steps: nat)
    requires pos < |buf| && buf[pos] == 0 && steps > 0
    ensures Decodes(buf, pos, steps, [0], pos + 1)
  {
  }

  lemma DecodeFirst(buf: seq<byte>, pos: nat, d: seq<byte>, steps: nat, n: nat)
    requires d != [] && pos + |d| <= |buf| && buf[pos..pos + |d|] == d && steps >= n
    requires 0 < d[0] <= MAX_LABEL && n == 1 + d[0] <= |d|
    requires Decodes(buf, pos + n, steps - n, d[n..], pos + |d|)
    ensures Decodes(buf, pos, steps, d, pos + |d|)
  {
    hide Decodes;
    Parts(buf, pos, d, n);
    DecodeLabel(buf, pos, steps, d[n..], pos + |d|);
  }

  /** A name written out is decoded as it is. */
  lemma {:induction false} DecodeLiteral(buf: seq<byte>, pos: nat, d: seq<byte>, steps: nat)
    requires WellFormed(d) && pos + |d| <= |buf| && buf[pos..pos + |d|] == d && steps >= |d|
    ensures Decodes(buf, pos, steps, d, pos + |d|)
    decreases |d|
  {
    hide Decodes;
    NotEmpty(d);
    if d[0] == 0 {
      Parts(buf, pos, d, 1);
      DecodeRoot(buf, pos, steps);
    } else {
      var n := 1 + d[0];
      Heads(d);
      Parts(buf, pos, d, n);
      DecodeLiteral(buf, pos + n, d[n..], steps - n);
      DecodeFirst(buf, pos, d, steps, n);
    }
  }

  lemma Parts<T>(buf: seq<T>, pos: nat, d: seq<T>, n: nat)
    requires n <= |d| && pos + |d| <= |buf| && buf[pos..pos + |d|] == d
    ensures buf[pos..pos + n] == d[..n] && buf[pos + n..pos + n + |d[n..]|] == d[n..] && d[..n] + d[n..] == d
    ensures n > 0 ==> buf[pos] == d[0]
  {
  }

  // ---------- the functions ----------

  method Copy(buf: seq<byte>, pos: nat, outlen: nat) returns (r: Option<seq<byte>>)
    ensures r == if pos + outlen <= |buf| || outlen == 0 then Some(if outlen == 0 then [] else buf[pos..pos + outlen]) else None
  {
    var out: seq<byte> := [];
    var p := pos;
    while |out| < outlen
      invariant |out| <= outlen && p == pos + |out|
      invariant |out| > 0 ==> p <= |buf| && out == buf[pos..p]
      decreases outlen - |out|
    {
      if p >= |buf| { return None; }
      out := out + [buf[p]];
      p := p + 1;
    }
    return Some(out);
  }

  method SkipName(buf: seq<byte>, pos: nat) returns (r: Option<nat>)
    ensures r == Skip(buf, pos)
  {
    var p := pos;
    while p < |buf|
      invariant Skip(buf, pos) == Skip(buf, p)
      decreases |buf| - p
    {
      var ch := buf[p];
      p := p + 1;
      if ch >= 192 { return Some(p + 1); }
      if ch >= 64 { return None; }
      if ch == 0 { return Some(p); }
      p := p + ch;
    }
    return None;
  }

  /** The name at `pos` followed from a state in which `prefix` has been read and `first` is the position
      after the first pointer, or 0. */
  function Attach(prefix: seq<byte>, first: nat, r: Option<Decoded>): (s: Option<Decoded>) {
    match r
    case None => None
    case Some(d) => Some(Decoded(prefix + d.name, if first != 0 then first else d.end))
  }

  /** The result of `GetName`: names longer than 255 bytes are refused. */
  function Limited(r: Option<Decoded>): (s: Option<Decoded>) {
    if r.Some? && |r.value.name| <= MAX_NAME then r else None
  }

  lemma AttachLabel(buf: seq<byte>, prefix: seq<byte>, first: nat, pos: nat, steps: nat)
    requires pos < |buf| && 0 < buf[pos] <= MAX_LABEL && pos + 1 + buf[pos] <= |buf| && steps >= 1 + buf[pos]
    ensures Attach(prefix, first, Decode(buf, pos, steps)) ==
            Attach(prefix + buf[pos..pos + 1 + buf[pos]], first, Decode(buf, pos + 1 + buf[pos], steps - 1 - buf[pos]))
  {
    var next := pos + 1 + buf[pos];
    var r := Decode(buf, next, steps - 1 - buf[pos]);
    if r.Some? {
      assert prefix + (buf[pos..next] + r.value.name) == prefix + buf[pos..next] + r.value.name;
    }
  }

  lemma AttachPointer(buf: seq<byte>, prefix: seq<byte>, first: nat, pos: nat, steps: nat)
    requires pos + 1 < |buf| && buf[pos] >= 192 && steps > 0
    ensures Attach(prefix, first, Decode(buf, pos, steps)) ==
            Attach(prefix, if first != 0 then first else pos + 2, Decode(buf, Target(buf, pos), steps - 1))
  {
  }

  lemma TooLong(buf: seq<byte>, prefix: seq<byte>, first: nat, pos: nat, steps: nat)
    requires |prefix| >= MAX_NAME
    ensures Limited(Attach(prefix, first, Decode(buf, pos, steps))) == None
  {
    DecodeSound(buf, pos, steps);
  }

  /** The inner loop: pointers are followed until a length byte is read. */
  method FollowPointers(buf: seq<byte>, pos0: nat, loop0: nat, first0: nat, ghost prefix: seq<byte>)
    returns (ok: bool, pos: nat, loop: nat, first: nat)
    requires pos0 < |buf| && loop0 < MAX_STEPS
    ensures var all := Attach(prefix, first0, Decode(buf, pos0, MAX_STEPS - loop0));
            if ok
            then pos < |buf| && loop < MAX_STEPS && loop0 <= loop && buf[pos] < 192
                 && all == Attach(prefix, first, Decode(buf, pos, MAX_STEPS - loop))
            else all == None
  {
    pos, loop, first := pos0, loop0, first0;
    var ch := buf[pos];
    while ch >= 192
      invariant pos < |buf| && loop0 <= loop < MAX_STEPS && ch == buf[pos]
      invariant Attach(prefix, first0, Decode(buf, pos0, MAX_STEPS - loop0)) ==
                Attach(prefix, first, Decode(buf, pos, MAX_STEPS - loop))
      decreases MAX_STEPS - loop
    {
      if pos + 1 >= |buf| { return false, pos, loop, first; }
      AttachPointer(buf, prefix, first, pos, MAX_STEPS - loop);
      if first == 0 { first := pos + 2; }
      pos := Target(buf, pos);
      loop := loop + 1;
      if pos >= |buf| { return false, pos, loop, first; }
      ch := buf[pos];
      if loop + 1 >= 1000 { return false, pos, loop, first; }
    }
    ok := true;
  }

  /** Inside the label that starts at `at`: `state` bytes of it are still to come. */
  ghost predicate InLabel(buf: seq<byte>, name: seq<byte>, first: nat, pos: nat, loop: nat, state: nat,
                          at: nat, before: nat, all: Option<Decoded>) {
    && at < |buf| && 0 < buf[at] <= MAX_LABEL && state <= buf[at]
    && pos == at + 1 + buf[at] - state <= |buf|
    && pos - at <= |name| && loop == before + (pos - at) <= MAX_STEPS
    && name[|name| - (pos - at)..] == buf[at..pos]
    && all == Attach(name[..|name| - (pos - at)], first, Decode(buf, at, MAX_STEPS - before))
  }

  lemma StartLabel(buf: seq<byte>, name: seq<byte>, first: nat, pos: nat, loop: nat, all: Option<Decoded>)
    requires pos < |buf| && 0 < buf[pos] <= MAX_LABEL && loop < MAX_STEPS
    requires all == Attach(name, first, Decode(buf, pos, MAX_STEPS - loop))
    ensures InLabel(buf, name + [buf[pos]], first, pos + 1, loop + 1, buf[pos], pos, loop, all)
  {
    hide Decode, Attach;
    assert (name + [buf[pos]])[..|name|] == name;
    assert buf[pos..pos + 1] == [buf[pos]];
  }

  lemma NextInLabel(buf: seq<byte>, name: seq<byte>, first: nat, pos: nat, loop: nat, state: nat,
                    at: nat, before: nat, all: Option<Decoded>)
    requires InLabel(buf, name, first, pos, loop, state, at, before, all)
    requires state > 0 && pos < |buf| && loop < MAX_STEPS
    ensures InLabel(buf, name + [buf[pos]], first, pos + 1, loop + 1, state - 1, at, before, all)
  {
    hide Decode, Attach;
    var n := |name| - (pos - at);
    assert (name + [buf[pos]])[..n] == name[..n];
    assert (name + [buf[pos]])[n..] == name[n..] + [buf[pos]];
    assert buf[at..pos + 1] == buf[at..pos] + [buf[pos]];
  }

  lemma LabelDone(buf: seq<byte>, name: seq<byte>, first: nat, pos: nat, loop: nat,
                  at: nat, before: nat, all: Option<Decoded>)
    requires InLabel(buf, name, first, pos, loop, 0, at, before, all)
    ensures all == Attach(name, first, Decode(buf, pos, MAX_STEPS - loop))
  {
    var n := |name| - (pos - at);
    AttachLabel(buf, name[..n], first, at, MAX_STEPS - before);
    hide Decode, Attach;
    assert name == name[..n] + buf[at..pos];
  }

  /** A label that runs out of packet, of steps or of room yields no name. */
  lemma LabelFails(buf: seq<byte>, name: seq<byte>, first: nat, pos: nat, loop: nat, state: nat,
                   at: nat, before: nat, all: Option<Decoded>)
    requires InLabel(buf, name, first, pos, loop, state, at, before, all) && state > 0
    requires pos >= |buf| || loop == MAX_STEPS || |name| >= MAX_NAME
    ensures Limited(all) == None
  {
    var next := at + 1 + buf[at];
    if next <= |buf| && MAX_STEPS - before >= 1 + buf[at] {
      AttachLabel(buf, name[..|name| - (pos - at)], first, at, MAX_STEPS - before);
    }
  }

  lemma AttachNothing(r: Option<Decoded>)
    ensures Attach([], 0, r) == r
  {
    if r.Some? { assert [] + r.value.name == r.value.name; }
  }

  /** The name at `pos0`, decompressed. */
  method GetName(buf: seq<byte>, pos0: nat) returns (r: Option<Decoded>)
    ensures r == Limited(Decode(buf, pos0, MAX_STEPS))
  {
    hide Limited, InLabel, Attach, Decode, Target, WellFormed;
    var name := new byte[MAX_NAME];
    var namelen: nat, state: nat, loop: nat, first: nat, pos: nat := 0, 0, 0, 0, pos0;
    ghost var all := Decode(buf, pos0, MAX_STEPS);
    ghost var at, before: nat := 0, 0;
    AttachNothing(all);
    while true
      invariant namelen <= MAX_NAME && loop <= MAX_STEPS
      invariant state == 0 ==> all == Attach(name[..namelen], first, Decode(buf, pos, MAX_STEPS - loop))
      invariant state > 0 ==> InLabel(buf, name[..namelen], first, pos, loop, state, at, before, all)
      decreases MAX_STEPS - loop
    {
      if pos >= |buf| || loop + 1 >= 1000 || (state > 0 && namelen + 1 > MAX_NAME) {
        Stuck(buf, name[..namelen], first, pos, loop, state, at, before, all);
        return None;
      }
      ghost var sofar := name[..namelen];
      if state > 0 {
        NextInLabel(buf, sofar, first, pos, loop, state, at, before, all);
        name[namelen] := buf[pos];
        assert name[..namelen + 1] == sofar + [buf[pos]];
        namelen, pos, loop, state := namelen + 1, pos + 1, loop + 1, state - 1;
        if state == 0 { LabelDone(buf, name[..namelen], first, pos, loop, at, before, all); }
      } else {
        var ok;
        ok, pos, loop, first := FollowPointers(buf, pos, loop, first, sofar);
        if !ok { NoName(all); return None; }
        var ch := buf[pos];
        if ch >= 64 || namelen + 1 > MAX_NAME {
          Refused(buf, sofar, first, pos, loop, all);
          return None;
        }
        name[namelen] := ch;
        assert name[..namelen + 1] == sofar + [ch];
        namelen := namelen + 1;
        if ch == 0 {
          Finished(buf, sofar, first, pos, loop, all);
          return Some(Decoded(name[..namelen], if first != 0 then first else pos + 1));
        }
        StartLabel(buf, sofar, first, pos, loop, all);
        at, before := pos, loop;
        state, pos, loop := ch, pos + 1, loop + 1;
      }
    }
  }

  lemma NoName(all: Option<Decoded>)
    requires all == None
    ensures Limited(all) == None
  {
  }

  lemma Stuck(buf: seq<byte>, name: seq<byte>, first: nat, pos: nat, loop: nat, state: nat,
              at: nat, before: nat, all: Option<Decoded>)
    requires loop <= MAX_STEPS && (pos >= |buf| || loop + 1 >= 1000 || (state > 0 && |name| + 1 > MAX_NAME))
    requires state == 0 ==> all == Attach(name, first, Decode(buf, pos, MAX_STEPS - loop))
    requires state > 0 ==> InLabel(buf, name, first, pos, loop, state, at, before, all)
    ensures Limited(all) == None
  {
    if state > 0 {
      LabelFails(buf, name, first, pos, loop, state, at, before, all);
    }
  }

  lemma Refused(buf: seq<byte>, name: seq<byte>, first: nat, pos: nat, loop: nat, all: Option<Decoded>)
    requires (pos < |buf| && loop < MAX_STEPS && MAX_LABEL < buf[pos] < 192) || |name| >= MAX_NAME
    requires loop <= MAX_STEPS && all == Attach(name, first, Decode(buf, pos, MAX_STEPS - loop))
    ensures Limited(all) == None
  {
    if |name| >= MAX_NAME { TooLong(buf, name, first, pos, MAX_STEPS - loop); }
  }

  lemma Finished(buf: seq<byte>, name: seq<byte>, first: nat, pos: nat, loop: nat, all: Option<Decoded>)
    requires pos < |buf| && loop < MAX_STEPS && buf[pos] == 0 && |name| < MAX_NAME
    requires all == Attach(name, first, Decode(buf, pos, MAX_STEPS - loop))
    ensures Limited(all) == Some(Decoded(name + [0], if first != 0 then first else pos + 1))
  {
  }

  /** On every packet and offset: a name that is returned is well-formed and at most 255 bytes long, and the
      position returned lies in the packet and is where skipping the name ends. */
  lemma GetNameSound(buf: seq<byte>, pos: nat)
    ensures var r := Limited(Decode(buf, pos, MAX_STEPS));
            r.Some? ==> && WellFormed(r.value.name) && |r.value.name| <= MAX_NAME
                        && pos < r.value.end <= |buf| && Skip(buf, pos) == Some(r.value.end)
  {
    DecodeSound(buf, pos, MAX_STEPS);
  }
}
