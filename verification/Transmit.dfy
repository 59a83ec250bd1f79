/** One transmission of a question: rounds of UDP to all servers, then at most one round of TCP. What the network
    does is arbitrary. */
module Transmit {
  import opened Bytes
  import opened Domain
  import opened Packet
  import opened IncreasingSeq

  const SERVERS := 16
  const ROUNDS := 4

  // ---------- judging a packet ----------

  predicate WantsTcp(buf: seq<byte>) {
    |buf| < 12 || buf[2] / 2 % 2 == 1
  }

  predicate Failed(buf: seq<byte>) {
    |buf| < 12 || (buf[3] % 16 != 0 && buf[3] % 16 != 3)
  }

  /** The name in a query: behind the length and the header, in front of type and class. */
  function QueryName(query: seq<byte>): (d: seq<byte>)
    requires |query| >= 18
  {
    query[14..|query| - 4]
  }

  /** The query for a name and a type: its length for TCP, a header with one question, the question. */
  function QueryFor(q: seq<byte>, t: seq<byte>, recursive: bool): (s: seq<byte>)
    requires |t| == 2
    ensures |s| == |q| + 18 && s[14..|q| + 14] == q && s[|q| + 14..|q| + 16] == t && s[|q| + 16..] == [0, 1]
  {
    Pack2Big((|q| + 16) % 65536) + [0, 0, if recursive then 1 else 0, 0, 0, 1, 0, 0, 0, 0, 0, 0] + q + t + [0, 1]
  }

  lemma QueryForName(q: seq<byte>, t: seq<byte>, recursive: bool)
    requires |t| == 2
    ensures QueryName(QueryFor(q, t, recursive)) == q
  {
  }

  /** The same query with another number. */
  predicate Renumbered(a: seq<byte>, b: seq<byte>) {
    |a| == |b| >= 18 && a[..2] == b[..2] && a[4..] == b[4..]
  }

  lemma Within<T>(s: seq<T>, i: nat, j: nat, k: nat)
    requires j <= k && i + k <= |s|
    ensures s[i..][j..k] == s[i + j..i + k]
  {
  }

  lemma SameNumber(a: seq<byte>)
    requires |a| >= 18
    ensures Renumbered(a, a)
  {
  }

  lemma RenumberedTwice(a: seq<byte>, b: seq<byte>, c: seq<byte>)
    requires Renumbered(a, b) && Renumbered(b, c)
    ensures Renumbered(a, c)
  {
  }

  lemma SameName(a: seq<byte>, b: seq<byte>)
    requires Renumbered(a, b)
    ensures QueryName(a) == QueryName(b)
  {
    Within(a, 4, 10, |a| - 8);
    Within(b, 4, 10, |b| - 8);
  }

  /** Not a response to the query: another number, more than one question, or another question. */
  predicate Irrelevant(buf: seq<byte>, query: seq<byte>, qtype: seq<byte>)
    requires |query| >= 18
  {
    if |buf| < 12 || buf[..2] != query[2..4] || buf[4] != 0 || buf[5] != 1 then true
    else match Limited(Decode(buf, 12, MAX_STEPS))
      case None => true
      case Some(d) =>
        !Same(d.name, QueryName(query)) || d.end + 4 > |buf| || buf[d.end..d.end + 2] != qtype
        || buf[d.end + 2..d.end + 4] != [0, 1]
  }

  predicate Acceptable(buf: seq<byte>, query: seq<byte>, qtype: seq<byte>) {
    |query| >= 18 && !Irrelevant(buf, query, qtype) && !WantsTcp(buf) && !Failed(buf)
  }

  lemma AsksOnce(query: seq<byte>, q: seq<byte>, t: seq<byte>, recursive: bool)
    requires |t| == 2 && Renumbered(query, QueryFor(q, t, recursive))
    ensures |query| == |q| + 18 && query[14..] == q + t + [0, 1] && query[6..8] == [0, 1] && QueryName(query) == q
  {
    var sent := QueryFor(q, t, recursive);
    Within(query, 4, 10, |q| + 14);
    Within(sent, 4, 10, |q| + 14);
    Within(query, 4, 2, 4);
    Within(sent, 4, 2, 4);
    SameName(query, sent);
    InThree(sent, 14, |q| + 14, |q| + 16);
    assert query[14..] == sent[14..] && query[6..8] == sent[6..8];
  }

  lemma InThree<T>(s: seq<T>, a: nat, b: nat, c: nat)
    requires a <= b <= c <= |s|
    ensures s[a..] == s[a..b] + s[b..c] + s[c..]
  {
  }

  lemma QuestionThere(buf: seq<byte>, q: seq<byte>, t: seq<byte>)
    requires |t| == 2 && |buf| >= |q| + 16 && buf[12..|q| + 16] == q + t + [0, 1]
    ensures buf[12..12 + |q|] == q && buf[|q| + 12..|q| + 14] == t && buf[|q| + 14..|q| + 16] == [0, 1]
  {
    var s := q + t + [0, 1];
    assert s[..|q|] == q && s[|q|..|q| + 2] == t && s[|q| + 2..|q| + 4] == [0, 1];
    Inside(buf, 12, |q| + 16, 0, |q|);
    Inside(buf, 12, |q| + 16, |q|, |q| + 2);
    Inside(buf, 12, |q| + 16, |q| + 2, |q| + 4);
  }

  lemma Inside<T>(s: seq<T>, a: nat, b: nat, i: nat, j: nat)
    requires i <= j && a + j <= b <= |s|
    ensures s[a..b][i..j] == s[a + i..a + j]
  {
    var u := s[a..b];
    assert forall k :: 0 <= k < j - i ==> u[i..j][k] == u[i + k] == s[a + (i + k)] == s[a + i..a + j][k];
  }

  /** A packet that repeats the number and the one question of the query is relevant. */
  lemma EchoIsRelevant(buf: seq<byte>, query: seq<byte>, q: seq<byte>, t: seq<byte>, recursive: bool)
    requires |t| == 2 && WellFormed(q) && |q| <= MAX_NAME && Renumbered(query, QueryFor(q, t, recursive))
    requires |buf| >= |q| + 16 && buf[..2] == query[2..4] && buf[4..6] == query[6..8] && buf[12..|q| + 16] == query[14..]
    ensures !Irrelevant(buf, query, t)
  {
    hide WellFormed, Decode, Same, QueryFor, Renumbered, QueryName;
    AsksOnce(query, q, t, recursive);
    QuestionThere(buf, q, t);
    assert buf[4] == buf[4..6][0] && buf[5] == buf[4..6][1];
    DecodeLiteral(buf, 12, q, MAX_STEPS);
    SameReflexive(q);
  }

  /** The one question of the packet. */
  ghost predicate AsksFor(buf: seq<byte>, d: seq<byte>, end: nat, q: seq<byte>, t: seq<byte>) {
    && Limited(Decode(buf, 12, MAX_STEPS)) == Some(Decoded(d, end)) && Same(d, q)
    && end + 4 <= |buf| && buf[end..end + 2] == t && buf[end + 2..end + 4] == [0, 1]
  }

  /** What is accepted for the query is exactly a whole packet with its number, one question for its name, up to case,
      its type and class IN, and a response code that says success or a missing name. */
  lemma AcceptedMeans(buf: seq<byte>, query: seq<byte>, q: seq<byte>, t: seq<byte>, recursive: bool)
    requires |t| == 2 && Renumbered(query, QueryFor(q, t, recursive))
    ensures Acceptable(buf, query, t) <==>
              && |buf| >= 12 && buf[..2] == query[2..4] && Get2Big(buf, 4) == 1
              && buf[2] / 2 % 2 == 0 && buf[3] % 16 in {0, 3}
              && exists d, end :: AsksFor(buf, d, end, q, t)
  {
    hide Decode, Same, QueryFor, Renumbered, QueryName;
    AsksOnce(query, q, t, recursive);
    if |buf| >= 12 && Limited(Decode(buf, 12, MAX_STEPS)).Some? {
      var r := Limited(Decode(buf, 12, MAX_STEPS)).value;
      assert Limited(Decode(buf, 12, MAX_STEPS)) == Some(Decoded(r.name, r.end));
      if Acceptable(buf, query, t) { assert AsksFor(buf, r.name, r.end, q, t); }
    }
  }

  // ---------- counting attempts ----------

  /** Attempts are numbered in the only order in which they may happen: UDP to server `s` in round `r` has number
      16 r + s, TCP to server `s` has number 64 + s. */
  const FIRST_TCP := SERVERS * ROUNDS
  const LAST := FIRST_TCP + SERVERS

  ghost predicate Orderly(attempts: seq<nat>, from: nat, to: nat) {
    Increasing(attempts) && forall i :: 0 <= i < |attempts| ==> from <= attempts[i] < to
  }

  lemma OrderlyMore(attempts: seq<nat>, from: nat, to: nat, a: nat)
    requires Orderly(attempts, from, to) && to <= a && from <= a
    ensures Orderly(attempts + [a], from, a + 1)
  {
  }

  lemma OrderlyNone(from: nat)
    ensures forall to :: Orderly([], from, to)
  {
  }

  lemma OrderlyUpTo(attempts: seq<nat>, from: nat, to: nat, more: nat)
    requires Orderly(attempts, from, to) && to <= more
    ensures Orderly(attempts, from, more)
  {
  }

  lemma {:induction false} OrderlyBound(attempts: seq<nat>, from: nat, to: nat)
    requires Orderly(attempts, from, to)
    ensures |attempts| <= if to >= from then to - from else 0
  {
    if attempts != [] {
      var n := |attempts| - 1;
      OrderlyBound(attempts[..n], from, attempts[n]);
    }
  }

  /** Every attempt from `from` on and before `to` has been made, unless it is for an empty place in the list. */
  ghost predicate Covers(attempts: seq<nat>, servers: seq<Ip>, from: nat, to: nat) {
    |servers| == SERVERS && forall a :: from <= a < to && servers[a % SERVERS] != NO_IP ==> a in attempts
  }

  lemma CoversNothing(attempts: seq<nat>, servers: seq<Ip>, from: nat)
    requires |servers| == SERVERS
    ensures Covers(attempts, servers, from, from)
  {
  }

  lemma CoversMore(attempts: seq<nat>, servers: seq<Ip>, from: nat, round: nat, s: nat)
    requires s < SERVERS && Covers(attempts, servers, from, SERVERS * round + s)
    ensures Covers(attempts + [SERVERS * round + s], servers, from, SERVERS * round + s + 1)
    ensures |servers| == SERVERS && (servers[s] == NO_IP ==> Covers(attempts, servers, from, SERVERS * round + s + 1))
  {
    ModUnique(SERVERS * round + s, SERVERS, round, s);
  }

  // ---------- writing the query to a connection ----------

  /** One write of `n` bytes from position `pos` on: of the query when the position is in it, otherwise of
      whatever stands behind it. */
  predicate Writes(query: seq<byte>, pos: uint32, n: nat, piece: seq<byte>) {
    && |query| < WORD && 0 < n <= (|query| - pos) % WORD && |piece| == n
    && (pos + n <= |query| ==> piece == query[pos..pos + n])
  }

  /** What has been written to a connection on which writing began at position `start`. */
  ghost predicate Written(query: seq<byte>, start: uint32, pos: uint32, written: seq<byte>) {
    && |query| < WORD
    && (if start <= |query| then start <= pos <= |query| && written == query[start..pos]
        else if pos < start then pos <= |query| && |written| == pos + WORD - start
        else |written| == pos - start)
  }

  lemma NothingWritten(query: seq<byte>, pos: uint32)
    requires |query| < WORD
    ensures Written(query, pos, pos, [])
  {
  }

  lemma WriteMore(query: seq<byte>, start: uint32, pos: uint32, written: seq<byte>, n: nat, piece: seq<byte>)
    requires Written(query, start, pos, written) && Writes(query, pos, n, piece)
    ensures Written(query, start, (pos + n) % WORD, written + piece)
  {
    if pos <= |query| {
      ModUnique(|query| - pos, WORD, 0, |query| - pos);
      ModUnique(pos + n, WORD, 0, pos + n);
    } else {
      ModUnique(|query| - pos, WORD, -1, |query| - pos + WORD);
      if pos + n < WORD { ModUnique(pos + n, WORD, 0, pos + n); } else { ModUnique(pos + n, WORD, 1, pos + n - WORD); }
    }
    if start <= |query| { assert query[start..pos + n] == query[start..pos] + query[pos..pos + n]; }
  }

  /** When the position has come to the end of the query, exactly the query has been written if and only if writing
      began at its first byte. */
  lemma WrittenWhole(query: seq<byte>, start: uint32, written: seq<byte>)
    requires query != [] && |query| < WORD && Written(query, start, |query|, written)
    ensures written == query <==> start == 0
  {
  }

  /** A run that fails: five bytes of a packet have been read from a server, and the next one is connected at once.
      One write takes the position to the end, and the server has never seen the first five bytes. */
  lemma BeginsInside(query: seq<byte>)
    requires 18 <= |query| < WORD
    ensures Written(query, 5, 5, []) && Writes(query, 5, |query| - 5, query[5..]) && (5 + (|query| - 5)) % WORD == |query|
    ensures Written(query, 5, |query|, query[5..]) && query[5..] != query
  {
    ModUnique(|query| - 5, WORD, 0, |query| - 5);
    ModUnique(|query|, WORD, 0, |query|);
    assert query[5..5] == [] && query[5..|query|] == query[5..];
  }

  /** A transmission that began with round `first` makes at most 16 UDP attempts for every round left and at most
      16 TCP attempts, all UDP attempts before all TCP attempts. */
  lemma {:induction false} AttemptsBounded(attempts: seq<nat>, first: nat) returns (n: nat)
    requires first <= ROUNDS && Orderly(attempts, SERVERS * first, LAST)
    ensures n <= |attempts|
    ensures (forall i :: 0 <= i < n ==> attempts[i] < FIRST_TCP) && forall i :: n <= i < |attempts| ==> attempts[i] >= FIRST_TCP
    ensures n <= SERVERS * (ROUNDS - first) && |attempts| - n <= SERVERS
  {
    n := 0;
    while n < |attempts| && attempts[n] < FIRST_TCP
      invariant n <= |attempts| && forall i :: 0 <= i < n ==> attempts[i] < FIRST_TCP
    {
      n := n + 1;
    }
    OrderlyBound(attempts[..n], SERVERS * first, FIRST_TCP);
    OrderlyBound(attempts[n..], FIRST_TCP, LAST);
  }

  // ---------- the transmission ----------

  /** What is found when a transmission is looked at: nothing yet, its time is over, or its socket is ready, and then
      the bytes that a read gives, whether the connection is established, or how many bytes a write has taken. */
  datatype Event =
    | Early
    | Late
    | Came(got: seq<byte>, refused: bool)
    | Opened(ok: bool)
    | Wrote(n: int)

  class Transmission {
    /** [] when there is none. */
    var query: seq<byte>
    var packet: Option<seq<byte>>
    /** Number of the socket plus one; 0 when there is none. */
    var s1: nat
    var servers: seq<Ip>
    var qtype: seq<byte>
    var udploop: nat
    var curserver: nat
    var tcpstate: nat
    /** Kept from one connection to the next. */
    var pos: uint32
    var packetlen: nat

    /** The round of UDP that it began with, and the attempts since. */
    ghost var first: nat
    ghost var attempts: seq<nat>
    /** Whether it was ended by a lack of sockets or memory. */
    ghost var local: bool
    /** The position at which writing to the current connection began, and what has been written to it. */
    ghost var start: uint32
    ghost var written: seq<byte>

    ghost predicate Base()
      reads this
    {
      |servers| == SERVERS && first <= ROUNDS && 18 <= |query| < WORD && !local
    }

    /** About to try UDP with the current server. */
    ghost predicate NextUdp()
      reads this
    {
      && Base() && packet == None && first <= udploop <= ROUNDS && curserver <= SERVERS
      && (udploop == ROUNDS ==> curserver == 0)
      && Orderly(attempts, SERVERS * first, SERVERS * udploop + curserver)
      && Covers(attempts, servers, SERVERS * first, SERVERS * udploop + curserver)
    }

    /** About to try TCP with the current server. */
    ghost predicate NextTcp()
      reads this
    {
      && Base() && curserver <= SERVERS && Orderly(attempts, SERVERS * first, FIRST_TCP + curserver)
      && Covers(attempts, servers, FIRST_TCP, FIRST_TCP + curserver)
    }

    /** The number of the attempt that is waited for. */
    ghost function Place(): (a: nat)
      reads this
    {
      if tcpstate == 0 then SERVERS * udploop + curserver else FIRST_TCP + curserver
    }

    /** A question is out by UDP, or a TCP connection is at one of its five stages. */
    ghost predicate Waiting()
      reads this
    {
      && Base() && s1 > 0 && curserver < SERVERS && tcpstate <= 5
      && attempts != [] && attempts[|attempts| - 1] == Place()
      && (if tcpstate == 0 then
            && udploop < ROUNDS && first <= udploop && Orderly(attempts, SERVERS * first, SERVERS * udploop + curserver + 1)
            && Covers(attempts, servers, SERVERS * first, SERVERS * udploop + curserver + 1)
          else
            && Orderly(attempts, SERVERS * first, FIRST_TCP + curserver + 1)
            && Covers(attempts, servers, FIRST_TCP, FIRST_TCP + curserver + 1))
      && (tcpstate == 2 ==> Written(query, start, pos, written))
      && (tcpstate >= 3 ==> (written == query <==> start == 0))
      && (packet.Some? <==> tcpstate == 5) && (tcpstate == 4 ==> packetlen < 256) && (tcpstate == 5 ==> packetlen < 65536)
      && (tcpstate == 5 ==> pos == |packet.value| && (packetlen > 0 ==> pos < packetlen) && pos <= packetlen)
    }

    /** Every server of the list was tried by UDP in every round. */
    ghost predicate UdpExhausted()
      reads this
    {
      Covers(attempts, servers, SERVERS * first, FIRST_TCP)
    }

    /** Every server of the list was tried by TCP. */
    ghost predicate TcpExhausted()
      reads this
    {
      Covers(attempts, servers, FIRST_TCP, LAST)
    }

    ghost predicate HoldsNothing()
      reads this
    {
      query == [] && packet == None && s1 == 0
    }

    ghost predicate HoldsOnlyPacket()
      reads this
    {
      query == [] && packet.Some? && s1 == 0
    }

    /** What the result of a call says. */
    ghost predicate Result(r: int)
      reads this
    {
      && first <= ROUNDS && -1 <= r <= 1
      && Orderly(attempts, SERVERS * first, LAST)
      && (r == 0 ==> Waiting())
      && (r == 1 ==> HoldsOnlyPacket())
      && (r == -1 ==> HoldsNothing() && (local || UdpExhausted() || TcpExhausted()))
    }

    /** An attempt from number `from` on is out by UDP, or there is none left. */
    ghost predicate OnByUdp(r: int, from: nat)
      reads this
    {
      if r == 0 then tcpstate == 0 && from <= Place() else r == -1 && (local || UdpExhausted())
    }

    /** An attempt from number `from` on is out by TCP, or there is none left. */
    ghost predicate OnByTcp(r: int, from: nat, at: nat)
      reads this
    {
      if r == 0 then (tcpstate == 1 || Begun(at)) && from <= Place() else r == -1 && (local || TcpExhausted())
    }

    /** What came by UDP. A packet that is too long or is no response changes nothing; a response that is cut short
        begins TCP; after one that says failure, as after none, the next server is asked, except in the last but one
        round; any other is the packet, unless there is no memory for it. */
    twostate predicate UdpRead(got: seq<byte>, refused: bool, r: int)
      requires old(|query|) >= 18
      reads this
    {
      if got == [] then
        if refused && old(udploop) == 2 then r == 0 && unchanged(this) else OnByUdp(r, old(Place()) + 1)
      else if |got| > 512 || Irrelevant(got, old(query), old(qtype)) then r == 0 && unchanged(this)
      else if WantsTcp(got) then OnByTcp(r, FIRST_TCP, old(pos))
      else if Failed(got) then
        if old(udploop) == 2 then r == 0 && unchanged(this) else OnByUdp(r, old(Place()) + 1)
      else (r == 1 && packet == Some(got)) || (r == -1 && local)
    }

    /** What came by TCP at the last stage: it goes behind what came before. The whole packet is judged. */
    twostate predicate TcpRead(got: seq<byte>, r: int)
      requires old(packet).Some? && old(|query|) >= 18
      reads this
    {
      var all := old(packet).value + got;
      if got == [] then OnByTcp(r, old(Place()) + 1, old(pos))
      else if |all| < old(packetlen) then
        r == 0 && packet == Some(all) && pos == |all| && unchanged(`tcpstate) && unchanged(`curserver) && unchanged(`query)
        && unchanged(`packetlen)
      else if Acceptable(all, old(query), old(qtype)) then r == 1 && packet == Some(all)
      else OnByTcp(r, old(Place()) + 1, |all|)
    }

    /** One byte of the length, the high one first. */
    twostate predicate LengthRead(got: seq<byte>, r: int)
      reads this
    {
      if got == [] then OnByTcp(r, old(Place()) + 1, old(pos))
      else
        || (r == -1 && local && old(tcpstate) == 4)
        || (r == 0 && unchanged(`query) && unchanged(`curserver) && tcpstate == old(tcpstate) + 1
            && packetlen == (if old(tcpstate) == 4 then 256 * old(packetlen) else 0) + got[0]
            && (if tcpstate == 5 then packet == Some([]) else packet == None))
    }

    /** The connection has been established, or not. */
    twostate predicate Connects(ok: bool, r: int)
      reads this
    {
      if ok then r == 0 && Begun(0) && unchanged(`query) && unchanged(`curserver) else OnByTcp(r, old(Place()) + 1, old(pos))
    }

    /** Some of the query has been written; after the last byte the answer is awaited. */
    twostate predicate WroteMore(n: int, r: int)
      requires old(|query|) < WORD
      reads this
    {
      if 0 < n <= old((|query| - pos) % WORD) then
        && r == 0 && unchanged(`query) && unchanged(`curserver) && pos == (old(pos) + n) % WORD
        && (exists piece :: Writes(query, old(pos), n, piece) && written == old(written) + piece)
        && tcpstate == if pos == |query| then 3 else 2
      else OnByTcp(r, old(Place()) + 1, old(pos))
    }

    /** What may be found at this stage. A read gives no more than it was asked for. */
    predicate Possible(event: Event)
      reads this
    {
      match event
      case Early => true
      case Late => true
      case Came(got, _) =>
        || (tcpstate == 0 && |got| <= 513) || (3 <= tcpstate <= 4 && |got| <= 1)
        || (tcpstate == 5 && |got| <= packetlen - pos)
      case Opened(_) => tcpstate == 1
      case Wrote(_) => tcpstate == 2
    }

    // ---------- the network ----------

    method Maybe() returns (b: bool) {
      b := *;
    }

    /** A socket, unless there is none to be had. */
    method Socket() returns (ok: bool)
      modifies this`s1
      ensures ok <==> s1 > 0
    {
      var fd: int := *;
      s1 := if fd >= 0 then fd + 1 else 0;
      return s1 > 0;
    }

    /** A new number for the query. */
    method Renumber()
      requires |query| >= 18
      modifies this`query
      ensures Renumbered(query, old(query))
    {
      var a: byte, b: byte := *, *;
      query := query[2 := a][3 := b];
    }

    /** Makes an attempt: a new number for the query and a new socket, unless there is none to be had. */
    method Attempt(ghost a: nat) returns (ok: bool)
      requires |query| >= 18
      modifies this`query, this`s1, this`packet, this`attempts, this`local
      ensures attempts == old(attempts) + [a]
      ensures ok ==> s1 > 0 && packet == old(packet) && local == old(local)
      ensures ok ==> Renumbered(query, old(query)) && |query| == old(|query|)
      ensures !ok ==> HoldsNothing() && local
    {
      Renumber();
      attempts := attempts + [a];
      ok := Socket();
      var bound := Maybe();
      ok := ok && bound;
      if !ok {
        Free();
        local := true;
      }
    }

    method Free()
      modifies this`query, this`s1, this`packet
      ensures HoldsNothing()
    {
      query, s1, packet := [], 0, None;
    }

    // ---------- UDP ----------

    method ThisUdp() returns (r: int)
      requires NextUdp()
      modifies this`query, this`s1, this`packet, this`curserver, this`udploop, this`tcpstate, this`attempts, this`local
      ensures r == 0 ==> Renumbered(query, old(query))
      ensures old(attempts) <= attempts
      ensures Result(r) && OnByUdp(r, old(SERVERS * udploop + curserver))
    {
      hide Orderly, Covers, Written, Renumbered;
      SameNumber(query);
      s1 := 0;
      while udploop < ROUNDS
        invariant NextUdp() && s1 == 0 && old(attempts) <= attempts && Renumbered(query, old(query))
        invariant SERVERS * udploop + curserver >= old(SERVERS * udploop + curserver)
        decreases ROUNDS - udploop
      {
        while curserver < SERVERS
          invariant NextUdp() && s1 == 0 && udploop < ROUNDS && old(attempts) <= attempts && Renumbered(query, old(query))
          invariant SERVERS * udploop + curserver >= old(SERVERS * udploop + curserver)
          decreases ROUNDS - udploop, SERVERS - curserver
        {
          CoversMore(attempts, servers, SERVERS * first, udploop, curserver);
          if servers[curserver] != NO_IP {
            ghost var before := query;
            var sent, broken := TryUdp();
            OrderlyUpTo(attempts, SERVERS * first, SERVERS * udploop + curserver + 1, LAST);
            if broken { return -1; }
            RenumberedTwice(query, before, old(query));
            if sent { return 0; }
          } else {
            OrderlyUpTo(attempts, SERVERS * first, SERVERS * udploop + curserver, SERVERS * udploop + curserver + 1);
          }
          curserver := curserver + 1;
        }
        udploop := udploop + 1;
        curserver := 0;
      }
      OrderlyUpTo(attempts, SERVERS * first, FIRST_TCP, LAST);
      Free();
      return -1;
    }

    /** Sends the query to the current server; broken when no socket can be had. */
    method TryUdp() returns (sent: bool, broken: bool)
      requires NextUdp() && udploop < ROUNDS && curserver < SERVERS
      modifies this`query, this`s1, this`packet, this`tcpstate, this`attempts, this`local
      ensures !broken ==> Renumbered(query, old(query)) && |query| == old(|query|)
      ensures old(attempts) <= attempts
      ensures Orderly(attempts, SERVERS * first, SERVERS * udploop + curserver + 1)
      ensures Covers(attempts, servers, SERVERS * first, SERVERS * udploop + curserver + 1)
      ensures broken ==> HoldsNothing() && local
      ensures !broken && sent ==> Waiting() && tcpstate == 0
      ensures !broken && !sent ==> s1 == 0 && packet == None && !local
    {
      hide Orderly, Covers, Written, Renumbered;
      CoversMore(attempts, servers, SERVERS * first, udploop, curserver);
      OrderlyMore(attempts, SERVERS * first, SERVERS * udploop + curserver, SERVERS * udploop + curserver);
      var ok := Attempt(SERVERS * udploop + curserver);
      if !ok { return false, true; }
      sent := Maybe();
      if sent {
        tcpstate := 0;
      } else {
        s1 := 0;
      }
      return sent, false;
    }

    method FirstUdp() returns (r: int)
      requires Base() && packet == None && udploop == first && attempts == []
      modifies this`query, this`s1, this`packet, this`curserver, this`udploop, this`tcpstate, this`attempts, this`local
      ensures r == 0 ==> Renumbered(query, old(query))
      ensures old(attempts) <= attempts
      ensures Result(r) && OnByUdp(r, SERVERS * first)
    {
      hide Covers, Written, Renumbered, Waiting;
      curserver := 0;
      CoversNothing(attempts, servers, SERVERS * first);
      r := ThisUdp();
    }

    method AfterUdp() returns (r: int)
      requires Waiting() && tcpstate == 0
      modifies this`query, this`s1, this`packet, this`curserver, this`udploop, this`tcpstate, this`attempts, this`local
      ensures r == 0 ==> Renumbered(query, old(query))
      ensures old(attempts) <= attempts
      ensures Result(r) && OnByUdp(r, old(Place()) + 1)
    {
      hide Orderly, Covers, Written, Renumbered;
      curserver := curserver + 1;
      r := ThisUdp();
    }

    // ---------- TCP ----------

    /** A connection was established at once: writing goes on from where it was on the connection before. */
    ghost predicate Begun(from: nat)
      reads this
    {
      tcpstate == 2 && pos == from && start == from && written == []
    }

    method ThisTcp() returns (r: int)
      requires NextTcp()
      modifies this`query, this`s1, this`packet, this`curserver, this`tcpstate, this`attempts, this`local, this`start,
        this`written, this`pos
      ensures r == 0 ==> Renumbered(query, old(query))
      ensures old(attempts) <= attempts
      ensures Result(r) && OnByTcp(r, FIRST_TCP + old(curserver), old(pos))
    {
      hide Orderly, Covers, Written, Renumbered;
      SameNumber(query);
      s1 := 0;
      packet := None;
      while curserver < SERVERS
        invariant curserver >= old(curserver)
        invariant NextTcp() && s1 == 0 && packet == None && old(attempts) <= attempts && Renumbered(query, old(query)) && pos == old(pos)
        decreases SERVERS - curserver
      {
        CoversMore(attempts, servers, FIRST_TCP, ROUNDS, curserver);
        if servers[curserver] != NO_IP {
          ghost var before := query;
          var begun, broken := TryTcp();
          OrderlyUpTo(attempts, SERVERS * first, FIRST_TCP + curserver + 1, LAST);
          if broken { return -1; }
          RenumberedTwice(query, before, old(query));
          if begun { return 0; }
        } else {
          OrderlyUpTo(attempts, SERVERS * first, FIRST_TCP + curserver, FIRST_TCP + curserver + 1);
        }
        curserver := curserver + 1;
      }
      Free();
      return -1;
    }

    /** Connects to the current server, at once or later; broken when no socket can be had. */
    method TryTcp() returns (begun: bool, broken: bool)
      requires NextTcp() && curserver < SERVERS && packet == None
      modifies this`query, this`s1, this`packet, this`tcpstate, this`attempts, this`local, this`start, this`written,
        this`pos
      ensures !broken ==> Renumbered(query, old(query)) && |query| == old(|query|)
      ensures old(attempts) <= attempts
      ensures Orderly(attempts, SERVERS * first, FIRST_TCP + curserver + 1)
      ensures Covers(attempts, servers, FIRST_TCP, FIRST_TCP + curserver + 1)
      ensures broken ==> HoldsNothing() && local
      ensures !broken && begun ==> Waiting() && (tcpstate == 1 || Begun(old(pos)))
      ensures !broken && !begun ==> s1 == 0 && packet == None && pos == old(pos) && !local
    {
      hide Orderly, Covers, Written, Renumbered;
      CoversMore(attempts, servers, FIRST_TCP, ROUNDS, curserver);
      OrderlyMore(attempts, SERVERS * first, FIRST_TCP + curserver, FIRST_TCP + curserver);
      var ok := Attempt(FIRST_TCP + curserver);
      if !ok { return false, true; }
      NothingWritten(query, pos);
      var connected := Maybe();
      if connected {
        tcpstate, start, written := 2, pos, [];
        return true, false;
      }
      begun := Maybe();
      if begun {
        tcpstate := 1;
      } else {
        s1 := 0;
      }
      return begun, false;
    }

    method FirstTcp() returns (r: int)
      requires Base() && Orderly(attempts, SERVERS * first, FIRST_TCP)
      modifies this`query, this`s1, this`packet, this`curserver, this`tcpstate, this`attempts, this`local, this`start,
        this`written, this`pos
      ensures r == 0 ==> Renumbered(query, old(query))
      ensures old(attempts) <= attempts
      ensures Result(r) && OnByTcp(r, FIRST_TCP, old(pos))
    {
      hide Orderly, Covers, Written, Renumbered, Waiting;
      curserver := 0;
      CoversNothing(attempts, servers, FIRST_TCP);
      r := ThisTcp();
    }

    /** Once TCP has begun, the rest of the servers are tried by TCP too. */
    method AfterTcp() returns (r: int)
      requires Base() && curserver < SERVERS && Orderly(attempts, SERVERS * first, FIRST_TCP + curserver + 1)
      requires Covers(attempts, servers, FIRST_TCP, FIRST_TCP + curserver + 1)
      modifies this`query, this`s1, this`packet, this`curserver, this`tcpstate, this`attempts, this`local, this`start,
        this`written, this`pos
      ensures r == 0 ==> Renumbered(query, old(query))
      ensures old(attempts) <= attempts
      ensures Result(r) && OnByTcp(r, FIRST_TCP + old(curserver) + 1, old(pos))
    {
      hide Orderly, Covers, Written, Renumbered, Waiting;
      curserver := curserver + 1;
      r := ThisTcp();
    }

    // ---------- beginning ----------

    /** Sends the question, by TCP when it does not fit into a UDP packet. */
    method Start(list: seq<Ip>, recursive: bool, q: seq<byte>, t: seq<byte>) returns (r: int)
      requires |list| == SERVERS && |t| == 2 && |q| + 18 < WORD
      modifies this
      ensures Result(r) && r != 1
      ensures first == (if recursive then 1 else 0) && servers == list && qtype == t
      ensures r == 0 ==> Renumbered(query, QueryFor(q, t, recursive)) && QueryName(query) == q
      ensures r == 0 ==> (tcpstate == 0 <==> |q| + 16 <= 512)
      ensures r == -1 ==> local || if |q| + 16 > 512 then TcpExhausted() else UdpExhausted()
    {
      Free();
      OrderlyNone(SERVERS * if recursive then 1 else 0);
      first, attempts, local := if recursive then 1 else 0, [], false;
      var room := Maybe();
      servers, qtype, udploop := list, t, if recursive then 1 else 0;
      if !room {
        local := true;
        return -1;
      }
      query := QueryFor(q, t, recursive);
      QueryForName(q, t, recursive);
      hide QueryFor, Renumbered, QueryName, Orderly, Covers, Written;
      if |q| + 16 > 512 {
        r := FirstTcp();
      } else {
        r := FirstUdp();
      }
      if r == 0 { SameName(query, QueryFor(q, t, recursive)); }
    }

    // ---------- looking what has happened ----------

    /** Looks whether anything has happened: 0 when the transmission goes on, 1 when the packet is there, -1 when
        every server has failed, or there are no sockets or no memory. */
    method Get(event: Event) returns (r: int)
      requires Waiting() && Possible(event)
      modifies this
      ensures r == 0 ==> Renumbered(query, old(query))
      ensures Result(r) && first == old(first) && old(attempts) <= attempts && qtype == old(qtype)
      ensures r == 1 ==> Acceptable(packet.value, old(query), qtype)
      ensures match event
              case Early => r == 0 && unchanged(this)
              case Late => if old(tcpstate) == 0 then OnByUdp(r, old(Place()) + 1) else OnByTcp(r, old(Place()) + 1, old(pos))
              case Came(got, refused) =>
                if old(tcpstate) == 0 then UdpRead(got, refused, r)
                else if old(tcpstate) == 5 then TcpRead(got, r)
                else LengthRead(got, r)
              case Opened(ok) => Connects(ok, r)
              case Wrote(n) => WroteMore(n, r)
      ensures old(tcpstate) != 0 && r == 0 ==> tcpstate != 0
    {
      hide Orderly, Covers, Written, Renumbered, Result, UdpRead, TcpRead, LengthRead, Connects, WroteMore, Irrelevant, Acceptable,
        OnByUdp, OnByTcp, Place;
      SameNumber(query);
      match event
      case Early =>
        StillOrderly();
        r := 0;
      case Late => r := TimeOver();
      case Opened(ok) => r := Connected(ok);
      case Wrote(n) => r := Write(n);
      case Came(got, refused) =>
        if tcpstate == 0 {
          r := GetUdp(got, refused);
        } else if tcpstate == 3 {
          r := ReadHigh(got);
        } else if tcpstate == 4 {
          r := ReadLow(got);
        } else {
          r := ReadPacket(got);
        }
    }

    /** The next server, when the current one has not answered in time. */
    method TimeOver() returns (r: int)
      requires Waiting()
      modifies this`query, this`s1, this`packet, this`curserver, this`udploop, this`tcpstate, this`attempts, this`local, this`start,
        this`written, this`pos
      ensures r == 0 ==> Renumbered(query, old(query))
      ensures Result(r) && old(attempts) <= attempts
      ensures r != 1 && if old(tcpstate) == 0 then OnByUdp(r, old(Place()) + 1) else OnByTcp(r, old(Place()) + 1, old(pos))
      ensures old(tcpstate) != 0 && r == 0 ==> tcpstate != 0
    {
      hide Orderly, Covers, Written, Renumbered, Result, UdpExhausted, TcpExhausted;
      if tcpstate == 0 { r := AfterUdp(); } else { r := AfterTcp(); }
    }

    lemma StillOrderly()
      requires Waiting()
      ensures Orderly(attempts, SERVERS * first, LAST) && Result(0)
      ensures tcpstate == 0 ==> Orderly(attempts, SERVERS * first, FIRST_TCP)
    {
    }

    method GetUdp(buf: seq<byte>, refused: bool) returns (r: int)
      requires Waiting() && tcpstate == 0 && |buf| <= 513
      modifies this`query, this`s1, this`packet, this`curserver, this`udploop, this`tcpstate, this`attempts,
        this`local, this`start, this`written, this`pos, this`packetlen
      ensures r == 0 ==> Renumbered(query, old(query))
      ensures Result(r) && old(attempts) <= attempts
      ensures r == 1 ==> Acceptable(packet.value, old(query), qtype)
      ensures UdpRead(buf, refused, r)
    {
      hide Orderly, Covers, Written, Renumbered, Irrelevant, WantsTcp, Failed;
      StillOrderly();
      SameNumber(query);
      if buf == [] {
        if refused && udploop == 2 { return 0; }
        r := AfterUdp();
        return;
      }
      if |buf| + 1 > 513 { return 0; }
      if Irrelevant(buf, query, qtype) { return 0; }
      if WantsTcp(buf) {
        r := FirstTcp();
        return;
      }
      if Failed(buf) {
        if udploop == 2 { return 0; }
        r := AfterUdp();
        return;
      }
      s1 := 0;
      packetlen := |buf|;
      var room := Maybe();
      if !room {
        Free();
        local := true;
        return -1;
      }
      packet := Some(buf);
      query := [];
      return 1;
    }

    method Connected(ok: bool) returns (r: int)
      requires Waiting() && tcpstate == 1
      modifies this`query, this`s1, this`packet, this`curserver, this`tcpstate, this`attempts, this`local, this`start,
        this`written, this`pos
      ensures r == 0 ==> Renumbered(query, old(query))
      ensures Result(r) && r != 1 && old(attempts) <= attempts && (r == 0 ==> tcpstate != 0)
      ensures Connects(ok, r)
    {
      hide Orderly, Covers, Written, Renumbered;
      StillOrderly();
      SameNumber(query);
      if !ok {
        r := AfterTcp();
        return;
      }
      NothingWritten(query, 0);
      pos, tcpstate, start, written := 0, 2, 0, [];
      return 0;
    }

    /** Writes more of the query. Once all is written the answer is awaited: the server has been sent exactly the
        query if and only if writing to it began at its first byte. */
    method Write(n: int) returns (r: int)
      requires Waiting() && tcpstate == 2
      modifies this`query, this`s1, this`packet, this`curserver, this`tcpstate, this`attempts, this`local, this`start,
        this`written, this`pos
      ensures r == 0 ==> Renumbered(query, old(query))
      ensures Result(r) && r != 1 && old(attempts) <= attempts && (r == 0 ==> tcpstate != 0)
      ensures WroteMore(n, r)
    {
      hide Orderly, Covers, Written, Renumbered, Writes;
      StillOrderly();
      SameNumber(query);
      if n <= 0 || n > (|query| - pos) % WORD {
        r := AfterTcp();
        return;
      }
      ghost var piece := SomePiece(n);
      WriteMore(query, start, pos, written, n, piece);
      pos := (pos + n) % WORD;
      written := written + piece;
      if pos == |query| {
        WrittenWhole(query, start, written);
        tcpstate := 3;
      }
      return 0;
    }

    /** What a write of `n` bytes takes from the query, or from what stands behind it. */
    ghost method SomePiece(n: nat) returns (piece: seq<byte>)
      requires |query| < WORD && 0 < n <= (|query| - pos) % WORD
      ensures Writes(query, pos, n, piece)
    {
      piece := *;
      if |piece| != n { piece := seq(n, _ => 0); }
      if pos + n <= |query| { piece := query[pos..pos + n]; }
    }

    method ReadHigh(ch: seq<byte>) returns (r: int)
      requires Waiting() && tcpstate == 3 && |ch| <= 1
      modifies this`query, this`s1, this`packet, this`curserver, this`tcpstate, this`attempts, this`local, this`start,
        this`written, this`pos, this`packetlen
      ensures r == 0 ==> Renumbered(query, old(query))
      ensures Result(r) && r != 1 && old(attempts) <= attempts && (r == 0 ==> tcpstate != 0)
      ensures LengthRead(ch, r)
    {
      hide Orderly, Covers, Written, Renumbered;
      StillOrderly();
      SameNumber(query);
      if ch == [] {
        r := AfterTcp();
        return;
      }
      packetlen := ch[0];
      tcpstate := 4;
      return 0;
    }

    method ReadLow(ch: seq<byte>) returns (r: int)
      requires Waiting() && tcpstate == 4 && |ch| <= 1
      modifies this`query, this`s1, this`packet, this`curserver, this`tcpstate, this`attempts, this`local, this`start,
        this`written, this`pos, this`packetlen
      ensures r == 0 ==> Renumbered(query, old(query))
      ensures Result(r) && r != 1 && old(attempts) <= attempts && (r == 0 ==> tcpstate != 0)
      ensures LengthRead(ch, r)
    {
      hide Orderly, Covers, Written, Renumbered;
      StillOrderly();
      SameNumber(query);
      if ch == [] {
        r := AfterTcp();
        return;
      }
      packetlen := packetlen * 256 + ch[0];
      tcpstate := 5;
      pos := 0;
      var room := Maybe();
      if !room {
        Free();
        local := true;
        return -1;
      }
      packet := Some([]);
      return 0;
    }

    /** More of the packet; when it is complete it is judged like one that came by UDP. */
    method ReadPacket(more: seq<byte>) returns (r: int)
      requires Waiting() && tcpstate == 5 && |more| <= packetlen - pos
      modifies this`query, this`s1, this`packet, this`curserver, this`tcpstate, this`attempts, this`local, this`start,
        this`written, this`pos
      ensures r == 0 ==> Renumbered(query, old(query))
      ensures Result(r) && old(attempts) <= attempts && (r == 0 ==> tcpstate != 0)
      ensures r == 1 ==> Acceptable(packet.value, old(query), qtype)
      ensures TcpRead(more, r)
    {
      hide Orderly, Covers, Written, Renumbered, Irrelevant, WantsTcp, Failed;
      StillOrderly();
      SameNumber(query);
      if more == [] {
        r := AfterTcp();
        return;
      }
      packet := Some(packet.value + more);
      pos := pos + |more|;
      if pos < packetlen { return 0; }
      s1 := 0;
      if Irrelevant(packet.value, query, qtype) || WantsTcp(packet.value) || Failed(packet.value) {
        r := AfterTcp();
        return;
      }
      query := [];
      return 1;
    }
  }
}
