/** The tables of the tracer: which question has to be put to which address. They are a join of three other tables,
    kept up to date as these grow. */
module Trace {
  import opened Bytes
  import opened Domain

  type Dn = seq<byte>

  const A: seq<byte> := [0, 1]

  datatype Question = Question(owner: Dn, qtype: seq<byte>)
  datatype Server = Server(owner: Dn, ns: Dn)
  datatype Address = Address(owner: Dn, ip: Ip)
  datatype Task = Task(owner: Dn, qtype: seq<byte>, control: Dn, ip: Ip)

  // ---------- entries that differ only in letter case ----------

  predicate SameQuestion(a: Question, b: Question) {
    Same(a.owner, b.owner) && a.qtype == b.qtype
  }

  predicate SameServer(a: Server, b: Server) {
    Same(a.owner, b.owner) && Same(a.ns, b.ns)
  }

  predicate SameAddress(a: Address, b: Address) {
    Same(a.owner, b.owner) && a.ip == b.ip
  }

  predicate SameTask(a: Task, b: Task) {
    Same(a.owner, b.owner) && Same(a.control, b.control) && a.qtype == b.qtype && a.ip == b.ip
  }

  // ---------- the join ----------

  /** The question belongs to the server's zone, and the address to the server. The root is not asked about. */
  predicate Matches(q: Question, n: Server, a: Address)
    requires WellFormed(q.owner)
  {
    q.owner != [0] && IsSuffix(q.owner, n.owner) && Same(n.ns, a.owner)
  }

  function TaskOf(q: Question, n: Server, a: Address): (t: Task) {
    Task(q.owner, q.qtype, n.owner, a.ip)
  }

  ghost predicate QuestionsOk(qs: seq<Question>) {
    forall i :: 0 <= i < |qs| ==> WellFormed(qs[i].owner)
  }

  ghost predicate ServersOk(ns: seq<Server>) {
    forall i :: 0 <= i < |ns| ==> WellFormed(ns[i].owner) && WellFormed(ns[i].ns)
  }

  ghost predicate AddressesOk(xs: seq<Address>) {
    forall i :: 0 <= i < |xs| ==> WellFormed(xs[i].owner)
  }

  ghost predicate Has(qt: seq<Task>, t: Task) {
    exists k :: 0 <= k < |qt| && SameTask(qt[k], t)
  }

  /** Every match of a question, a server and an address has its task. */
  ghost predicate Complete(qs: seq<Question>, ns: seq<Server>, xs: seq<Address>, qt: seq<Task>)
    requires QuestionsOk(qs)
  {
    forall i, j, k :: 0 <= i < |qs| && 0 <= j < |ns| && 0 <= k < |xs| ==> Covered(qs[i], ns[j], xs[k], qt)
  }

  ghost predicate Covered(q: Question, n: Server, a: Address, qt: seq<Task>)
    requires WellFormed(q.owner)
  {
    Matches(q, n, a) ==> Has(qt, TaskOf(q, n, a))
  }

  /** The task comes from a match. */
  ghost predicate FromJoin(qs: seq<Question>, ns: seq<Server>, xs: seq<Address>, t: Task)
    requires QuestionsOk(qs)
  {
    exists i, j, k :: 0 <= i < |qs| && 0 <= j < |ns| && 0 <= k < |xs| && Makes(qs[i], ns[j], xs[k], t)
  }

  predicate Makes(q: Question, n: Server, a: Address, t: Task)
    requires WellFormed(q.owner)
  {
    Matches(q, n, a) && t == TaskOf(q, n, a)
  }

  ghost predicate Sound(qs: seq<Question>, ns: seq<Server>, xs: seq<Address>, qt: seq<Task>)
    requires QuestionsOk(qs)
  {
    forall m :: 0 <= m < |qt| ==> FromJoin(qs, ns, xs, qt[m])
  }

  ghost predicate NoneTwice(qt: seq<Task>) {
    forall k, m :: 0 <= k < m < |qt| ==> !SameTask(qt[k], qt[m])
  }

  /** The table is the join of the three others, up to letter case and without repetition. */
  ghost predicate IsJoin(qs: seq<Question>, ns: seq<Server>, xs: seq<Address>, qt: seq<Task>) {
    && QuestionsOk(qs) && ServersOk(ns) && AddressesOk(xs)
    && Complete(qs, ns, xs, qt) && Sound(qs, ns, xs, qt) && NoneTwice(qt)
  }

  // ---------- entering what is new ----------

  ghost predicate KnowsQuestion(qs: seq<Question>, q: Question) {
    exists i :: 0 <= i < |qs| && SameQuestion(qs[i], q)
  }

  ghost predicate KnowsServer(ns: seq<Server>, n: Server) {
    exists j :: 0 <= j < |ns| && SameServer(ns[j], n)
  }

  ghost predicate KnowsAddress(xs: seq<Address>, a: Address) {
    exists k :: 0 <= k < |xs| && SameAddress(xs[k], a)
  }

  /** The table with the question entered behind the others, unless it is known. */
  ghost function WithQuestion(qs: seq<Question>, q: Question): (r: seq<Question>)
    ensures qs <= r && KnowsQuestion(r, q)
  {
    if KnowsQuestion(qs, q) then qs
    else
      assert (qs + [q])[|qs|] == q && SameQuestion(q, q);
      qs + [q]
  }

  /** The address of every server is asked for. */
  ghost predicate AllAsked(qs: seq<Question>, ns: seq<Server>) {
    forall j :: 0 <= j < |ns| ==> KnowsQuestion(qs, Question(ns[j].ns, A))
  }

  lemma KnowsMore(qs: seq<Question>, more: seq<Question>, q: Question)
    requires KnowsQuestion(qs, q) && qs <= more
    ensures KnowsQuestion(more, q)
  {
    var i :| 0 <= i < |qs| && SameQuestion(qs[i], q);
    assert more[i] == qs[i];
  }

  lemma AllAskedMore(qs: seq<Question>, more: seq<Question>, ns: seq<Server>)
    requires AllAsked(qs, ns) && qs <= more
    ensures AllAsked(more, ns)
  {
    hide KnowsQuestion;
    forall j | 0 <= j < |ns|
      ensures KnowsQuestion(more, Question(ns[j].ns, A))
    {
      KnowsMore(qs, more, Question(ns[j].ns, A));
    }
  }

  // ---------- growing tables ----------

  lemma HasMore(qt: seq<Task>, more: seq<Task>, t: Task)
    requires Has(qt, t) && qt <= more
    ensures Has(more, t)
  {
    var k :| 0 <= k < |qt| && SameTask(qt[k], t);
    assert more[k] == qt[k];
  }

  lemma CoveredMore(q: Question, n: Server, a: Address, qt: seq<Task>, more: seq<Task>)
    requires WellFormed(q.owner) && Covered(q, n, a, qt) && qt <= more
    ensures Covered(q, n, a, more)
  {
    hide Matches, SameTask;
    if Matches(q, n, a) { HasMore(qt, more, TaskOf(q, n, a)); }
  }

  lemma CompleteMore(qs: seq<Question>, ns: seq<Server>, xs: seq<Address>, qt: seq<Task>, more: seq<Task>)
    requires QuestionsOk(qs) && Complete(qs, ns, xs, qt) && qt <= more
    ensures Complete(qs, ns, xs, more)
  {
    hide Covered;
    forall i, j, k | 0 <= i < |qs| && 0 <= j < |ns| && 0 <= k < |xs|
      ensures Covered(qs[i], ns[j], xs[k], more)
    {
      CoveredMore(qs[i], ns[j], xs[k], qt, more);
    }
  }

  lemma CompleteQuestions(qs: seq<Question>, q: Question, ns: seq<Server>, xs: seq<Address>, qt: seq<Task>)
    requires QuestionsOk(qs) && WellFormed(q.owner) && Complete(qs, ns, xs, qt) && Complete([q], ns, xs, qt)
    ensures QuestionsOk(qs + [q]) && Complete(qs + [q], ns, xs, qt)
  {
    hide Covered, WellFormed;
    var all, one := qs + [q], [q];
    forall i, j, k | 0 <= i < |all| && 0 <= j < |ns| && 0 <= k < |xs|
      ensures Covered(all[i], ns[j], xs[k], qt)
    {
      if i == |qs| { assert Covered(one[0], ns[j], xs[k], qt); }
    }
  }

  lemma CompleteServers(qs: seq<Question>, ns: seq<Server>, n: Server, xs: seq<Address>, qt: seq<Task>)
    requires QuestionsOk(qs) && Complete(qs, ns, xs, qt) && Complete(qs, [n], xs, qt)
    ensures Complete(qs, ns + [n], xs, qt)
  {
    hide Covered, WellFormed;
    var all, one := ns + [n], [n];
    forall i, j, k | 0 <= i < |qs| && 0 <= j < |all| && 0 <= k < |xs|
      ensures Covered(qs[i], all[j], xs[k], qt)
    {
      if j == |ns| { assert Covered(qs[i], one[0], xs[k], qt); }
    }
  }

  lemma CompleteAddresses(qs: seq<Question>, ns: seq<Server>, xs: seq<Address>, a: Address, qt: seq<Task>)
    requires QuestionsOk(qs) && Complete(qs, ns, xs, qt) && Complete(qs, ns, [a], qt)
    ensures Complete(qs, ns, xs + [a], qt)
  {
    hide Covered, WellFormed;
    var all, one := xs + [a], [a];
    forall i, j, k | 0 <= i < |qs| && 0 <= j < |ns| && 0 <= k < |all|
      ensures Covered(qs[i], ns[j], all[k], qt)
    {
      if k == |xs| { assert Covered(qs[i], ns[j], one[0], qt); }
    }
  }

  /** Larger tables explain the same tasks. */
  lemma SoundMore(qs: seq<Question>, ns: seq<Server>, xs: seq<Address>, qt: seq<Task>,
                  qs': seq<Question>, ns': seq<Server>, xs': seq<Address>)
    requires QuestionsOk(qs) && QuestionsOk(qs') && Sound(qs, ns, xs, qt) && qs <= qs' && ns <= ns' && xs <= xs'
    ensures Sound(qs', ns', xs', qt)
  {
    hide Makes, WellFormed;
    forall m | 0 <= m < |qt|
      ensures FromJoin(qs', ns', xs', qt[m])
    {
      var i, j, k :| 0 <= i < |qs| && 0 <= j < |ns| && 0 <= k < |xs| && Makes(qs[i], ns[j], xs[k], qt[m]);
      assert Makes(qs'[i], ns'[j], xs'[k], qt[m]);
    }
  }

  /** What adding a task may change. */
  ghost predicate Extends(qt: seq<Task>, more: seq<Task>, t: Task) {
    more == qt || more == qt + [t]
  }

  lemma SoundExtended(qs: seq<Question>, ns: seq<Server>, xs: seq<Address>, qt: seq<Task>, more: seq<Task>, t: Task)
    requires QuestionsOk(qs) && Sound(qs, ns, xs, qt) && Extends(qt, more, t) && (more == qt || FromJoin(qs, ns, xs, t))
    ensures Sound(qs, ns, xs, more)
  {
    hide FromJoin;
  }

  // ---------- the tables ----------

  class Tables {
    var query: seq<Question>
    var ns: seq<Server>
    var address: seq<Address>
    var qt: seq<Task>

    ghost predicate Valid()
      reads this
    {
      IsJoin(query, ns, address, qt) && AllAsked(query, ns)
    }

    constructor ()
      ensures Valid() && query == [] && ns == [] && address == []
    {
      query, ns, address, qt := [], [], [], [];
    }

    /** Adds a task unless it is there or asks about the root. */
    method QtAdd(q: Dn, t: seq<byte>, control: Dn, ip: Ip)
      requires WellFormed(q) && NoneTwice(qt)
      modifies this`qt
      ensures NoneTwice(qt) && Extends(old(qt), qt, Task(q, t, control, ip))
      ensures if q == [0] then qt == old(qt) else Has(qt, Task(q, t, control, ip))
    {
      NotEmpty(q);
      if q[0] == 0 { return; }
      var x := Task(q, t, control, ip);
      hide WellFormed, SameTask;
      var i: nat := 0;
      while i < |qt|
        invariant i <= |qt| && qt == old(qt) && forall k :: 0 <= k < i ==> !SameTask(qt[k], x)
      {
        if SameTask(qt[i], x) { return; }
        i := i + 1;
      }
      qt := qt + [x];
      SameTaskReflexive(x);
      assert SameTask(qt[i], x);
    }

    /** What holds of the table of tasks while a new entry of another table is worked in. */
    ghost predicate Working()
      reads this
    {
      && QuestionsOk(query) && ServersOk(ns) && AddressesOk(address)
      && Sound(query, ns, address, qt) && NoneTwice(qt)
    }

    /** Adds the task of one match. */
    method AddMatch(i: nat, j: nat, k: nat)
      requires Working() && i < |query| && j < |ns| && k < |address|
      requires IsSuffix(query[i].owner, ns[j].owner) && Same(ns[j].ns, address[k].owner)
      modifies this`qt
      ensures Working() && old(qt) <= qt && Covered(query[i], ns[j], address[k], qt)
    {
      var q, n, a := query[i], ns[j], address[k];
      hide WellFormed, IsSuffix, Same, SameTask, Sound, Has, NoneTwice, FromJoin, Covered;
      ghost var before := qt;
      QtAdd(q.owner, q.qtype, n.owner, a.ip);
      if q.owner != [0] { MatchIsFromJoin(query, ns, address, i, j, k); }
      SoundExtended(query, ns, address, before, qt, TaskOf(q, n, a));
      CoveredBy(q, n, a, qt);
    }

    /** Works in all addresses for one question and one server of a zone that it is in. */
    method AddAddresses(i: nat, j: nat)
      requires Working() && i < |query| && j < |ns| && IsSuffix(query[i].owner, ns[j].owner)
      modifies this`qt
      ensures Working() && old(qt) <= qt && Complete([query[i]], [ns[j]], address, qt)
    {
      hide IsSuffix, Same, Sound, NoneTwice, Covered, SameTask, WellFormed;
      var k: nat := 0;
      ghost var q, n := [query[i]], [ns[j]];
      while k < |address|
        invariant k <= |address| && Working() && old(qt) <= qt && Complete(q, n, address[..k], qt)
      {
        ghost var before := qt;
        if Same(ns[j].ns, address[k].owner) {
          AddMatch(i, j, k);
        } else {
          NoMatch(query[i], ns[j], address[k], qt);
        }
        CompleteMore(q, n, address[..k], before, qt);
        CompleteOne(query[i], ns[j], address[k], qt);
        CompleteAddresses(q, n, address[..k], address[k], qt);
        assert address[..k + 1] == address[..k] + [address[k]];
        k := k + 1;
      }
      assert address[..k] == address;
    }

    /** Works in all questions for one server and one of its addresses. */
    method AddQuestions(j: nat, k: nat)
      requires Working() && j < |ns| && k < |address| && Same(ns[j].ns, address[k].owner)
      modifies this`qt
      ensures Working() && old(qt) <= qt && Complete(query, [ns[j]], [address[k]], qt)
    {
      hide IsSuffix, Same, Sound, NoneTwice, Covered, SameTask, WellFormed;
      var i: nat := 0;
      ghost var n, a := [ns[j]], [address[k]];
      while i < |query|
        invariant i <= |query| && Working() && old(qt) <= qt
        invariant QuestionsOk(query[..i]) && Complete(query[..i], n, a, qt)
      {
        ghost var before := qt;
        if IsSuffix(query[i].owner, ns[j].owner) {
          AddMatch(i, j, k);
        } else {
          NoMatch(query[i], ns[j], address[k], qt);
        }
        CompleteMore(query[..i], n, a, before, qt);
        CompleteOne(query[i], ns[j], address[k], qt);
        CompleteQuestions(query[..i], query[i], n, a, qt);
        assert query[..i + 1] == query[..i] + [query[i]];
        i := i + 1;
      }
      assert query[..i] == query;
    }

    method QueryAdd(owner: Dn, t: seq<byte>)
      requires Valid() && WellFormed(owner)
      modifies this`query, this`qt
      ensures Valid() && old(qt) <= qt
      ensures query == WithQuestion(old(query), Question(owner, t))
      ensures KnowsQuestion(old(query), Question(owner, t)) ==> qt == old(qt)
    {
      var x := Question(owner, t);
      hide IsSuffix, Sound, NoneTwice, Covered, SameTask, WellFormed, SameQuestion, Complete, AllAsked;
      var i: nat := 0;
      while i < |query|
        modifies {}
        invariant i <= |query| && forall k :: 0 <= k < i ==> !SameQuestion(query[k], x)
      {
        if SameQuestion(query[i], x) { return; }
        i := i + 1;
      }
      AppendQuestion(x);
    }

    method AppendQuestion(x: Question)
      requires Valid() && WellFormed(x.owner)
      modifies this`query, this`qt
      ensures Valid() && old(qt) <= qt && query == old(query) + [x]
    {
      hide IsSuffix, Sound, NoneTwice, Covered, SameTask, WellFormed, SameQuestion, Complete, AllAsked;
      ghost var qs, tasks := query, qt;
      query := query + [x];
      AllAskedMore(qs, query, ns);
      assert query[|qs|] == x;
      SoundMore(qs, ns, address, qt, query, ns, address);
      var i: nat := 0;
      CompleteNone(x, address, qt);
      while i < |ns|
        modifies this`qt
        invariant i <= |ns| && Working() && tasks <= qt && Complete([x], ns[..i], address, qt)
      {
        ghost var before := qt;
        if IsSuffix(x.owner, ns[i].owner) {
          AddAddresses(|query| - 1, i);
        } else {
          NoMatches(x, ns[i], address, qt);
        }
        CompleteMore([x], ns[..i], address, before, qt);
        CompleteServers([x], ns[..i], ns[i], address, qt);
        assert ns[..i + 1] == ns[..i] + [ns[i]];
        i := i + 1;
      }
      assert ns[..i] == ns;
      CompleteMore(qs, ns, address, tasks, qt);
      CompleteQuestions(qs, x, ns, address, qt);
    }

    /** A server of a zone; its address is asked for first. */
    method NsAdd(owner: Dn, server: Dn)
      requires Valid() && WellFormed(owner) && WellFormed(server)
      modifies this`query, this`ns, this`qt
      ensures Valid() && old(qt) <= qt
      ensures if KnowsServer(old(ns), Server(owner, server)) then ns == old(ns) && query == old(query) && qt == old(qt)
              else ns == old(ns) + [Server(owner, server)] && query == WithQuestion(old(query), Question(server, A))
    {
      var x := Server(owner, server);
      hide IsSuffix, Sound, NoneTwice, Covered, SameTask, WellFormed, SameServer, SameQuestion, Complete, AllAsked;
      var i: nat := 0;
      while i < |ns|
        modifies {}
        invariant i <= |ns| && forall k :: 0 <= k < i ==> !SameServer(ns[k], x)
      {
        if SameServer(ns[i], x) { return; }
        i := i + 1;
      }
      QueryAdd(server, A);
      AppendServer(x);
    }

    method AppendServer(x: Server)
      requires Valid() && WellFormed(x.owner) && WellFormed(x.ns) && KnowsQuestion(query, Question(x.ns, A))
      modifies this`ns, this`qt
      ensures Valid() && old(qt) <= qt && ns == old(ns) + [x]
    {
      hide IsSuffix, Sound, NoneTwice, Covered, SameTask, WellFormed, SameServer, Complete, KnowsQuestion;
      ghost var servers, tasks := ns, qt;
      ns := ns + [x];
      assert ns[|servers|] == x;
      SoundMore(query, servers, address, qt, query, ns, address);
      var i: nat := 0;
      CompleteEmpty([x], address, qt);
      while i < |query|
        modifies this`qt
        invariant i <= |query| && Working() && tasks <= qt
        invariant QuestionsOk(query[..i]) && Complete(query[..i], [x], address, qt)
      {
        ghost var before := qt;
        if IsSuffix(query[i].owner, x.owner) {
          AddAddresses(i, |ns| - 1);
        } else {
          NoMatches(query[i], x, address, qt);
        }
        CompleteMore(query[..i], [x], address, before, qt);
        CompleteQuestions(query[..i], query[i], [x], address, qt);
        assert query[..i + 1] == query[..i] + [query[i]];
        i := i + 1;
      }
      assert query[..i] == query;
      CompleteMore(query, servers, address, tasks, qt);
      CompleteServers(query, servers, x, address, qt);
    }

    method AddressAdd(owner: Dn, ip: Ip)
      requires Valid() && WellFormed(owner)
      modifies this`address, this`qt
      ensures Valid() && old(qt) <= qt
      ensures if KnowsAddress(old(address), Address(owner, ip)) then address == old(address) && qt == old(qt)
              else address == old(address) + [Address(owner, ip)]
    {
      var x := Address(owner, ip);
      hide IsSuffix, Sound, NoneTwice, Covered, SameTask, WellFormed, SameAddress, Complete, Same;
      var i: nat := 0;
      while i < |address|
        modifies {}
        invariant i <= |address| && forall k :: 0 <= k < i ==> !SameAddress(address[k], x)
      {
        if SameAddress(address[i], x) { return; }
        i := i + 1;
      }
      AppendAddress(x);
    }

    method AppendAddress(x: Address)
      requires Valid() && WellFormed(x.owner)
      modifies this`address, this`qt
      ensures Valid() && old(qt) <= qt && address == old(address) + [x]
    {
      hide IsSuffix, Sound, NoneTwice, Covered, SameTask, WellFormed, SameAddress, Complete, Same, AllAsked;
      ghost var xs, tasks := address, qt;
      address := address + [x];
      assert address[|xs|] == x;
      SoundMore(query, ns, xs, qt, query, ns, address);
      var i: nat := 0;
      CompleteNoServers(query, [x], qt);
      while i < |ns|
        modifies this`qt
        invariant i <= |ns| && Working() && tasks <= qt && Complete(query, ns[..i], [x], qt)
      {
        ghost var before := qt;
        if Same(ns[i].ns, x.owner) {
          AddQuestions(i, |address| - 1);
        } else {
          NotItsAddress(query, ns[i], x, qt);
        }
        CompleteMore(query, ns[..i], [x], before, qt);
        CompleteServers(query, ns[..i], ns[i], [x], qt);
        assert ns[..i + 1] == ns[..i] + [ns[i]];
        i := i + 1;
      }
      assert ns[..i] == ns;
      CompleteMore(query, ns, xs, tasks, qt);
      CompleteAddresses(query, ns, xs, x, qt);
    }
  }

  lemma MatchIsFromJoin(qs: seq<Question>, ns: seq<Server>, xs: seq<Address>, i: nat, j: nat, k: nat)
    requires QuestionsOk(qs) && i < |qs| && j < |ns| && k < |xs| && Matches(qs[i], ns[j], xs[k])
    ensures FromJoin(qs, ns, xs, TaskOf(qs[i], ns[j], xs[k]))
  {
    assert Makes(qs[i], ns[j], xs[k], TaskOf(qs[i], ns[j], xs[k]));
    hide Makes;
  }

  lemma CoveredBy(q: Question, n: Server, a: Address, qt: seq<Task>)
    requires WellFormed(q.owner) && (q.owner == [0] || Has(qt, TaskOf(q, n, a)))
    ensures Covered(q, n, a, qt)
  {
    hide Has;
  }

  lemma NoMatch(q: Question, n: Server, a: Address, qt: seq<Task>)
    requires WellFormed(q.owner) && (!IsSuffix(q.owner, n.owner) || !Same(n.ns, a.owner))
    ensures Covered(q, n, a, qt)
  {
  }

  lemma NoMatches(q: Question, n: Server, xs: seq<Address>, qt: seq<Task>)
    requires WellFormed(q.owner) && !IsSuffix(q.owner, n.owner)
    ensures Complete([q], [n], xs, qt)
  {
  }

  lemma NotItsAddress(qs: seq<Question>, n: Server, a: Address, qt: seq<Task>)
    requires QuestionsOk(qs) && !Same(n.ns, a.owner)
    ensures Complete(qs, [n], [a], qt)
  {
  }

  lemma CompleteOne(q: Question, n: Server, a: Address, qt: seq<Task>)
    requires WellFormed(q.owner) && Covered(q, n, a, qt)
    ensures Complete([q], [n], [a], qt)
  {
    hide Covered;
  }

  lemma CompleteNone(q: Question, xs: seq<Address>, qt: seq<Task>)
    requires WellFormed(q.owner)
    ensures Complete([q], [], xs, qt)
  {
  }

  lemma CompleteEmpty(ns: seq<Server>, xs: seq<Address>, qt: seq<Task>)
    ensures Complete([], ns, xs, qt)
  {
  }

  lemma CompleteNoServers(qs: seq<Question>, xs: seq<Address>, qt: seq<Task>)
    requires QuestionsOk(qs)
    ensures Complete(qs, [], xs, qt)
  {
  }

  lemma SameTaskReflexive(t: Task)
    ensures SameTask(t, t)
  {
  }

  // ---------- what the tables mean ----------

  /** A task asks for the name and the type of one question, at an address that belongs to the name of a server of the
      zone: the three rows that it comes from. */
  lemma TaskIs(qs: seq<Question>, ns: seq<Server>, xs: seq<Address>, qt: seq<Task>, m: nat) returns (i: nat, j: nat, k: nat)
    requires IsJoin(qs, ns, xs, qt) && m < |qt|
    ensures i < |qs| && j < |ns| && k < |xs| && Same(ns[j].ns, xs[k].owner)
    ensures qt[m].owner == qs[i].owner && qt[m].qtype == qs[i].qtype
    ensures qt[m].control == ns[j].owner && qt[m].ip == xs[k].ip
  {
    hide WellFormed, IsSuffix, Same, Complete, NoneTwice;
    assert FromJoin(qs, ns, xs, qt[m]);
    i, j, k :| 0 <= i < |qs| && 0 <= j < |ns| && 0 <= k < |xs| && Makes(qs[i], ns[j], xs[k], qt[m]);
  }

  /** A task is only ever put to the servers of a zone that the question is in, and never about the root. */
  lemma TaskInZone(qs: seq<Question>, ns: seq<Server>, xs: seq<Address>, qt: seq<Task>, m: nat)
    requires IsJoin(qs, ns, xs, qt) && m < |qt|
    ensures WellFormed(qt[m].owner) && qt[m].owner != [0] && IsSuffix(qt[m].owner, qt[m].control)
  {
    assert FromJoin(qs, ns, xs, qt[m]);
    hide WellFormed, IsSuffix, Same, Complete, NoneTwice, Sound, IsJoin, QuestionsOk;
    FromJoinInZone(qs, ns, xs, qt[m]);
  }

  lemma FromJoinInZone(qs: seq<Question>, ns: seq<Server>, xs: seq<Address>, t: Task)
    requires QuestionsOk(qs) && FromJoin(qs, ns, xs, t)
    ensures WellFormed(t.owner) && t.owner != [0] && IsSuffix(t.owner, t.control)
  {
    hide WellFormed, IsSuffix, Same;
    var i, j, k :| 0 <= i < |qs| && 0 <= j < |ns| && 0 <= k < |xs| && Makes(qs[i], ns[j], xs[k], t);
  }

  lemma MatchUpToCase(q: Question, n: Server, a: Address, q': Question, n': Server, a': Address)
    requires WellFormed(q.owner) && WellFormed(q'.owner) && WellFormed(n.owner) && Matches(q, n, a)
    requires SameQuestion(q', q) && SameServer(n', n) && SameAddress(a', a)
    ensures Matches(q', n', a') && SameTask(TaskOf(q', n', a'), TaskOf(q, n, a))
  {
    SuffixUpToCase(q.owner, n.owner, q'.owner, n'.owner);
    SameFirst(q.owner, q'.owner);
    NotEmpty(q.owner);
    assert q'.owner != [0];
  }

  lemma QuestionAt(qs: seq<Question>, q: Question) returns (i: nat)
    requires KnowsQuestion(qs, q)
    ensures i < |qs| && SameQuestion(qs[i], q)
  {
    i :| 0 <= i < |qs| && SameQuestion(qs[i], q);
  }

  lemma ServerAt(ns: seq<Server>, n: Server) returns (j: nat)
    requires KnowsServer(ns, n)
    ensures j < |ns| && SameServer(ns[j], n)
  {
    j :| 0 <= j < |ns| && SameServer(ns[j], n);
  }

  lemma AddressAt(xs: seq<Address>, a: Address) returns (k: nat)
    requires KnowsAddress(xs, a)
    ensures k < |xs| && SameAddress(xs[k], a)
  {
    k :| 0 <= k < |xs| && SameAddress(xs[k], a);
  }

  lemma AllWellFormed(qs: seq<Question>, ns: seq<Server>, xs: seq<Address>, qt: seq<Task>, i: nat)
    requires IsJoin(qs, ns, xs, qt) && i < |qs|
    ensures WellFormed(qs[i].owner)
  {
  }

  lemma MatchHas(qs: seq<Question>, ns: seq<Server>, xs: seq<Address>, qt: seq<Task>, i: nat, j: nat, k: nat)
    requires IsJoin(qs, ns, xs, qt) && i < |qs| && j < |ns| && k < |xs|
    requires WellFormed(qs[i].owner) && Matches(qs[i], ns[j], xs[k])
    ensures Has(qt, TaskOf(qs[i], ns[j], xs[k]))
  {
    hide Matches, Has, Sound, NoneTwice;
    assert Covered(qs[i], ns[j], xs[k], qt);
  }

  /** Whatever was ever given to the tables, in whatever case, has its tasks, although only the first of several
      entries that differ in case is kept. */
  lemma JoinUpToCase(qs: seq<Question>, ns: seq<Server>, xs: seq<Address>, qt: seq<Task>, q: Question, n: Server, a: Address)
    requires IsJoin(qs, ns, xs, qt) && WellFormed(q.owner) && WellFormed(n.owner) && Matches(q, n, a)
    requires KnowsQuestion(qs, q) && KnowsServer(ns, n) && KnowsAddress(xs, a)
    ensures Has(qt, TaskOf(q, n, a))
  {
    hide *;
    var i := QuestionAt(qs, q);
    var j := ServerAt(ns, n);
    var k := AddressAt(xs, a);
    AllWellFormed(qs, ns, xs, qt, i);
    MatchUpToCase(q, n, a, qs[i], ns[j], xs[k]);
    MatchHas(qs, ns, xs, qt, i, j, k);
    HasUpToCase(qt, TaskOf(qs[i], ns[j], xs[k]), TaskOf(q, n, a));
  }

  lemma HasUpToCase(qt: seq<Task>, t: Task, u: Task)
    requires Has(qt, t) && SameTask(t, u)
    ensures Has(qt, u)
  {
    var k :| 0 <= k < |qt| && SameTask(qt[k], t);
    SameTaskTransitive(qt[k], t, u);
  }

  lemma SameTaskTransitive(t: Task, u: Task, v: Task)
    requires SameTask(t, u) && SameTask(u, v)
    ensures SameTask(t, v)
  {
  }
}
