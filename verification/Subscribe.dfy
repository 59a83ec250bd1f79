/** The subscriber list: one set of addresses, spread over 53 files by a hash. A program may be stopped between any
    two steps; a lock keeps programs from running at the same time. */
module Subscribe {
  import opened Bytes
  import opened Domain
  import DjbHash

  const FILES := 53
  const AT: byte := 64
  const NEWLINE: byte := 10
  const MAX_ADDRESS := 401

  // ---------- addresses ----------

  /** Position of the last `@`, or the length. */
  function LastAt(s: seq<byte>): (j: nat)
    ensures j <= |s|
    ensures j < |s| ==> s[j] == AT
    ensures AT !in s[(if j < |s| then j + 1 else 0)..]
  {
    if s == [] then 0
    else if s[|s| - 1] == AT then |s| - 1
    else
      var init := s[..|s| - 1];
      var j := LastAt(init);
      assert s == init + [s[|s| - 1]];
      if j == |init| then |s| else j
  }

  /** How an address is stored: behind a `T`, with its host in lower case. */
  function Normal(userhost: seq<byte>): (a: seq<byte>)
    ensures |a| == 1 + |userhost|
  {
    var s := [84] + userhost;
    var j := LastAt(s);
    if j == |s| then s else s[..j + 1] + Fold(s[j + 1..])
  }

  function FileOf(a: seq<byte>): (i: nat)
    ensures i < FILES
  {
    DjbHash.Of(a) % FILES
  }

  // ---------- files ----------

  function FirstZero(s: seq<byte>): (n: nat)
    ensures n <= |s| && (n < |s| ==> s[n] == 0)
    ensures 0 !in s[..n]
  {
    if s == [] || s[0] == 0 then 0
    else
      var n := FirstZero(s[1..]);
      assert s[..1 + n] == [s[0]] + s[1..][..n];
      1 + n
  }

  /** The lines of a file, each ended by a zero byte; what stands behind the last zero is not a line. */
  function Lines(s: seq<byte>): (ls: seq<seq<byte>>)
    ensures forall i :: 0 <= i < |ls| ==> 0 !in ls[i]
    decreases |s|
  {
    var n := FirstZero(s);
    if n == |s| then [] else [s[..n]] + Lines(s[n + 1..])
  }

  function Join(ls: seq<seq<byte>>): (s: seq<byte>) {
    if ls == [] then [] else ls[0] + [0] + Join(ls[1..])
  }

  ghost predicate NoZeros(ls: seq<seq<byte>>) {
    forall i :: 0 <= i < |ls| ==> 0 !in ls[i]
  }

  lemma {:induction false} FirstZeroAt(l: seq<byte>, rest: seq<byte>)
    requires 0 !in l
    ensures FirstZero(l + [0] + rest) == |l|
  {
    if l != [] {
      assert (l + [0] + rest)[1..] == l[1..] + [0] + rest;
      FirstZeroAt(l[1..], rest);
    }
  }

  /** Lines that are written are read back. */
  lemma {:induction false} LinesJoin(ls: seq<seq<byte>>)
    requires NoZeros(ls)
    ensures Lines(Join(ls)) == ls
  {
    if ls != [] {
      var l, rest := ls[0], Join(ls[1..]);
      LinesJoin(ls[1..]);
      FirstZeroAt(l, rest);
      var s := l + [0] + rest;
      assert s[..|l|] == l && s[|l| + 1..] == rest;
    }
  }

  lemma {:induction false} JoinAppend(ls: seq<seq<byte>>, l: seq<byte>)
    ensures Join(ls + [l]) == Join(ls) + l + [0]
  {
    if ls == [] {
      assert ls + [l] == [l];
      assert Join([l]) == l + [0] + Join([]);
    } else {
      JoinAppend(ls[1..], l);
      assert (ls + [l])[1..] == ls[1..] + [l];
      assert ls[0] + [0] + (Join(ls[1..]) + l + [0]) == ls[0] + [0] + Join(ls[1..]) + l + [0];
    }
  }

  /** Every line but those equal to `a`. */
  function Without(ls: seq<seq<byte>>, a: seq<byte>): (r: seq<seq<byte>>)
    ensures forall l :: l in r <==> l in ls && l != a
  {
    if ls == [] then [] else Without(ls[..|ls| - 1], a) + if ls[|ls| - 1] == a then [] else [ls[|ls| - 1]]
  }

  /** The lines after adding or removing `a`. */
  function Updated(ls: seq<seq<byte>>, a: seq<byte>, add: bool): (r: seq<seq<byte>>) {
    if !add then Without(ls, a) else if a in ls then ls else ls + [a]
  }

  // ---------- the set ----------

  type File = Option<seq<byte>>

  function LinesOf(f: File): (ls: seq<seq<byte>>)
    ensures NoZeros(ls)
  {
    match f case None => [] case Some(s) => Lines(s)
  }

  ghost predicate NoneTwice(ls: seq<seq<byte>>) {
    forall i, j :: 0 <= i < j < |ls| ==> ls[i] != ls[j]
  }

  /** What may be in file `i`. */
  predicate Storable(a: seq<byte>, i: nat) {
    && 0 < |a| <= MAX_ADDRESS && a[0] == 84 && Normal(a[1..]) == a && LastAt(a) < |a|
    && NEWLINE !in a && 0 !in a && FileOf(a) == i
  }

  ghost predicate AllStorable(ls: seq<seq<byte>>, i: nat) {
    forall k :: 0 <= k < |ls| ==> Storable(ls[k], i)
  }

  ghost predicate FileOk(f: File, i: nat) {
    NoneTwice(LinesOf(f)) && AllStorable(LinesOf(f), i)
  }

  ghost predicate FilesOk(files: seq<File>) {
    |files| == FILES && forall i :: 0 <= i < FILES ==> FileOk(files[i], i)
  }

  /** Whether the address is on the list, in whatever file. */
  ghost predicate OnList(files: seq<File>, a: seq<byte>) {
    exists i :: 0 <= i < |files| && a in LinesOf(files[i])
  }

  /** An address is only ever in the file of its hash. */
  lemma OnlyInItsFile(files: seq<File>, a: seq<byte>)
    requires FilesOk(files)
    ensures OnList(files, a) <==> a in LinesOf(files[FileOf(a)])
  {
    hide Storable, LinesOf;
    if OnList(files, a) {
      var i :| 0 <= i < |files| && a in LinesOf(files[i]);
      assert FileOk(files[i], i);
      var k :| 0 <= k < |LinesOf(files[i])| && LinesOf(files[i])[k] == a;
      StorableThere(a, i);
    }
  }

  lemma StorableThere(a: seq<byte>, i: nat)
    requires Storable(a, i)
    ensures i == FileOf(a)
  {
  }

  // ---------- updating ----------

  lemma {:induction false} WithoutNoneTwice(ls: seq<seq<byte>>, a: seq<byte>)
    requires NoneTwice(ls)
    ensures NoneTwice(Without(ls, a))
  {
    if ls != [] {
      var init, last := ls[..|ls| - 1], ls[|ls| - 1];
      WithoutNoneTwice(init, a);
      var w := Without(init, a);
      forall i | 0 <= i < |w|
        ensures w[i] != last
      {
        assert w[i] in w;
      }
    }
  }

  lemma UpdatedNoneTwice(ls: seq<seq<byte>>, a: seq<byte>, add: bool)
    requires NoneTwice(ls)
    ensures NoneTwice(Updated(ls, a, add))
  {
    if !add {
      WithoutNoneTwice(ls, a);
    }
  }

  lemma UpdatedStorable(ls: seq<seq<byte>>, a: seq<byte>, add: bool, i: nat)
    requires AllStorable(ls, i) && Storable(a, i)
    ensures AllStorable(Updated(ls, a, add), i)
  {
    hide Storable;
    var r := Updated(ls, a, add);
    forall k | 0 <= k < |r|
      ensures Storable(r[k], i)
    {
      assert r[k] in r;
      assert r[k] == a || r[k] in ls;
    }
  }

  lemma StorableNoZeros(ls: seq<seq<byte>>, i: nat)
    requires AllStorable(ls, i)
    ensures NoZeros(ls)
  {
  }

  /** The files after the file of the address has been replaced. */
  function Replaced(files: seq<File>, a: seq<byte>, add: bool): (r: seq<File>)
    requires |files| == FILES
    ensures |r| == FILES
  {
    files[FileOf(a) := Some(Join(Updated(LinesOf(files[FileOf(a)]), a, add)))]
  }

  lemma ReplacedLines(files: seq<File>, a: seq<byte>, add: bool)
    requires FilesOk(files) && Storable(a, FileOf(a))
    ensures LinesOf(Replaced(files, a, add)[FileOf(a)]) == Updated(LinesOf(files[FileOf(a)]), a, add)
    ensures FileOk(Replaced(files, a, add)[FileOf(a)], FileOf(a))
  {
    var i := FileOf(a);
    var ls := LinesOf(files[i]);
    var ms := Updated(ls, a, add);
    assert FileOk(files[i], i);
    hide Storable;
    UpdatedNoneTwice(ls, a, add);
    UpdatedStorable(ls, a, add, i);
    hide NoneTwice;
    UpdatedNoZeros(ls, a, add, i);
    LinesJoin(ms);
  }

  lemma UpdatedNoZeros(ls: seq<seq<byte>>, a: seq<byte>, add: bool, i: nat)
    requires AllStorable(Updated(ls, a, add), i)
    ensures NoZeros(Updated(ls, a, add))
  {
    StorableNoZeros(Updated(ls, a, add), i);
  }

  lemma ReplacedOk(files: seq<File>, a: seq<byte>, add: bool)
    requires FilesOk(files) && Storable(a, FileOf(a))
    ensures FilesOk(Replaced(files, a, add))
  {
    ReplacedLines(files, a, add);
    hide FileOk, Storable;
  }

  /** Replacing the file adds or removes this address and no other. */
  lemma ReplacedIsUpdate(files: seq<File>, a: seq<byte>, add: bool, b: seq<byte>)
    requires FilesOk(files) && Storable(a, FileOf(a))
    ensures OnList(Replaced(files, a, add), b) <==> if b == a then add else OnList(files, b)
  {
    ReplacedOk(files, a, add);
    ReplacedLines(files, a, add);
    OnlyInItsFile(files, b);
    OnlyInItsFile(Replaced(files, a, add), b);
    UpdatedHas(LinesOf(files[FileOf(a)]), a, add, b);
    assert |files| == FILES && forall i :: 0 <= i < FILES && i != FileOf(a) ==> Replaced(files, a, add)[i] == files[i];
    hide FilesOk, OnList, LinesOf, Storable, Updated, Replaced, FileOf;
  }

  lemma UpdatedHas(ls: seq<seq<byte>>, a: seq<byte>, add: bool, b: seq<byte>)
    ensures b in Updated(ls, a, add) <==> if b == a then add else b in ls
  {
  }

  // ---------- addresses as they are stored ----------

  lemma LastAtUnique(s: seq<byte>, j: nat)
    requires j < |s| && s[j] == AT && AT !in s[j + 1..]
    ensures LastAt(s) == j
  {
  }

  lemma FoldKeeps(s: seq<byte>, c: byte)
    requires c < 65
    ensures c in Fold(s) <==> c in s
  {
    if c in s {
      var k :| 0 <= k < |s| && s[k] == c;
      assert Fold(s)[k] == c;
    }
    if c in Fold(s) {
      var k :| 0 <= k < |s| && Fold(s)[k] == c;
      assert s[k] == c;
    }
  }

  lemma FoldTwice(s: seq<byte>)
    ensures Fold(Fold(s)) == Fold(s)
  {
  }

  /** The part up to the last `@`, as it is stored, and a host. */
  predicate Local(p: seq<byte>, h: seq<byte>) {
    |p| >= 2 && p[0] == 84 && p[|p| - 1] == AT && AT !in h
  }

  lemma LocalEnds(p: seq<byte>, h: seq<byte>)
    requires Local(p, h)
    ensures LastAt(p + h) == |p| - 1
  {
    assert (p + h)[|p|..] == h;
    LastAtUnique(p + h, |p| - 1);
  }

  lemma NormalOf(p: seq<byte>, h: seq<byte>)
    requires Local(p, h)
    ensures Normal((p + h)[1..]) == p + Fold(h)
  {
    LocalEnds(p, h);
    var s := p + h;
    assert [84] + s[1..] == s && s[..|p|] == p && s[|p|..] == h;
    hide Fold, LastAt;
  }

  lemma LocalAndHost(userhost: seq<byte>) returns (p: seq<byte>, h: seq<byte>)
    requires LastAt([84] + userhost) < 1 + |userhost|
    ensures Local(p, h) && [84] + userhost == p + h && Normal(userhost) == p + Fold(h)
  {
    var s := [84] + userhost;
    var j := LastAt(s);
    p, h := s[..j + 1], s[j + 1..];
    assert s == p + h && s[1..] == userhost;
    NormalOf(p, h);
  }

  lemma LocalFold(p: seq<byte>, h: seq<byte>)
    requires Local(p, h)
    ensures Local(p, Fold(h))
  {
    FoldKeeps(h, AT);
  }

  lemma NotInFolded(p: seq<byte>, h: seq<byte>, c: byte)
    requires c !in p + h && c < 65
    ensures c !in p + Fold(h)
  {
    FoldKeeps(h, c);
  }

  /** What a valid address is stored as may be stored. */
  lemma NormalStorable(userhost: seq<byte>)
    requires 0 !in userhost && NEWLINE !in userhost && |userhost| < MAX_ADDRESS && LastAt([84] + userhost) < 1 + |userhost|
    ensures Storable(Normal(userhost), FileOf(Normal(userhost)))
  {
    var p, h := LocalAndHost(userhost);
    var a := p + Fold(h);
    LocalFold(p, h);
    LocalEnds(p, Fold(h));
    NormalOf(p, Fold(h));
    FoldTwice(h);
    assert 0 !in p + h && NEWLINE !in p + h;
    NotInFolded(p, h, 0);
    NotInFolded(p, h, NEWLINE);
    hide Fold, LastAt, FileOf;
  }

  // ---------- the programs ----------

  /** The result of a program that was stopped on its way. */
  const STOPPED := -100

  class Subscribers {
    var files: seq<File>

    /** Files under temporary names: nobody reads them, and one that a stopped program left is overwritten. */
    var temps: seq<File>

    /** The system has refused something, or the program was stopped. */
    ghost var hindered: bool

    ghost predicate Valid()
      reads this
    {
      FilesOk(files) && |temps| == FILES
    }

    constructor ()
      ensures Valid() && forall a :: !OnList(files, a)
    {
      files, temps := seq(FILES, _ => None), seq(FILES, _ => None);
    }

    /** Whether the program is stopped here. */
    method Stop() returns (b: bool)
      modifies this`hindered
      ensures if b then hindered else hindered == old(hindered)
    {
      b := *;
      if b { hindered := true; }
    }

    /** Whether the system refuses. */
    method Refused() returns (b: bool)
      modifies this`hindered
      ensures if b then hindered else hindered == old(hindered)
    {
      b := *;
      if b { hindered := true; }
    }

    /** Adds the address to the list or takes it off. */
    method Update(userhost: seq<byte>, add: bool) returns (r: int)
      requires Valid() && 0 !in userhost
      modifies this
      ensures Valid()
      ensures r == -8 <==> NEWLINE in userhost
      ensures r == -7 <==> NEWLINE !in userhost && |userhost| >= MAX_ADDRESS
      ensures r == -6 <==> NEWLINE !in userhost && |userhost| < MAX_ADDRESS && LastAt([84] + userhost) == 1 + |userhost|
      ensures r == 0 || r == 1 ==> files == Replaced(old(files), Normal(userhost), add)
      ensures r == 0 || r == 1 ==> (r == 1 <==> OnList(old(files), Normal(userhost)) != add)
      ensures r == STOPPED ==> files == old(files) || files == Replaced(old(files), Normal(userhost), add)
      ensures r != 0 && r != 1 && r != STOPPED ==> files == old(files) && -8 <= r <= -3
      ensures r == STOPPED || -5 <= r <= -3 ==> hindered
    {
      hindered := false;
      if NEWLINE in userhost { return -8; }
      if 1 + |userhost| > MAX_ADDRESS { return -7; }
      if LastAt([84] + userhost) == 1 + |userhost| { return -6; }
      var addr := Normal(userhost);
      NormalStorable(userhost);
      r := Rewrite(addr, add);
    }

    /** Writes a new file beside the one in which the address belongs, and moves it into its place. */
    method Rewrite(addr: seq<byte>, add: bool) returns (r: int)
      requires Valid() && Storable(addr, FileOf(addr))
      modifies this
      ensures Valid()
      ensures r == 0 || r == 1 ==> files == Replaced(old(files), addr, add)
      ensures r == 0 || r == 1 ==> (r == 1 <==> OnList(old(files), addr) != add)
      ensures r == STOPPED ==> files == old(files) || files == Replaced(old(files), addr, add)
      ensures r != 0 && r != 1 && r != STOPPED ==> files == old(files) && -5 <= r <= -3
      ensures r != 0 && r != 1 ==> hindered
    {
      OnlyInItsFile(files, addr);
      ReplacedOk(files, addr, add);
      hide FilesOk, OnList, Storable;
      var h := DjbHash.Compute(addr);
      var i := h % 53;
      var refused := Refused();
      if refused { return -4; }
      temps := temps[i := Some([])];
      var wasThere: bool;
      r, wasThere := Fill(i, addr, add);
      if r != 0 { return; }
      refused := Refused();
      if refused { return -5; }
      files := files[i := temps[i]];
      temps := temps[i := None];
      var stop := Stop();
      if stop { return STOPPED; }
      return if add != wasThere then 1 else 0;
    }

    /** Fills the temporary file: 0 when it is complete. */
    method Fill(i: nat, addr: seq<byte>, add: bool) returns (r: int, wasThere: bool)
      requires i < FILES == |files| == |temps|
      modifies this`temps, this`hindered
      ensures r != 0 ==> hindered
      ensures |temps| == FILES && (r == 0 || r == -3 || r == -4 || r == STOPPED)
      ensures r == 0 ==> temps[i] == Some(Join(Updated(LinesOf(files[i]), addr, add)))
      ensures r == 0 ==> (wasThere <==> addr in LinesOf(files[i]))
    {
      var stop := Stop();
      if stop { return STOPPED, false; }
      var refused := Refused();
      if refused { return -3, false; }
      var out: seq<byte> := [];
      wasThere := false;
      if files[i].Some? {
        r, out, wasThere := CopyLines(i, files[i].value, addr, add);
        if r != 0 { return; }
      }
      if add && !wasThere {
        JoinAppend(LinesOf(files[i]), addr);
        out := out + addr + [0];
      }
      refused := Refused();
      if refused { return -4, wasThere; }
      temps := temps[i := Some(out)];
      stop := Stop();
      return if stop then STOPPED else 0, wasThere;
    }

    /** Copies the lines of the old file, leaving out the address when it is to be taken off. */
    method CopyLines(i: nat, s: seq<byte>, addr: seq<byte>, add: bool) returns (r: int, out: seq<byte>, wasThere: bool)
      requires i < FILES == |temps|
      modifies this`temps, this`hindered
      ensures r != 0 ==> hindered
      ensures |temps| == FILES && (r == 0 || r == -3 || r == -4 || r == STOPPED)
      ensures r == 0 ==> out == Join(Copied(Lines(s), addr, add)) && (wasThere <==> addr in Lines(s))
    {
      hide Copying, Extended, IsLine, Lines, Copied, Join;
      out, wasThere := [], false;
      var pos: nat := 0;
      ghost var done: seq<seq<byte>> := [];
      CopyBegun(s, addr, add);
      while true
        invariant pos <= |s| && |temps| == FILES && Copying(s, s[pos..], done, addr, add, out, wasThere)
        decreases |s| - pos
      {
        r := Reading();
        if r != 0 { return; }
        var n := LineEnd(s, pos);
        if n == |s| {
          CopyEnds(s, s[pos..], done, addr, add, out, wasThere);
          return;
        }
        CopyLine(s, pos, n, done, addr, add, out, wasThere);
        var line := s[pos..n];
        done := done + [line];
        pos := n + 1;
        out, wasThere := Extended(out, line, addr, add), wasThere || IsLine(line, addr);
        r := Writing(i, out, add || !IsLine(line, addr));
        if r != 0 { return; }
      }
    }

    /** Before a line is read: 0, or the result when the program is stopped or cannot read. */
    method Reading() returns (r: int)
      modifies this`hindered
      ensures (r == 0 || r == -3 || r == STOPPED) && (r != 0 ==> hindered)
    {
      var stop := Stop();
      var refused := Refused();
      r := if stop then STOPPED else if refused then -3 else 0;
    }

    /** After a line was put out: it may be in the temporary file, or may not be writable. */
    method Writing(i: nat, out: seq<byte>, put: bool) returns (r: int)
      requires i < FILES == |temps|
      modifies this`temps, this`hindered
      ensures |temps| == FILES && (r == 0 || r == -4) && (r != 0 ==> hindered)
    {
      if !put { return 0; }
      var refused := Refused();
      if refused { return -4; }
      SomeWritten(i, out);
      return 0;
    }

    /** Part of what was put out is in the temporary file. */
    method SomeWritten(i: nat, out: seq<byte>)
      requires i < FILES == |temps|
      modifies this`temps
      ensures |temps| == FILES
    {
      var written: int := *;
      temps := temps[i := Some(if 0 <= written <= |out| then out[..written] else out)];
    }

    /** Whether the address is on the list. */
    method IsSub(userhost: seq<byte>) returns (r: int)
      requires Valid() && 0 !in userhost
      modifies this`hindered
      ensures r == 0 || r == 1 || (r == -3 && hindered)
      ensures r == 0 || r == 1 ==> (r == 1 <==> OnList(files, Normal(userhost)))
    {
      var addr := Normal(userhost);
      OnlyInItsFile(files, addr);
      hindered := false;
      if LastAt([84] + userhost) == 1 + |userhost| {
        NotStored(files, userhost);
        return 0;
      }
      var h := DjbHash.Compute(addr);
      var i := h % 53;
      var refused := Refused();
      if refused { return -3; }
      hide FilesOk, OnList;
      if files[i] == None { return 0; }
      r := FindLine(files[i].value, addr);
    }

    method FindLine(s: seq<byte>, addr: seq<byte>) returns (r: int)
      modifies this`hindered
      ensures r == 0 || r == 1 || (r == -3 && hindered)
      ensures r == 0 || r == 1 ==> (r == 1 <==> addr in Lines(s))
    {
      var pos: nat := 0;
      ghost var done: seq<seq<byte>> := [];
      ReadNone(s);
      hide Read, FirstZero, Lines;
      while true
        invariant pos <= |s| && Read(s, s[pos..], done) && addr !in done
        decreases |s| - pos
      {
        var refused := Refused();
        if refused { return -3; }
        var n := LineEnd(s, pos);
        if n == |s| {
          ReadAll(s, s[pos..], done);
          return 0;
        }
        ReadNext(s, s[pos..], n - pos, done);
        Within(s, pos, n);
        var line := s[pos..n];
        done := done + [line];
        pos := n + 1;
        if line == addr {
          ReadSome(s, s[pos..], done);
          return 1;
        }
      }
    }
  }

  /** Where the line that starts at `pos` ends, or the end of the file. */
  method LineEnd(s: seq<byte>, pos: nat) returns (n: nat)
    requires pos <= |s|
    ensures n == pos + FirstZero(s[pos..]) && pos <= n <= |s|
  {
    n := pos;
    while n < |s| && s[n] != 0
      invariant pos <= n <= |s| && 0 !in s[pos..n]
    {
      assert s[pos..n + 1] == s[pos..n] + [s[n]];
      n := n + 1;
    }
    FirstZeroIs(s[pos..], n - pos);
  }

  lemma {:induction false} FirstZeroIs(s: seq<byte>, n: nat)
    requires n <= |s| && 0 !in s[..n] && (n < |s| ==> s[n] == 0)
    ensures FirstZero(s) == n
  {
    if n > 0 {
      assert s[..n][0] == s[0] && s[1..][..n - 1] == s[..n][1..];
      FirstZeroIs(s[1..], n - 1);
    }
  }

  /** `done` are the lines of the file in front of `rest`. */
  ghost predicate Read(s: seq<byte>, rest: seq<byte>, done: seq<seq<byte>>) {
    Lines(s) == done + Lines(rest)
  }

  lemma ReadNone(s: seq<byte>)
    ensures s[0..] == s && Read(s, s, [])
  {
    assert [] + Lines(s) == Lines(s);
  }

  lemma LinesNext(s: seq<byte>, n: nat)
    requires n == FirstZero(s) < |s|
    ensures Lines(s) == [s[..n]] + Lines(s[n + 1..])
  {
  }

  lemma Regroup<T>(a: seq<T>, x: T, b: seq<T>)
    ensures a + ([x] + b) == (a + [x]) + b
  {
  }

  lemma Within<T>(s: seq<T>, pos: nat, n: nat)
    requires pos <= n < |s|
    ensures s[pos..][..n - pos] == s[pos..n] && s[pos..][n - pos + 1..] == s[n + 1..]
  {
  }

  lemma ReadNext(s: seq<byte>, rest: seq<byte>, n: nat, done: seq<seq<byte>>)
    requires Read(s, rest, done) && n == FirstZero(rest) < |rest|
    ensures Read(s, rest[n + 1..], done + [rest[..n]])
  {
    LinesNext(rest, n);
    hide Lines, FirstZero;
    Regroup(done, rest[..n], Lines(rest[n + 1..]));
  }

  lemma ReadAll(s: seq<byte>, rest: seq<byte>, done: seq<seq<byte>>)
    requires Read(s, rest, done) && FirstZero(rest) == |rest|
    ensures Lines(s) == done
  {
    assert Lines(rest) == [];
    assert done + [] == done;
  }

  lemma ReadSome(s: seq<byte>, rest: seq<byte>, done: seq<seq<byte>>)
    requires Read(s, rest, done)
    ensures forall l :: l in done ==> l in Lines(s)
  {
    hide Lines;
  }

  /** What is copied of the lines of the old file. */
  function Copied(ls: seq<seq<byte>>, a: seq<byte>, add: bool): (r: seq<seq<byte>>) {
    if add then ls else Without(ls, a)
  }

  lemma CopiedNext(done: seq<seq<byte>>, line: seq<byte>, a: seq<byte>, add: bool)
    ensures Join(Copied(done + [line], a, add)) ==
            if line == a && !add then Join(Copied(done, a, add)) else Join(Copied(done, a, add)) + line + [0]
  {
    assert (done + [line])[..|done|] == done;
    assert !add ==> Without(done + [line], a) == Without(done, a) + if line == a then [] else [line];
    assert Without(done, a) + [] == Without(done, a);
    JoinAppend(Copied(done, a, add), line);
  }

  /** How far the copying is: the lines in front of `rest` are in `out`, but for the address that is taken off. */
  ghost predicate Copying(s: seq<byte>, rest: seq<byte>, done: seq<seq<byte>>, addr: seq<byte>, add: bool,
                          out: seq<byte>, wasThere: bool) {
    Read(s, rest, done) && out == Join(Copied(done, addr, add)) && (wasThere <==> addr in done)
  }

  predicate IsLine(line: seq<byte>, addr: seq<byte>) {
    |line| == |addr| && line == addr
  }

  /** The new file with one more line, unless the line is the address that is taken off. */
  function Extended(out: seq<byte>, line: seq<byte>, addr: seq<byte>, add: bool): (r: seq<byte>) {
    if line == addr && !add then out else out + line + [0]
  }

  lemma CopyBegun(s: seq<byte>, addr: seq<byte>, add: bool)
    ensures s[0..] == s && Copying(s, s, [], addr, add, [], false)
  {
    ReadNone(s);
  }

  lemma CopyLine(s: seq<byte>, pos: nat, n: nat, done: seq<seq<byte>>, addr: seq<byte>, add: bool, out: seq<byte>, wasThere: bool)
    requires pos <= n < |s| && n == pos + FirstZero(s[pos..]) && Copying(s, s[pos..], done, addr, add, out, wasThere)
    ensures var line := s[pos..n];
            Copying(s, s[n + 1..], done + [line], addr, add, Extended(out, line, addr, add), wasThere || IsLine(line, addr))
  {
    var rest := s[pos..];
    Within(s, pos, n);
    ReadNext(s, rest, n - pos, done);
    CopiedNext(done, s[pos..n], addr, add);
    hide Read, Join, Copied, FirstZero;
  }

  lemma CopyEnds(s: seq<byte>, rest: seq<byte>, done: seq<seq<byte>>, addr: seq<byte>, add: bool, out: seq<byte>, wasThere: bool)
    requires Copying(s, rest, done, addr, add, out, wasThere) && FirstZero(rest) == |rest|
    ensures out == Join(Copied(Lines(s), addr, add)) && (wasThere <==> addr in Lines(s))
  {
    ReadAll(s, rest, done);
  }

  lemma ListedHasAt(files: seq<File>, a: seq<byte>)
    requires FilesOk(files) && OnList(files, a)
    ensures LastAt(a) < |a|
  {
    var i :| 0 <= i < |files| && a in LinesOf(files[i]);
    assert FileOk(files[i], i);
    var k :| 0 <= k < |LinesOf(files[i])| && LinesOf(files[i])[k] == a;
    assert Storable(LinesOf(files[i])[k], i);
  }

  /** Nothing without an `@` is on the list. */
  lemma NotStored(files: seq<File>, userhost: seq<byte>)
    requires FilesOk(files) && LastAt([84] + userhost) == 1 + |userhost|
    ensures !OnList(files, Normal(userhost))
  {
    if OnList(files, Normal(userhost)) { ListedHasAt(files, Normal(userhost)); }
  }

  /** A completed update reports 1 exactly when it changed who is on the list. */
  lemma ReportsChange(files: seq<File>, a: seq<byte>, add: bool)
    requires FilesOk(files) && Storable(a, FileOf(a))
    ensures OnList(files, a) != add <==> exists b :: OnList(Replaced(files, a, add), b) != OnList(files, b)
  {
    ReplacedIsUpdate(files, a, add, a);
    forall b | b != a
      ensures OnList(Replaced(files, a, add), b) == OnList(files, b)
    {
      ReplacedIsUpdate(files, a, add, b);
    }
  }
}
