/** Names as text: the printer and the parser. */
module NameText {
  import opened Bytes
  import opened Domain

  const DOT: byte := 46
  const BACKSLASH: byte := 92
  const ZERO: byte := 48

  // ---------- printing ----------

  /** Letters, digits, hyphen and underscore stand for themselves. */
  predicate Plain(c: byte) {
    97 <= c <= 122 || 48 <= c <= 57 || c == 45 || c == 95
  }

  /** A byte in three octal digits. */
  function Digits(l: byte): (s: seq<byte>)
    ensures |s| == 3
  {
    [ZERO + l / 64, ZERO + l / 8 % 8, ZERO + l % 8]
  }

  function Print(c: byte): (s: seq<byte>) {
    var l := Lower(c);
    if Plain(l) then [l] else [BACKSLASH] + Digits(l)
  }

  function PrintLabel(l: seq<byte>): (s: seq<byte>) {
    if l == [] then [] else Print(l[0]) + PrintLabel(l[1..])
  }

  /** The labels of a name that is not the root, separated by dots. */
  function PrintLabels(d: seq<byte>): (s: seq<byte>)
    requires WellFormed(d) && d[0] != 0
  {
    var n := 1 + d[0];
    PrintLabel(d[1..n]) + if d[n] == 0 then [] else [DOT] + PrintLabels(d[n..])
  }

  function Text(d: seq<byte>): (s: seq<byte>)
    requires WellFormed(d)
  {
    if d[0] == 0 then [DOT] else PrintLabels(d)
  }

  method ToDotCat(out: seq<byte>, d: seq<byte>) returns (r: seq<byte>)
    requires WellFormed(d)
    ensures r == out + Text(d)
  {
    hide WellFormed, TextFrom, PrintLabel, Print, Text;
    NotEmpty(d);
    if d[0] == 0 {
      RootText(d);
      return out + [DOT];
    }
    r := out;
    var p: nat := 0;
    FromStart(d);
    ghost var all := out + Text(d);
    while true
      invariant At(d, p) && all == r + TextFrom(d, p)
      decreases |d| - p
    {
      LabelFrom(d, p, r);
      var len := d[p];
      r := PrintOne(r, d, p + 1, len);
      p := p + 1 + len;
      if d[p] == 0 { return; }
      r := r + [DOT];
    }
  }

  /** A label of `d` starts at `p`. */
  predicate At(d: seq<byte>, p: nat) {
    p < |d| && WellFormed(d[p..]) && d[p] != 0
  }

  function TextFrom(d: seq<byte>, p: nat): (s: seq<byte>)
    requires At(d, p)
  {
    PrintLabels(d[p..])
  }

  lemma RootText(d: seq<byte>)
    requires WellFormed(d) && d[0] == 0
    ensures Text(d) == [DOT]
  {
  }

  lemma FromStart(d: seq<byte>)
    requires WellFormed(d) && d[0] != 0
    ensures At(d, 0) && Text(d) == TextFrom(d, 0)
  {
    assert d[0..] == d;
  }

  /** The inner loop: one label, byte by byte. */
  method PrintOne(out: seq<byte>, d: seq<byte>, start: nat, len: nat) returns (r: seq<byte>)
    requires start + len <= |d|
    ensures r == out + PrintLabel(d[start..start + len])
  {
    r := out;
    var p: nat, ch: nat := start, len;
    hide Print, PrintLabel;
    while ch != 0
      invariant 0 <= ch <= len && p + ch == start + len
      invariant out + PrintLabel(d[start..start + len]) == r + PrintLabel(d[p..p + ch])
    {
      PrintFirst(d, p, p + ch, r);
      r := r + Print(d[p]);
      p := p + 1;
      ch := ch - 1;
    }
    PrintNothing(d, p, r);
  }

  lemma PrintNothing(d: seq<byte>, p: nat, r: seq<byte>)
    requires p <= |d|
    ensures r + PrintLabel(d[p..p]) == r
  {
    assert d[p..p] == [];
  }

  lemma LabelFrom(d: seq<byte>, p: nat, r: seq<byte>)
    requires At(d, p)
    ensures var n := p + 1 + d[p];
            && n < |d|
            && (d[n] == 0 ==> r + TextFrom(d, p) == r + PrintLabel(d[p + 1..n]))
            && (d[n] != 0 ==> At(d, n) && r + TextFrom(d, p) == r + PrintLabel(d[p + 1..n]) + [DOT] + TextFrom(d, n))
  {
    var n := p + 1 + d[p];
    Heads(d[p..]);
    TailParts(d, p, n);
    hide WellFormed, PrintLabel;
    if d[n] == 0 {
      assert PrintLabels(d[p..]) == PrintLabel(d[p + 1..n]) + [];
      Concat(r, PrintLabel(d[p + 1..n]), []);
      Nothing(r + PrintLabel(d[p + 1..n]));
    } else {
      Concat(r, PrintLabel(d[p + 1..n]), [DOT] + PrintLabels(d[n..]));
      Concat(r + PrintLabel(d[p + 1..n]), [DOT], PrintLabels(d[n..]));
    }
  }

  lemma TailParts<T>(d: seq<T>, p: nat, n: nat)
    requires p < n < |d|
    ensures d[p..][1..n - p] == d[p + 1..n] && d[p..][n - p..] == d[n..] && d[p..][n - p] == d[n]
  {
  }

  lemma Concat<T>(a: seq<T>, b: seq<T>, c: seq<T>)
    ensures a + (b + c) == a + b + c
  {
  }

  lemma Nothing<T>(a: seq<T>)
    ensures a + [] == a && [] + a == a
  {
  }

  lemma PrintFirst(d: seq<byte>, p: nat, n: nat, r: seq<byte>)
    requires p < n <= |d|
    ensures r + PrintLabel(d[p..n]) == r + Print(d[p]) + PrintLabel(d[p + 1..n])
  {
    assert d[p..n][1..] == d[p + 1..n];
  }

  // ---------- parsing ----------

  predicate Octal(c: byte) {
    48 <= c <= 55
  }

  /** The byte that follows a backslash: up to three octal digits, or any byte for itself; and what remains. */
  function Escaped(s: seq<byte>): (r: (byte, seq<byte>))
    requires s != []
    ensures |r.1| < |s|
  {
    if !Octal(s[0]) then (s[0], s[1..])
    else
      var a: int := s[0] - ZERO;
      if |s| == 1 || !Octal(s[1]) then (a, s[1..])
      else
        var b: int := a * 8 + (s[1] - ZERO);
        if |s| == 2 || !Octal(s[2]) then (b, s[2..])
        else
          var c: int := b * 8 + (s[2] - ZERO);
          (c % 256, s[3..])
  }

  /** The number that octal digits stand for. */
  function Number(s: seq<byte>): (n: int) {
    if s == [] then 0 else Number(s[..|s| - 1]) * 8 + (s[|s| - 1] - ZERO)
  }

  ghost predicate AllOctal(s: seq<byte>) {
    forall i :: 0 <= i < |s| ==> Octal(s[i])
  }

  /** What an escape takes: the longest run of at most three octal digits, for the byte with that number, or else one
      byte, for itself. */
  lemma EscapeTakes(s: seq<byte>) returns (k: nat)
    requires s != []
    ensures k <= 3 && k <= |s| && AllOctal(s[..k]) && (k == 3 || k == |s| || !Octal(s[k]))
    ensures Escaped(s) == if k == 0 then (s[0], s[1..]) else (Number(s[..k]) % 256, s[k..])
  {
    if !Octal(s[0]) { return 0; }
    assert s[..1][..0] == [];
    if |s| == 1 || !Octal(s[1]) { return 1; }
    assert s[..2][..1] == s[..1] && Number(s[..1]) == s[0] - ZERO;
    if |s| == 2 || !Octal(s[2]) { return 2; }
    assert s[..3][..2] == s[..2] && Number(s[..2]) == (s[0] - ZERO) * 8 + (s[1] - ZERO);
    return 3;
  }

  /** An escaped byte is part of its label, whatever it stands for otherwise. */
  lemma EscapedByte(c: byte, rest: seq<byte>, lab: seq<byte>, name: seq<byte>)
    requires !Octal(c) && |lab| < MAX_LABEL
    ensures Parse([BACKSLASH, c] + rest, lab, name) == Parse(rest, lab + [c], name)
  {
    var s := [BACKSLASH, c] + rest;
    assert s[1..] == [c] + rest && s[1..][1..] == rest;
  }

  /** The label is moved to the name, unless it is empty. */
  function Flush(lab: seq<byte>, name: seq<byte>): (r: Option<seq<byte>>)
    requires |lab| <= MAX_LABEL
  {
    if lab == [] then Some(name)
    else if |name| + |lab| + 1 > MAX_NAME then None
    else Some(name + [|lab|] + lab)
  }

  function End(lab: seq<byte>, name: seq<byte>): (r: Option<seq<byte>>)
    requires |lab| <= MAX_LABEL
  {
    match Flush(lab, name)
    case None => None
    case Some(n) => if |n| + 1 > MAX_NAME then None else Some(n + [0])
  }

  /** The name that the text `s` completes, when `lab` and `name` have been collected so far. */
  function Parse(s: seq<byte>, lab: seq<byte>, name: seq<byte>): (r: Option<seq<byte>>)
    requires |lab| <= MAX_LABEL
    decreases |s|
  {
    if s == [] || (s[0] == BACKSLASH && |s| == 1) then End(lab, name)
    else if s[0] == DOT then
      match Flush(lab, name)
      case None => None
      case Some(n) => Parse(s[1..], [], n)
    else
      var (c, rest) := if s[0] == BACKSLASH then Escaped(s[1..]) else (s[0], s[1..]);
      if |lab| >= MAX_LABEL then None else Parse(rest, lab + [c], name)
  }

  /** The label goes behind the name, if it is not empty and there is room. */
  method Move(lab: array<byte>, lablen: nat, name: array<byte>, namelen: nat) returns (ok: bool, n: nat)
    requires lab.Length == MAX_LABEL && lablen <= MAX_LABEL && name.Length == MAX_NAME && namelen <= MAX_NAME && lab != name
    modifies name
    ensures ok ==> n <= MAX_NAME && Flush(lab[..lablen], old(name[..namelen])) == Some(name[..n])
    ensures !ok ==> Flush(lab[..lablen], old(name[..namelen])) == None
  {
    if lablen == 0 { return true, namelen; }
    if namelen + lablen + 1 > MAX_NAME { return false, namelen; }
    ghost var before := name[..namelen];
    name[namelen] := lablen;
    forall i | 0 <= i < lablen {
      name[namelen + 1 + i] := lab[i];
    }
    ok, n := true, namelen + 1 + lablen;
    assert name[..n] == before + [lablen] + lab[..lablen];
  }

  method FromDot(buf: seq<byte>) returns (r: Option<seq<byte>>)
    ensures r == Parse(buf, [], [])
  {
    var lab, name := new byte[MAX_LABEL], new byte[MAX_NAME];
    var lablen: nat, namelen: nat := 0, 0;
    var s := buf;
    hide Flush;
    while s != []
      invariant lablen <= MAX_LABEL && namelen <= MAX_NAME
      invariant Parse(buf, [], []) == Parse(s, lab[..lablen], name[..namelen])
      decreases |s|
    {
      var ch := s[0];
      if ch == DOT {
        var ok, n := Move(lab, lablen, name, namelen);
        if !ok { return None; }
        lablen, namelen, s := 0, n, s[1..];
        continue;
      }
      ghost var sofar := lab[..lablen];
      if ch == BACKSLASH {
        if |s| == 1 { break; }
        var e := Escaped(s[1..]);
        ch, s := e.0, e.1;
      } else {
        s := s[1..];
      }
      if lablen >= MAX_LABEL { return None; }
      lab[lablen] := ch;
      assert lab[..lablen + 1] == sofar + [ch];
      lablen := lablen + 1;
    }
    var ok, n := Move(lab, lablen, name, namelen);
    if !ok || n + 1 > MAX_NAME { return None; }
    return Some(name[..n] + [0]);
  }

  // ---------- what parsing guarantees ----------

  lemma {:induction false} AppendLabel(name: seq<byte>, l: seq<byte>)
    requires WellFormed(name + [0]) && 1 <= |l| <= MAX_LABEL
    ensures WellFormed(name + [|l|] + l + [0])
    decreases |name|
  {
    var d, e := name + [0], name + [|l|] + l + [0];
    if name == [] {
      assert e[1 + |l|..] == [0];
    } else {
      NotLast(name);
      var n := 1 + name[0];
      assert d[n..] == name[n..] + [0];
      AppendLabel(name[n..], l);
      assert e[n..] == name[n..] + [|l|] + l + [0];
    }
  }

  lemma NotLast(name: seq<byte>)
    requires WellFormed(name + [0]) && name != []
    ensures 0 < name[0] <= MAX_LABEL && 1 + name[0] <= |name|
  {
    assert (name + [0])[0] == name[0];
  }

  /** Whatever the text, a name that is accepted is well-formed and at most 255 bytes long. */
  lemma {:induction false} ParseSound(s: seq<byte>, lab: seq<byte>, name: seq<byte>)
    requires |lab| <= MAX_LABEL && WellFormed(name + [0])
    ensures var r := Parse(s, lab, name); r.Some? ==> WellFormed(r.value) && |r.value| <= MAX_NAME
    decreases |s|
  {
    if lab != [] {
      AppendLabel(name, lab);
    }
    if s == [] || (s[0] == BACKSLASH && |s| == 1) {
    } else if s[0] == DOT {
      var n := Flush(lab, name);
      if n.Some? { ParseSound(s[1..], [], n.value); }
    } else if |lab| < MAX_LABEL {
      var (c, rest) := if s[0] == BACKSLASH then Escaped(s[1..]) else (s[0], s[1..]);
      ParseSound(rest, lab + [c], name);
    }
  }

  // ---------- what a text means ----------

  /** A dot between labels, or a byte of a label. */
  datatype Token = Separator | Byte(c: byte)

  /** The text with its escapes resolved; a backslash at its end is left out. */
  function Tokens(s: seq<byte>): (ts: seq<Token>)
    decreases |s|
  {
    if s == [] || (s[0] == BACKSLASH && |s| == 1) then []
    else if s[0] == DOT then [Separator] + Tokens(s[1..])
    else
      var (c, rest) := if s[0] == BACKSLASH then Escaped(s[1..]) else (s[0], s[1..]);
      [Byte(c)] + Tokens(rest)
  }

  function Piece(lab: seq<byte>): (ls: seq<seq<byte>>) {
    if lab == [] then [] else [lab]
  }

  /** What stands between the separators, without what is empty, when `lab` stands in front. */
  function Pieces(ts: seq<Token>, lab: seq<byte>): (ls: seq<seq<byte>>) {
    if ts == [] then Piece(lab)
    else match ts[0]
      case Separator => Piece(lab) + Pieces(ts[1..], [])
      case Byte(c) => Pieces(ts[1..], lab + [c])
  }

  /** The name with more labels behind it, if they fit. */
  function Complete(name: seq<byte>, ls: seq<seq<byte>>): (r: Option<seq<byte>>) {
    if Fit(ls) && |name| + |Wire(ls)| <= MAX_NAME then Some(name + Wire(ls)) else None
  }

  lemma CompleteOne(name: seq<byte>, lab: seq<byte>, ls: seq<seq<byte>>)
    requires 1 <= |lab| <= MAX_LABEL
    ensures Complete(name, [lab] + ls) ==
            if |name| + |lab| + 1 > MAX_NAME then None else Complete(name + [|lab|] + lab, ls)
  {
    hide Fit;
    FitMore(lab, ls);
    assert ([lab] + ls)[1..] == ls;
    if Fit(ls) {
      assert name + ([|lab|] + lab + Wire(ls)) == name + [|lab|] + lab + Wire(ls);
    }
  }

  lemma FitMore(lab: seq<byte>, ls: seq<seq<byte>>)
    requires 1 <= |lab| <= MAX_LABEL
    ensures Fit([lab] + ls) <==> Fit(ls)
  {
    assert forall i :: 0 <= i < |ls| ==> ls[i] == ([lab] + ls)[i + 1];
  }

  lemma CompleteEnd(name: seq<byte>, lab: seq<byte>)
    requires |lab| <= MAX_LABEL
    ensures Complete(name, Piece(lab)) == End(lab, name)
  {
    assert Wire([]) == [0];
    if lab != [] {
      CompleteOne(name, lab, []);
      assert [lab] + [] == [lab];
    }
  }

  lemma {:induction false} PieceBegins(ts: seq<Token>, lab: seq<byte>)
    requires lab != []
    ensures Pieces(ts, lab) != [] && |Pieces(ts, lab)[0]| >= |lab|
    decreases |ts|
  {
    if ts != [] && ts[0].Byte? { PieceBegins(ts[1..], lab + [ts[0].c]); }
  }

  lemma TooLong(ts: seq<Token>, lab: seq<byte>, name: seq<byte>)
    requires |lab| > MAX_LABEL
    ensures Complete(name, Pieces(ts, lab)) == None
  {
    hide Pieces;
    PieceBegins(ts, lab);
  }

  lemma {:induction false} ParseCompletes(s: seq<byte>, lab: seq<byte>, name: seq<byte>)
    requires |lab| <= MAX_LABEL
    ensures Parse(s, lab, name) == Complete(name, Pieces(Tokens(s), lab))
    decreases |s|
  {
    hide Complete, End, Escaped, Fit;
    if s == [] || (s[0] == BACKSLASH && |s| == 1) {
      CompleteEnd(name, lab);
    } else if s[0] == DOT {
      var ts := Tokens(s[1..]);
      assert ([Separator] + ts)[1..] == ts;
      if lab != [] { CompleteOne(name, lab, Pieces(ts, [])); }
      assert Piece([]) + Pieces(ts, []) == Pieces(ts, []);
      var n := Flush(lab, name);
      if n.Some? { ParseCompletes(s[1..], [], n.value); }
    } else {
      var (c, rest) := if s[0] == BACKSLASH then Escaped(s[1..]) else (s[0], s[1..]);
      var ts := Tokens(rest);
      assert ([Byte(c)] + ts)[1..] == ts;
      if |lab| >= MAX_LABEL {
        TooLong(ts, lab + [c], name);
      } else {
        ParseCompletes(rest, lab + [c], name);
      }
    }
  }

  /** A text is the name whose labels are what stands between its dots, without what is empty; it is refused exactly if
      one of them has more than 63 bytes or all together have more than 255. */
  lemma ParseIs(s: seq<byte>)
    ensures var ls := Pieces(Tokens(s), []);
            Parse(s, [], []) == if Fit(ls) && |Wire(ls)| <= MAX_NAME then Some(Wire(ls)) else None
  {
    hide Tokens, Pieces, Fit, Wire;
    ParseCompletes(s, [], []);
    var ls := Pieces(Tokens(s), []);
    if Fit(ls) { assert [] + Wire(ls) == Wire(ls); }
  }

  // ---------- round trip ----------

  /** One printed byte is parsed back as that byte in lower case. */
  lemma ParsePrint(c: byte, rest: seq<byte>, lab: seq<byte>, name: seq<byte>)
    requires |lab| < MAX_LABEL
    ensures Parse(Print(c) + rest, lab, name) == Parse(rest, lab + [Lower(c)], name)
  {
    hide Escaped, Flush;
    var l := Lower(c);
    var s := Print(c) + rest;
    if Plain(l) {
      assert s[1..] == rest;
    } else {
      PrintedEscape(l, rest);
      assert s[1..] == Digits(l) + rest;
    }
  }

  lemma PrintedEscape(l: byte, rest: seq<byte>)
    ensures Escaped(Digits(l) + rest) == (l, rest)
  {
    OctalDigits(l);
    ThreeDigits(l / 64, l / 8 % 8, l % 8, rest);
  }

  lemma ThreeDigits(a: nat, b: nat, c: nat, rest: seq<byte>)
    requires a <= 3 && b <= 7 && c <= 7
    ensures Escaped([ZERO + a, ZERO + b, ZERO + c] + rest) == ((a * 8 + b) * 8 + c, rest)
  {
    assert ([ZERO + a, ZERO + b, ZERO + c] + rest)[3..] == rest;
  }

  lemma OctalDigits(l: byte)
    ensures l == ((l / 64) * 8 + l / 8 % 8) * 8 + l % 8 && l / 64 <= 3 && l / 8 % 8 <= 7 && l % 8 <= 7
  {
  }

  lemma FoldHead(l: seq<byte>)
    requires l != []
    ensures Fold(l) == [Lower(l[0])] + Fold(l[1..])
  {
  }

  lemma {:induction false} ParseLabel(l: seq<byte>, rest: seq<byte>, lab: seq<byte>, name: seq<byte>)
    requires |lab| + |l| <= MAX_LABEL
    ensures Parse(PrintLabel(l) + rest, lab, name) == Parse(rest, lab + Fold(l), name)
    decreases |l|
  {
    if l == [] {
      assert [] + rest == rest && lab + Fold(l) == lab;
    } else {
      hide Parse, Print;
      Concat(Print(l[0]), PrintLabel(l[1..]), rest);
      ParsePrint(l[0], PrintLabel(l[1..]) + rest, lab, name);
      ParseLabel(l[1..], rest, lab + [Lower(l[0])], name);
      FoldHead(l);
      Concat(lab, [Lower(l[0])], Fold(l[1..]));
    }
  }

  /** A label, then a dot or the end: the label goes to the name. */
  lemma ParseLast(l: seq<byte>, name: seq<byte>)
    requires 1 <= |l| <= MAX_LABEL && |name| + |l| + 2 <= MAX_NAME
    ensures Parse([], l, name) == Some(name + [|l|] + l + [0])
  {
  }

  lemma ParseDot(l: seq<byte>, rest: seq<byte>, name: seq<byte>)
    requires 1 <= |l| <= MAX_LABEL && |name| + |l| + 1 <= MAX_NAME
    ensures Parse([DOT] + rest, l, name) == Parse(rest, [], name + [|l|] + l)
  {
    assert ([DOT] + rest)[1..] == rest;
  }

  lemma {:induction false} ParseLabels(d: seq<byte>, name: seq<byte>)
    requires WellFormed(d) && d[0] != 0 && |name| + |d| <= MAX_NAME
    ensures Parse(PrintLabels(d), [], name) == Some(name + Fold(d))
    decreases |d|
  {
    Heads(d);
    FoldFirst(d);
    var n := 1 + d[0];
    var l, e := d[1..n], d[n..];
    NotEmpty(e);
    hide WellFormed, Parse, PrintLabel, Fold;
    var name' := name + [d[0]] + Fold(l);
    Regroup(name, [d[0]], Fold(l), Fold(e));
    Nothing(Fold(l));
    Nothing(PrintLabel(l));
    if d[n] == 0 {
      assert PrintLabels(d) == PrintLabel(l) + [];
      ParseLabel(l, [], [], name);
      ParseLast(Fold(l), name);
      FoldRoot();
    } else {
      ParseLabel(l, [DOT] + PrintLabels(e), [], name);
      ParseDot(Fold(l), PrintLabels(e), name);
      ParseLabels(e, name');
    }
  }

  lemma Regroup<T>(n: seq<T>, a: seq<T>, b: seq<T>, c: seq<T>)
    ensures n + a + b + c == n + (a + b + c)
  {
  }

  lemma FoldRoot()
    ensures Fold([0]) == [0]
  {
  }

  /** Length bytes are not letters. */
  lemma FoldFirst(d: seq<byte>)
    requires WellFormed(d) && d[0] != 0
    ensures 1 + d[0] <= |d| && Fold(d) == [d[0]] + Fold(d[1..1 + d[0]]) + Fold(d[1 + d[0]..])
  {
    Heads(d);
    FoldParts(d, 1 + d[0]);
    FoldLength(d);
  }

  lemma FoldLength(d: seq<byte>)
    requires d != [] && d[0] <= MAX_LABEL
    ensures Fold(d[..1]) == [d[0]]
  {
  }

  lemma FoldParts(d: seq<byte>, n: nat)
    requires 1 <= n <= |d|
    ensures Fold(d) == Fold(d[..1]) + Fold(d[1..n]) + Fold(d[n..])
  {
    assert |Fold(d)| == |d|;
    FoldSlice(d, 0, 1);
    FoldSlice(d, 1, n);
    FoldSlice(d, n, |d|);
    hide Fold;
    ThreeParts(Fold(d), n);
    assert d[0..1] == d[..1] && d[n..|d|] == d[n..];
  }

  lemma ThreeParts<T>(s: seq<T>, n: nat)
    requires 1 <= n <= |s|
    ensures s == s[0..1] + s[1..n] + s[n..|s|]
  {
  }

  lemma FoldTwice(d: seq<byte>)
    ensures Fold(Fold(d)) == Fold(d)
  {
    forall i | 0 <= i < |d|
      ensures Fold(Fold(d))[i] == Fold(d)[i]
    {
      assert Fold(Fold(d))[i] == Lower(Lower(d[i]));
    }
  }

  lemma ParseRoot()
    ensures Parse([DOT], [], []) == Some([0])
  {
    assert [DOT][1..] == [];
    assert Parse([], [], []) == End([], []) == Some([0]) by { Nothing<byte>([0]); }
  }

  /** A well-formed name that is printed and parsed comes back with its letters in lower case, and so as the same name. */
  lemma RoundTrip(d: seq<byte>)
    requires WellFormed(d) && |d| <= MAX_NAME
    ensures Parse(Text(d), [], []) == Some(Fold(d)) && Same(Fold(d), d)
  {
    FoldTwice(d);
    if d[0] == 0 {
      NotEmpty(d);
      FoldRoot();
      ParseRoot();
    } else {
      ParseLabels(d, []);
      assert [] + Fold(d) == Fold(d);
    }
  }
}
