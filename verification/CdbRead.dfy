/** Reading a constant database. */
module CdbRead {
  import opened Bytes
  import DjbHash

  /** The part of the reader's state that a search moves. */
  datatype Cursor = Cursor(loop: uint32, khash: uint32, kpos: uint32, hpos: uint32, hslots: uint32)

  datatype Outcome = Found(dpos: uint32, dlen: uint32) | Missing | Failed

  predicate Readable(f: seq<byte>, pos: nat, len: nat) {
    pos <= |f| && |f| - pos >= len
  }

  /** Comparing a key with the file, 32 bytes at a time: None when the file ends first. */
  function Compare(f: seq<byte>, key: seq<byte>, pos: nat): (r: Option<bool>)
    decreases |key|
  {
    if key == [] then Some(true)
    else
      var n := if |key| < 32 then |key| else 32;
      if !Readable(f, pos, n) then None
      else if f[pos..pos + n] != key[..n] then Some(false)
      else Compare(f, key[n..], pos + n)
  }

  lemma {:induction false} CompareInFile(f: seq<byte>, key: seq<byte>, pos: nat)
    requires pos + |key| <= |f|
    ensures Compare(f, key, pos) == Some(f[pos..pos + |key|] == key)
    decreases |key|
  {
    if key != [] {
      var n := if |key| < 32 then |key| else 32;
      CompareInFile(f, key[n..], pos + n);
      assert f[pos..pos + |key|] == f[pos..pos + n] + f[pos + n..pos + |key|];
      assert key == key[..n] + key[n..];
      assert f[pos..pos + |key|][..n] == f[pos..pos + n];
      assert f[pos..pos + |key|][n..] == f[pos + n..pos + |key|];
    }
  }

  /** What the slot under the cursor says about the key. */
  function Examine(f: seq<byte>, key: seq<byte>, khash: uint32, h: uint32, pos: uint32): (o: Outcome) {
    if h != khash then Missing
    else if !Readable(f, pos, 8) then Failed
    else if Get4(f, pos) != |key| then Missing
    else match Compare(f, key, (pos + 8) % WORD)
      case None => Failed
      case Some(same) => if same then Found((pos + 8 + |key|) % WORD, Get4(f, pos + 4)) else Missing
  }

  function Advance(c: Cursor): (c': Cursor)
    requires c.loop < c.hslots
  {
    var kpos := (c.kpos + 8) % WORD;
    c.(loop := c.loop + 1, kpos := if kpos == (c.hpos + c.hslots * 8 % WORD) % WORD then c.hpos else kpos)
  }

  function Probe(f: seq<byte>, key: seq<byte>, c: Cursor): (r: (Outcome, Cursor))
    decreases c.hslots - c.loop
  {
    if c.loop >= c.hslots then (Missing, c)
    else if !Readable(f, c.kpos, 8) then (Failed, c)
    else
      var pos := Get4(f, c.kpos + 4);
      if pos == 0 then (Missing, c)
      else
        var o := Examine(f, key, c.khash, Get4(f, c.kpos), pos);
        if o == Missing then Probe(f, key, Advance(c)) else (o, Advance(c))
  }

  /** One call: the first call for a key looks up its table, later calls go on from where the last one stopped. */
  function Next(f: seq<byte>, key: seq<byte>, c: Cursor): (r: (Outcome, Cursor)) {
    if c.loop != 0 then Probe(f, key, c)
    else
      var h := DjbHash.Of(key);
      var b := 8 * (h % 256);
      if !Readable(f, b, 8) then (Failed, c)
      else
        var slots := Get4(f, b + 4);
        if slots == 0 then (Missing, c.(hslots := 0))
        else
          var hpos := Get4(f, b);
          Probe(f, key, Cursor(0, h, (hpos + (h / 256 % slots) * 8 % WORD) % WORD, hpos, slots))
  }

  lemma LowBits(u: uint32)
    ensures And(u * 8 % WORD, 2047) == 8 * (u % 256)
  {
    assert Pow2(11) == 2048;
    AndAllOnes(u * 8 % WORD, 11);
    LowBitsMod(u);
  }

  lemma LowBitsMod(u: uint32)
    ensures u * 8 % WORD % 2048 == 8 * (u % 256)
  {
  }

  lemma SliceWords(f: seq<byte>, p: nat)
    requires Readable(f, p, 8)
    ensures Get4(f[p..p + 8], 0) == Get4(f, p) && Get4(f[p..p + 8], 4) == Get4(f, p + 4)
  {
  }

  // ---------- the reader ----------

  class Reader {
    /** The bytes of the file; `mapped` when they are all in memory, otherwise reads may fail. */
    const file: seq<byte>
    const mapped: bool
    var c: Cursor
    var dpos: uint32
    var dlen: uint32

    constructor (file: seq<byte>, mapped: bool)
      requires |file| < WORD
      ensures this.file == file && this.mapped == mapped && c.loop == 0
    {
      this.file, this.mapped := file, mapped;
      c := Cursor(0, 0, 0, 0, 0);
      dpos, dlen := 0, 0;
    }

    method FindStart()
      modifies this`c
      ensures c == old(c).(loop := 0)
    {
      c := c.(loop := 0);
    }

    /** Reads a part of the file; `refused` when the system has not let it, which cannot happen to a file in memory. */
    method Read(len: nat, pos: nat) returns (r: Option<seq<byte>>, ghost refused: bool)
      ensures refused ==> !mapped && r == None
      ensures !refused ==> r == if Readable(file, pos, len) then Some(file[pos..pos + len]) else None
    {
      refused := false;
      if mapped {
        if pos > |file| || |file| - pos < len { return None, false; }
        return Some(file[pos..pos + len]), false;
      }
      var interrupted: bool := *;
      if interrupted { return None, true; }
      if pos > |file| || |file| - pos < len { return None, false; }
      return Some(file[pos..pos + len]), false;
    }

    method Match(key: seq<byte>, pos: nat) returns (r: Option<bool>, ghost refused: bool)
      ensures refused ==> !mapped && r == None
      ensures !refused ==> r == Compare(file, key, pos)
    {
      refused := false;
      var i := 0;
      while i < |key|
        invariant 0 <= i <= |key| && !refused
        invariant Compare(file, key, pos) == Compare(file, key[i..], pos + i)
      {
        var n := 32;
        if n > |key| - i { n := |key| - i; }
        assert key[i..][..n] == key[i..i + n] && key[i..][n..] == key[i + n..];
        var buf;
        buf, refused := Read(n, pos + i);
        if buf == None { return None, refused; }
        if buf.value != key[i..i + n] { return Some(false), false; }
        i := i + n;
      }
      return Some(true), false;
    }

    /** Finds the next record of the key; fails when the file ends in what has to be read, or it cannot be read. */
    method FindNext(key: seq<byte>) returns (r: Outcome, ghost refused: bool)
      modifies this`c, this`dpos, this`dlen
      ensures refused ==> !mapped && r == Failed
      ensures !refused ==> (r, c) == Next(file, key, old(c))
      ensures r.Found? ==> dpos == r.dpos && dlen == r.dlen
    {
      hide Get4, Probe, DjbHash.Of;
      if c.loop == 0 {
        var u := DjbHash.Compute(key);
        LowBits(u);
        var buf;
        buf, refused := Read(8, And(u * 8 % WORD, 2047));
        if buf == None { return Failed, refused; }
        SliceWords(file, 8 * (u % 256));
        c := c.(hslots := Get4(buf.value, 4));
        if c.hslots == 0 { return Missing, false; }
        c := c.(hpos := Get4(buf.value, 0), khash := u);
        c := c.(kpos := (c.hpos + (u / 256 % c.hslots) * 8 % WORD) % WORD);
      }
      r, refused := Search(key);
    }

    method Search(key: seq<byte>) returns (r: Outcome, ghost refused: bool)
      modifies this`c, this`dpos, this`dlen
      ensures refused ==> !mapped && r == Failed
      ensures !refused ==> (r, c) == Probe(file, key, old(c))
      ensures r.Found? ==> dpos == r.dpos && dlen == r.dlen
    {
      refused := false;
      while c.loop < c.hslots
        invariant Probe(file, key, c) == Probe(file, key, old(c)) && !refused
        decreases c.hslots - c.loop
      {
        var buf;
        buf, refused := Read(8, c.kpos);
        if buf == None { return Failed, refused; }
        SliceWords(file, c.kpos);
        var h, pos := Get4(buf.value, 0), Get4(buf.value, 4);
        if pos == 0 { return Missing, false; }
        c := Advance(c);
        r, refused := Check(key, h, pos);
        if r != Missing {
          if r.Found? { dpos, dlen := r.dpos, r.dlen; }
          return r, refused;
        }
      }
      return Missing, false;
    }

    method Check(key: seq<byte>, h: uint32, pos: uint32) returns (r: Outcome, ghost refused: bool)
      ensures refused ==> !mapped && r == Failed
      ensures !refused ==> r == Examine(file, key, c.khash, h, pos)
    {
      refused := false;
      if h != c.khash { return Missing, false; }
      var buf;
      buf, refused := Read(8, pos);
      if buf == None { return Failed, refused; }
      SliceWords(file, pos);
      if Get4(buf.value, 0) != |key| { return Missing, false; }
      var same;
      same, refused := Match(key, (pos + 8) % WORD);
      if same == None { return Failed, refused; }
      if !same.value { return Missing, false; }
      return Found((pos + 8 + |key|) % WORD, Get4(buf.value, 4)), false;
    }
  }
}
