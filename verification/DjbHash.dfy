/** The hash `h * 33 ^ c` shared by the resolver cache, the constant database and the subscriber list. */
module DjbHash {
  import opened Bytes

  const START: uint32 := 5381

  function Step(h: uint32, c: byte): (r: uint32) {
    XorWord((h + h * 32 % WORD) % WORD, c);
    Xor((h + h * 32 % WORD) % WORD, c)
  }

  /** The hash of a byte string, folded from the left. */
  function Of(s: seq<byte>): (r: uint32) {
    if s == [] then START else Step(Of(s[..|s| - 1]), s[|s| - 1])
  }

  method Compute(s: seq<byte>) returns (h: uint32)
    ensures h == Of(s)
  {
    h := START;
    var i := 0;
    while i < |s|
      invariant 0 <= i <= |s| && h == Of(s[..i])
    {
      assert s[..i + 1][..i] == s[..i];
      h := Step(h, s[i]);
      i := i + 1;
    }
    assert s[..|s|] == s;
  }
}
