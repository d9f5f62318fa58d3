/** Bytes, and the little-endian 16 and 32 bit words the ImageBytes layout is made of. */
module Bytes {
  type byte = x: int | 0 <= x < 256
  type word16 = x: int | 0 <= x < 0x1_0000
  type word32 = x: int | 0 <= x < 0x1_0000_0000
  type int16 = x: int | -0x8000 <= x < 0x8000
  type int32 = x: int | -0x8000_0000 <= x < 0x8000_0000

  /** Go's conversion uint32(x) of a wider or signed integer: keep the low 32 bits. */
  function ToWord32(x: int): (w: word32)
    ensures 0 <= x < 0x1_0000_0000 <==> w == x
  {
    x % 0x1_0000_0000
  }

  /** Go's conversion int32(x) of any integer: the low 32 bits read in two's complement. */
  function ToInt32(x: int): (i: int32)
    ensures -0x8000_0000 <= x < 0x8000_0000 <==> i == x
    ensures (x - i) % 0x1_0000_0000 == 0
  {
    var w := x % 0x1_0000_0000;
    if w < 0x8000_0000 then w else w - 0x1_0000_0000
  }

  /** Go's conversion int16(x). */
  function ToInt16(x: int): (i: int16)
    ensures -0x8000 <= x < 0x8000 <==> i == x
    ensures (x - i) % 0x1_0000 == 0
  {
    var w := x % 0x1_0000;
    if w < 0x8000 then w else w - 0x1_0000
  }

  function Le16(s: seq<byte>, at: nat): word16
    requires at + 2 <= |s|
  {
    var b0: int, b1: int := s[at], s[at + 1];
    b0 + 256 * b1
  }

  function Le32(s: seq<byte>, at: nat): word32
    requires at + 4 <= |s|
  {
    var b0: int, b1: int, b2: int, b3: int := s[at], s[at + 1], s[at + 2], s[at + 3];
    b0 + 0x100 * b1 + 0x1_0000 * b2 + 0x100_0000 * b3
  }

  function Word16Bytes(w: word16): (s: seq<byte>)
    ensures |s| == 2 && Le16(s, 0) == w
  {
    [w % 256, w / 256]
  }

  function Word32Bytes(w: word32): (s: seq<byte>)
    ensures |s| == 4 && Le32(s, 0) == w
  {
    var w1 := w / 256;
    var w2 := w1 / 256;
    [w % 256, w1 % 256, w2 % 256, w2 / 256]
  }

  /** A 32 bit word has only one little-endian spelling. */
  lemma Word32Unique(s: seq<byte>, at: nat)
    requires at + 4 <= |s|
    ensures Word32Bytes(Le32(s, at)) == s[at..at + 4]
  {
    var b0: int, b1: int, b2: int, b3: int := s[at], s[at + 1], s[at + 2], s[at + 3];
    var w: int := Le32(s, at);
    var w1 := b1 + 0x100 * b2 + 0x1_0000 * b3;
    var w2 := b2 + 0x100 * b3;
    assert w == b0 + 256 * w1 && w1 == b1 + 256 * w2;
    assert w / 256 == w1 && w1 / 256 == w2;
    assert s[at..at + 4] == [s[at], s[at + 1], s[at + 2], s[at + 3]];
  }
}
