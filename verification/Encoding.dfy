/** How 32-bit words lie in memory and on disk: four bytes, least significant first. The file
    system writes its headers, bitmap and directory by casting them to byte arrays. */
module Encoding {
  import opened Sectors

  type int32 = x: int | -0x8000_0000 <= x < 0x8000_0000
  type uint32 = x: int | 0 <= x < 0x1_0000_0000

  /** The unsigned reading of a two's-complement word: the C cast to `unsigned int`. */
  function ToUnsigned(x: int32): uint32 {
    if x < 0 then x + 0x1_0000_0000 else x
  }

  /** The two's-complement reading of an unsigned word: the C cast to `int`. */
  function ToSigned(u: uint32): int32 {
    if u >= 0x8000_0000 then u - 0x1_0000_0000 else u
  }

  /** Byte `j` of a word. */
  function ByteOf(u: uint32, j: int): byte
    requires 0 <= j < 4
  {
    if j == 0 then u % 256
    else if j == 1 then u / 256 % 256
    else if j == 2 then u / 65536 % 256
    else u / 16777216
  }

  /** The word stored at position `at` of a byte sequence. */
  function WordAt(s: seq<byte>, at: nat): uint32
    requires at + 4 <= |s|
  {
    s[at] as int + 256 * s[at + 1] as int + 65536 * s[at + 2] as int + 16777216 * s[at + 3] as int
  }

  lemma WordRoundTrip(u: uint32, s: seq<byte>, at: nat)
    requires at + 4 <= |s|
    requires s[at] == ByteOf(u, 0) && s[at + 1] == ByteOf(u, 1)
    requires s[at + 2] == ByteOf(u, 2) && s[at + 3] == ByteOf(u, 3)
    ensures WordAt(s, at) == u
  {
    assert u / 65536 == u / 256 / 256 && u / 16777216 == u / 65536 / 256;
  }
}
