/** Machine words of the C program as subsets of the mathematical integers, and big-endian byte strings. */
module Words {

  type byte = x: int | 0 <= x < 0x100
  type uint16 = x: int | 0 <= x < 0x1_0000
  type uint32 = x: int | 0 <= x < 0x1_0000_0000

  /** The conversion `(uint16_t)x`. */
  function U16(x: int): uint16 { x % 0x1_0000 }

  /** The conversion `(uint32_t)x`. */
  function U32(x: int): uint32 { x % 0x1_0000_0000 }

  /** The conversion `(int32_t)x` of an unsigned word. */
  function Int32(x: uint32): int {
    if x < 0x8000_0000 then x else x - 0x1_0000_0000
  }

  function Be16(x: uint16): seq<byte> { [x / 0x100, x % 0x100] }

  function Be32(x: uint32): (bytes: seq<byte>)
    ensures |bytes| == 4
  {
    Be16(x / 0x1_0000) + Be16(x % 0x1_0000)
  }

  function Read16(s: seq<byte>, i: nat): uint16
    requires i + 2 <= |s|
  {
    (s[i] as int) * 0x100 + s[i + 1]
  }

  function Read32(s: seq<byte>, i: nat): uint32
    requires i + 4 <= |s|
  {
    (Read16(s, i) as int) * 0x1_0000 + Read16(s, i + 2)
  }

  /** Writing a word big-endian anywhere in a byte string and reading it back gives the word. */
  lemma ReadBe32(pre: seq<byte>, x: uint32, post: seq<byte>)
    ensures Read32(pre + Be32(x) + post, |pre|) == x
  {
    var s := pre + Be32(x) + post;
    assert forall i | 0 <= i < 4 :: s[|pre| + i] == Be32(x)[i];
  }
}
