/** Big-endian byte strings of machine words, for the modules that work on bits. */
module Bytes {

  function Byte3(w: bv32): bv8 { (w >> 24) as bv8 }

  function Byte2(w: bv32): bv8 { ((w >> 16) & 0xFF) as bv8 }

  function Byte1(w: bv32): bv8 { ((w >> 8) & 0xFF) as bv8 }

  function Byte0(w: bv32): bv8 { (w & 0xFF) as bv8 }

  function Join(b3: bv8, b2: bv8, b1: bv8, b0: bv8): bv32 {
    ((b3 as bv32) << 24) | ((b2 as bv32) << 16) | ((b1 as bv32) << 8) | (b0 as bv32)
  }

  lemma JoinBytes(w: bv32)
    ensures Join(Byte3(w), Byte2(w), Byte1(w), Byte0(w)) == w
  {
  }

  lemma BytesJoin(b3: bv8, b2: bv8, b1: bv8, b0: bv8)
    ensures Byte3(Join(b3, b2, b1, b0)) == b3 && Byte2(Join(b3, b2, b1, b0)) == b2
    ensures Byte1(Join(b3, b2, b1, b0)) == b1 && Byte0(Join(b3, b2, b1, b0)) == b0
  {
  }

  /** csp_hton32 followed by a copy into a byte buffer. */
  function Be32(w: bv32): (s: seq<bv8>)
    ensures |s| == 4
  {
    [Byte3(w), Byte2(w), Byte1(w), Byte0(w)]
  }

  function ReadBe32(s: seq<bv8>): bv32
    requires |s| == 4
  {
    Join(s[0], s[1], s[2], s[3])
  }

  lemma Be32RoundTrip(w: bv32)
    ensures ReadBe32(Be32(w)) == w
  {
    hide Join, Byte3, Byte2, Byte1, Byte0;
    JoinBytes(w);
  }

  // Bytes and words as numbers

  /** The number a byte stands for. */
  function Value(x: bv8): (n: nat)
    ensures n < 0x100
  {
    x as nat
  }

  /** The conversion `(uint8_t)n` of a number that fits. */
  function Small(n: nat): bv8
    requires n < 0x100
  {
    n as bv8
  }

  function Inc(x: bv8): bv8 { x + 1 }

  lemma ValueEnds()
    ensures Value(0) == 0 && Value(255) == 255
  {
  }

  lemma NextValue(x: bv8)
    requires x != 255
    ensures Value(Inc(x)) == Value(x) + 1 && Value(x) < 255
  {
  }

  lemma ValueRoundTrip(x: bv8)
    ensures Small(Value(x)) == x
  {
  }

  lemma {:induction false} ByteOf(n: nat) returns (x: bv8)
    requires n < 0x100
    ensures Value(x) == n
  {
    hide Value, Inc;
    ValueEnds();
    if n == 0 {
      x := 0;
    } else {
      var y := ByteOf(n - 1);
      NextValue(y);
      x := Inc(y);
    }
  }

  lemma SmallRoundTrip(n: nat)
    requires n < 0x100
    ensures Value(Small(n)) == n
  {
    hide Value, Small;
    var x := ByteOf(n);
    ValueRoundTrip(x);
  }

  /** The number a machine word stands for. */
  function Number(w: bv32): nat {
    ((Value(Byte3(w)) * 0x100 + Value(Byte2(w))) * 0x100 + Value(Byte1(w))) * 0x100 + Value(Byte0(w))
  }

  lemma SameValue(b: bv8, c: bv8)
    requires Value(b) == Value(c)
    ensures b == c
  {
    ValueRoundTrip(b);
    ValueRoundTrip(c);
  }

  lemma SameNumber(v: bv32, w: bv32)
    ensures Number(v) == Number(w) <==> v == w
  {
    hide Value, Byte3, Byte2, Byte1, Byte0, Join;
    if Number(v) == Number(w) {
      SameValue(Byte3(v), Byte3(w));
      SameValue(Byte2(v), Byte2(w));
      SameValue(Byte1(v), Byte1(w));
      SameValue(Byte0(v), Byte0(w));
      JoinBytes(v);
      JoinBytes(w);
    }
  }

  /** csp_hton16 followed by a copy into a byte buffer. */
  function Be16(n: nat): (s: seq<bv8>)
    requires n < 0x1_0000
    ensures |s| == 2
  {
    [Small(n / 0x100), Small(n % 0x100)]
  }

  function ReadBe16(s: seq<bv8>): nat
    requires |s| == 2
  {
    0x100 * Value(s[0]) + Value(s[1])
  }

  lemma Be16RoundTrip(n: nat)
    requires n < 0x1_0000
    ensures ReadBe16(Be16(n)) == n
  {
    hide Small, Value;
    SmallRoundTrip(n / 0x100);
    SmallRoundTrip(n % 0x100);
  }

  /** A run of n zero bytes. */
  function Zeros(n: nat): (s: seq<bv8>)
    ensures |s| == n && forall i | 0 <= i < n :: s[i] == 0
  {
    seq(n, i => 0)
  }
}
