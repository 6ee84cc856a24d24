/** SHA-1: the streaming implementation against FIPS 180-4, sections 4.1.1, 5.1.1 and 6.1.2. */
module Sha1 {
  import opened Bytes

  // The standard

  function Rotl1(x: bv32): bv32 { (x << 1) | (x >> 31) }

  function Rotl5(x: bv32): bv32 { (x << 5) | (x >> 27) }

  function Rotl30(x: bv32): bv32 { (x << 30) | (x >> 2) }

  function Ch(x: bv32, y: bv32, z: bv32): bv32 { (x & y) ^ (!x & z) }

  function Parity(x: bv32, y: bv32, z: bv32): bv32 { x ^ y ^ z }

  function Maj(x: bv32, y: bv32, z: bv32): bv32 { (x & y) ^ (x & z) ^ (y & z) }

  function Ft(t: nat, x: bv32, y: bv32, z: bv32): bv32 {
    if t < 20 then Ch(x, y, z) else if t < 40 then Parity(x, y, z) else if t < 60 then Maj(x, y, z) else Parity(x, y, z)
  }

  function Kt(t: nat): bv32 {
    if t < 20 then 0x5A827999 else if t < 40 then 0x6ED9EBA1 else if t < 60 then 0x8F1BBCDC else 0xCA62C1D6
  }

  datatype Regs = Regs(a: bv32, b: bv32, c: bv32, d: bv32, e: bv32)

  const INITIAL: Regs := Regs(0x67452301, 0xEFCDAB89, 0x98BADCFE, 0x10325476, 0xC3D2E1F0)

  function Xor4(a: bv32, b: bv32, c: bv32, d: bv32): bv32 { a ^ b ^ c ^ d }

  /** The message schedule. */
  function Wt(block: seq<bv8>, t: nat): bv32
    requires |block| == 64
  {
    if t < 16 then Join(block[4 * t], block[4 * t + 1], block[4 * t + 2], block[4 * t + 3])
    else Rotl1(Xor4(Wt(block, t - 3), Wt(block, t - 8), Wt(block, t - 14), Wt(block, t - 16)))
  }

  function Sum5(a: bv32, b: bv32, c: bv32, d: bv32, e: bv32): bv32 { a + b + c + d + e }

  function Round(r: Regs, t: nat, w: bv32): Regs {
    Regs(Sum5(Rotl5(r.a), Ft(t, r.b, r.c, r.d), r.e, Kt(t), w), r.a, Rotl30(r.b), r.c, r.d)
  }

  /** The registers after the first t rounds. */
  function Rounds(r: Regs, block: seq<bv8>, t: nat): Regs
    requires |block| == 64
    decreases t
  {
    if t == 0 then r else Round(Rounds(r, block, t - 1), t - 1, Wt(block, t - 1))
  }

  function Plus(x: bv32, y: bv32): bv32 { x + y }

  function Compressed(h: Regs, block: seq<bv8>): Regs
    requires |block| == 64
  {
    var r := Rounds(h, block, 80);
    Regs(Plus(h.a, r.a), Plus(h.b, r.b), Plus(h.c, r.c), Plus(h.d, r.d), Plus(h.e, r.e))
  }

  function HashBlocks(h: Regs, data: seq<bv8>): Regs
    decreases |data|
  {
    if |data| < 64 then h else HashBlocks(Compressed(h, data[..64]), data[64..])
  }

  /** The bit length of a message of n bytes as a 64-bit big-endian number. */
  function LengthBytes(n: nat): (s: seq<bv8>)
    ensures |s| == 8
  {
    var bits := (8 * n) % 0x1_0000_0000_0000_0000;
    seq(8, i requires 0 <= i < 8 => LengthByte(bits, 7 - i))
  }

  function LengthByte(bits: nat, i: nat): bv8 {
    ((bits / Power256(i)) % 0x100) as bv8
  }

  function Power256(i: nat): (p: nat)
    ensures p > 0
  {
    if i == 0 then 1 else 0x100 * Power256(i - 1)
  }

  /** The number that bytes stand for, the highest digit first. */
  function BigEndian(s: seq<bv8>): nat {
    if s == [] then 0 else 0x100 * BigEndian(s[..|s| - 1]) + Value(s[|s| - 1])
  }

  lemma PowersOf256()
    ensures Power256(0) == 1 && Power256(1) == 0x100 && Power256(2) == 0x1_0000 && Power256(3) == 0x100_0000
    ensures Power256(4) == 0x1_0000_0000 && Power256(5) == 0x100_0000_0000 && Power256(6) == 0x1_0000_0000_0000
    ensures Power256(7) == 0x100_0000_0000_0000 && Power256(8) == 0x1_0000_0000_0000_0000
  {
    assert Power256(2) == 0x1_0000 && Power256(4) == 0x1_0000_0000 && Power256(6) == 0x1_0000_0000_0000;
  }

  lemma DivideAgain(x: nat, i: nat)
    requires i < 8
    ensures x / Power256(i) / 0x100 == x / Power256(i + 1)
  {
    hide Power256;
    PowersOf256();
    match i
    case 0 =>
    case 1 => assert x / 0x100 / 0x100 == x / 0x1_0000;
    case 2 => assert x / 0x1_0000 / 0x100 == x / 0x100_0000;
    case 3 => assert x / 0x100_0000 / 0x100 == x / 0x1_0000_0000;
    case 4 => assert x / 0x1_0000_0000 / 0x100 == x / 0x100_0000_0000;
    case 5 => assert x / 0x100_0000_0000 / 0x100 == x / 0x1_0000_0000_0000;
    case 6 => assert x / 0x1_0000_0000_0000 / 0x100 == x / 0x100_0000_0000_0000;
    case 7 => assert x / 0x100_0000_0000_0000 / 0x100 == x / 0x1_0000_0000_0000_0000;
  }

  lemma {:induction false} HighDigits(n: nat, k: nat)
    requires k <= 8 && 8 * n < 0x1_0000_0000_0000_0000
    ensures BigEndian(LengthBytes(n)[..k]) == 8 * n / Power256(8 - k)
  {
    hide BigEndian, LengthBytes, LengthByte, Power256;
    var s, bits := LengthBytes(n), 8 * n;
    if k == 0 {
      PowersOf256();
      NoDigits(s[..0]);
    } else {
      HighDigits(n, k - 1);
      LastDigit(n, k - 1);
      var rest := 8 - k;
      DivideAgain(bits, rest);
      assert s[..k][..k - 1] == s[..k - 1];
      OneDigitMore(s[..k]);
    }
  }

  lemma NoDigits(s: seq<bv8>)
    ensures s == [] ==> BigEndian(s) == 0
  {
  }

  lemma OneDigitMore(s: seq<bv8>)
    requires s != []
    ensures BigEndian(s) == 0x100 * BigEndian(s[..|s| - 1]) + Value(s[|s| - 1])
  {
  }

  lemma LastDigit(n: nat, k: nat)
    requires k < 8 && 8 * n < 0x1_0000_0000_0000_0000
    ensures Value(LengthBytes(n)[k]) == 8 * n / Power256(7 - k) % 0x100
  {
    hide Power256, Value, Small, LengthByte;
    LengthByteIsSmall(8 * n, 7 - k);
    SmallRoundTrip(8 * n / Power256(7 - k) % 0x100);
  }

  lemma LengthByteIsSmall(bits: nat, i: nat)
    ensures LengthByte(bits, i) == Small((bits / Power256(i)) % 0x100)
  {
  }

  /** The last eight bytes of the padding are the length of the message in bits. */
  lemma LengthIsBigEndian(n: nat)
    requires 8 * n < 0x1_0000_0000_0000_0000
    ensures BigEndian(LengthBytes(n)) == 8 * n
  {
    hide LengthBytes, BigEndian, Power256;
    HighDigits(n, 8);
    PowersOf256();
    assert LengthBytes(n)[..8] == LengthBytes(n);
  }

  function Pad(msg: seq<bv8>): seq<bv8> {
    msg + [0x80] + Zeros((119 - |msg| % 64) % 64) + LengthBytes(|msg|)
  }

  function DigestBytes(h: Regs): (s: seq<bv8>)
    ensures |s| == 20
  {
    Be32(h.a) + Be32(h.b) + Be32(h.c) + Be32(h.d) + Be32(h.e)
  }

  /** The SHA-1 digest of a message. */
  function Digest(msg: seq<bv8>): (s: seq<bv8>)
    ensures |s| == 20
  {
    DigestBytes(HashBlocks(INITIAL, Pad(msg)))
  }

  lemma {:induction false} HashConcat(h: Regs, p: seq<bv8>, q: seq<bv8>)
    requires |p| % 64 == 0
    ensures HashBlocks(h, p + q) == HashBlocks(HashBlocks(h, p), q)
    decreases |p|
  {
    hide Compressed;
    if p == [] {
      assert p + q == q;
    } else {
      assert (p + q)[..64] == p[..64] && (p + q)[64..] == p[64..] + q;
      HashConcat(Compressed(h, p[..64]), p[64..], q);
    }
  }

  lemma HashOne(h: Regs, block: seq<bv8>)
    requires |block| == 64
    ensures HashBlocks(h, block) == Compressed(h, block)
  {
    hide Compressed;
    assert block[..64] == block && block[64..] == [];
  }

  // The round functions of the code

  function F0(x: bv32, y: bv32, z: bv32): bv32 { z ^ (x & (y ^ z)) }

  function F2(x: bv32, y: bv32, z: bv32): bv32 { (x & y) | (z & (x | y)) }

  lemma ChooseBits(x: bv32, y: bv32, z: bv32)
    ensures z ^ (x & (y ^ z)) == (x & y) ^ (!x & z)
  {
  }

  lemma MajorityBits(x: bv32, y: bv32, z: bv32)
    ensures (x & y) | (z & (x | y)) == (x & y) ^ (x & z) ^ (y & z)
  {
  }

  lemma F0IsCh(x: bv32, y: bv32, z: bv32)
    ensures F0(x, y, z) == Ch(x, y, z)
  {
    ChooseBits(x, y, z);
  }

  lemma F2IsMaj(x: bv32, y: bv32, z: bv32)
    ensures F2(x, y, z) == Maj(x, y, z)
  {
    MajorityBits(x, y, z);
  }

  /** The assignment to `e` in the macros FF_0 .. FF_3, with their functions and constants. */
  function Ff0(a: bv32, b: bv32, c: bv32, d: bv32, e: bv32, w: bv32): bv32 {
    Sum5(Rotl5(a), F0(b, c, d), e, w, 0x5A827999)
  }

  function Ff1(a: bv32, b: bv32, c: bv32, d: bv32, e: bv32, w: bv32): bv32 {
    Sum5(Rotl5(a), Parity(b, c, d), e, w, 0x6ED9EBA1)
  }

  function Ff2(a: bv32, b: bv32, c: bv32, d: bv32, e: bv32, w: bv32): bv32 {
    Sum5(Rotl5(a), F2(b, c, d), e, w, 0x8F1BBCDC)
  }

  function Ff3(a: bv32, b: bv32, c: bv32, d: bv32, e: bv32, w: bv32): bv32 {
    Sum5(Rotl5(a), Parity(b, c, d), e, w, 0xCA62C1D6)
  }

  lemma SumSwaps(a: bv32, b: bv32, c: bv32, d: bv32, e: bv32)
    ensures Sum5(a, b, c, d, e) == Sum5(a, b, c, e, d)
  {
  }

  lemma RoundsStart(h: Regs, block: seq<bv8>)
    requires |block| == 64
    ensures Rounds(h, block, 0) == h
  {
  }

  /** The macro of round t. */
  function Ff(t: nat, a: bv32, b: bv32, c: bv32, d: bv32, e: bv32, w: bv32): bv32 {
    if t < 20 then Ff0(a, b, c, d, e, w)
    else if t < 40 then Ff1(a, b, c, d, e, w)
    else if t < 60 then Ff2(a, b, c, d, e, w)
    else Ff3(a, b, c, d, e, w)
  }

  /** One macro call is one round of the standard, with the five variables playing rotated roles. */
  lemma MacroIsRound(a: bv32, b: bv32, c: bv32, d: bv32, e: bv32, t: nat, w: bv32)
    ensures Round(Regs(a, b, c, d, e), t, w) == Regs(Ff(t, a, b, c, d, e, w), a, Rotl30(b), c, d)
  {
    hide Sum5, Rotl5, Rotl30, F0, F2, Ch, Maj, Parity;
    F0IsCh(b, c, d);
    F2IsMaj(b, c, d);
    SumSwaps(Rotl5(a), Ft(t, b, c, d), e, Kt(t), w);
  }

  lemma Advance(h: Regs, block: seq<bv8>, i: nat, a: bv32, b: bv32, c: bv32, d: bv32, e: bv32, w: bv32)
    requires |block| == 64 && Regs(a, b, c, d, e) == Rounds(h, block, i) && w == Wt(block, i)
    ensures Rounds(h, block, i + 1) == Regs(Ff(i, a, b, c, d, e, w), a, Rotl30(b), c, d)
  {
    hide Wt, Ff, Rotl30, Round;
    MacroIsRound(a, b, c, d, e, i, w);
  }

  // The implementation

  class Sha1State {
    var length: nat
    var state: Regs
    var curlen: nat
    var buf: array<bv8>

    /** Everything hashed since initialisation. */
    ghost var message: seq<bv8>

    ghost predicate Valid()
      reads this, buf
    {
      && buf.Length == 64
      && curlen < 64 && curlen <= |message| && (|message| - curlen) % 64 == 0
      && length == 8 * (|message| - curlen)
      && state == HashBlocks(INITIAL, message[..|message| - curlen])
      && buf[..curlen] == message[|message| - curlen..]
    }

    /** csp_sha1_init on a fresh state. */
    constructor ()
      ensures Valid() && message == [] && fresh(buf)
    {
      buf := new bv8[64];
      state := INITIAL;
      curlen := 0;
      length := 0;
      message := [];
    }

    /** csp_sha1_compress. */
    method Compress(block: seq<bv8>)
      requires |block| == 64
      modifies this`state
      ensures state == Compressed(old(state), block)
    {
      hide Compressed, Wt, Plus, Rounds;
      var w := Schedule(block);
      RoundsStart(state, block);
      var r := TwentyRounds(state, block, w, 0, state);
      r := TwentyRounds(state, block, w, 20, r);
      r := TwentyRounds(state, block, w, 40, r);
      r := TwentyRounds(state, block, w, 60, r);
      state := Added(state, r, block);
    }

    /** csp_sha1_process. */
    method Process(data: seq<bv8>)
      requires Valid()
      modifies this, buf
      ensures Valid() && buf == old(buf) && message == old(message) + data
    {
      hide HashBlocks, Compressed;
      var n := 0;
      while n < |data|
        invariant n <= |data|
        invariant Valid() && buf == old(buf)
        invariant message == old(message) + data[..n]
      {
        if curlen == 0 && |data| - n >= 64 {
          assert data[..n] + data[n..n + 64] == data[..n + 64];
          TakeBlock(data[n..n + 64]);
          n := n + 64;
        } else {
          var k := if |data| - n < 64 - curlen then |data| - n else 64 - curlen;
          assert data[..n] + data[n..n + k] == data[..n + k];
          TakeBytes(data[n..n + k]);
          n := n + k;
        }
      }
      assert data[..n] == data;
    }

    /** A whole block straight from the input. */
    method TakeBlock(block: seq<bv8>)
      requires Valid() && curlen == 0 && |block| == 64
      modifies this`state, this`length, this`message
      ensures Valid() && message == old(message) + block
    {
      hide HashBlocks, Compressed;
      HashConcat(INITIAL, message, block);
      HashOne(state, block);
      assert message[..|message|] == message;
      Compress(block);
      length := length + 512;
      message := message + block;
      assert message[..|message|] == message;
    }

    /** Some bytes into the buffer, which is compressed when full. */
    method TakeBytes(bytes: seq<bv8>)
      requires Valid() && 0 < |bytes| <= 64 - curlen
      modifies this, buf
      ensures Valid() && buf == old(buf) && message == old(message) + bytes
    {
      hide HashBlocks, Compressed;
      ghost var done := message[..|message| - curlen];
      forall i | 0 <= i < |bytes| {
        buf[curlen + i] := bytes[i];
      }
      curlen := curlen + |bytes|;
      message := message + bytes;
      assert buf[..curlen] == message[|message| - curlen..];
      assert message[..|message| - curlen] == done;
      if curlen == 64 {
        assert buf[..] == buf[..64];
        HashConcat(INITIAL, done, buf[..]);
        HashOne(state, buf[..]);
        assert message == done + buf[..];
        Compress(buf[..]);
        length := length + 512;
        curlen := 0;
        assert message[..|message|] == message;
      }
    }

    /** csp_sha1_done. */
    method Done() returns (out: seq<bv8>)
      requires Valid()
      modifies this, buf
      ensures buf == old(buf) && out == Digest(old(message))
    {
      hide HashBlocks, Compressed, LengthBytes;
      ghost var tail, n := message[|message| - curlen..], |message|;
      ghost var done := message[..n - |tail|];
      assert message == done + tail;
      length := length + curlen * 8;
      ghost var before, open := MarkEnd(done, tail);
      ZeroFill(56);
      StoreLength(n);
      PadSplits(message, done, tail, before, open, buf[..]);
      HashConcat(INITIAL, before, buf[..]);
      HashOne(state, buf[..]);
      Compress(buf[..]);
      out := DigestBytes(state);
    }

    /** The 1 bit, and a block of its own for it when the length no longer fits behind it. */
    method MarkEnd(ghost done: seq<bv8>, ghost tail: seq<bv8>) returns (ghost before: seq<bv8>, ghost open: seq<bv8>)
      requires buf.Length == 64 && curlen < 64 && |done| % 64 == 0
      requires state == HashBlocks(INITIAL, done) && buf[..curlen] == tail
      modifies this`state, this`curlen, buf
      ensures curlen <= 56 && buf[..curlen] == open
      ensures state == HashBlocks(INITIAL, before) && |before| % 64 == 0
      ensures if |tail| + 1 > 56
              then open == [] && before == done + (tail + [0x80] + Zeros(63 - |tail|))
              else open == tail + [0x80] && before == done
    {
      hide HashBlocks, Compressed;
      before := done;
      buf[curlen] := 0x80;
      curlen := curlen + 1;
      assert buf[..curlen] == tail + [0x80];
      if curlen > 56 {
        ZeroFill(64);
        assert buf[..] == buf[..64];
        HashConcat(INITIAL, done, buf[..]);
        HashOne(state, buf[..]);
        Compress(buf[..]);
        before := done + buf[..];
        curlen := 0;
      }
      open := buf[..curlen];
    }

    /** The loops that write zeros up to a limit. */
    method ZeroFill(limit: nat)
      requires buf.Length == 64 && curlen <= limit <= 64
      modifies this`curlen, buf
      ensures curlen == limit && buf[..limit] == old(buf[..curlen]) + Zeros(limit - old(curlen))
    {
      while curlen < limit
        invariant old(curlen) <= curlen <= limit
        invariant buf[..curlen] == old(buf[..curlen]) + Zeros(curlen - old(curlen))
      {
        buf[curlen] := 0;
        curlen := curlen + 1;
      }
    }

    /** STORE64H(length, buf + 56). */
    method StoreLength(ghost n: nat)
      requires buf.Length == 64 && length == 8 * n
      modifies buf
      ensures buf[..] == old(buf[..56]) + LengthBytes(n)
    {
      var bits := length % 0x1_0000_0000_0000_0000;
      ghost var want := LengthBytes(n);
      assert forall j | 0 <= j < 8 :: want[j] == LengthByte(bits, 7 - j);
      hide LengthByte, LengthBytes;
      for i := 0 to 8
        invariant buf[..56 + i] == old(buf[..56]) + want[..i]
      {
        buf[56 + i] := LengthByte(bits, 7 - i);
      }
      assert buf[..] == buf[..64];
    }
  }

  /** W[0..79]: load sixteen words, then expand. */
  method Schedule(block: seq<bv8>) returns (w: array<bv32>)
    requires |block| == 64
    ensures fresh(w) && w.Length == 80 && forall t | 0 <= t < 80 :: w[t] == Wt(block, t)
  {
    hide Join, Rotl1, Xor4;
    w := new bv32[80];
    for i := 0 to 16
      invariant forall t | 0 <= t < i :: w[t] == Wt(block, t)
    {
      w[i] := Join(block[4 * i], block[4 * i + 1], block[4 * i + 2], block[4 * i + 3]);
    }
    for i := 16 to 80
      invariant forall t | 0 <= t < i :: w[t] == Wt(block, t)
    {
      w[i] := Rotl1(Xor4(w[i - 3], w[i - 8], w[i - 14], w[i - 16]));
    }
  }

  /**
   * Each of the four loops: a turn makes five rounds, after which every variable has its old role again.  The loops
   * differ in their macros only.
   */
  method TwentyRounds(h: Regs, block: seq<bv8>, w: array<bv32>, start: nat, before: Regs) returns (r: Regs)
    requires |block| == 64 && w.Length == 80 && forall t | 0 <= t < 80 :: w[t] == Wt(block, t)
    requires start <= 60 && start % 20 == 0 && before == Rounds(h, block, start)
    ensures r == Rounds(h, block, start + 20)
  {
    hide Wt, Ff, Rotl30, Rounds;
    var a, b, c, d, e := before.a, before.b, before.c, before.d, before.e;
    var i := start;
    while i < start + 20
      invariant start <= i <= start + 20 && i % 5 == 0
      invariant Regs(a, b, c, d, e) == Rounds(h, block, i)
    {
      assert i + 5 <= start + 20;
      Advance(h, block, i, a, b, c, d, e, w[i]);
      e := Ff(i, a, b, c, d, e, w[i]);
      b := Rotl30(b);
      i := i + 1;
      Advance(h, block, i, e, a, b, c, d, w[i]);
      d := Ff(i, e, a, b, c, d, w[i]);
      a := Rotl30(a);
      i := i + 1;
      Advance(h, block, i, d, e, a, b, c, w[i]);
      c := Ff(i, d, e, a, b, c, w[i]);
      e := Rotl30(e);
      i := i + 1;
      Advance(h, block, i, c, d, e, a, b, w[i]);
      b := Ff(i, c, d, e, a, b, w[i]);
      d := Rotl30(d);
      i := i + 1;
      Advance(h, block, i, b, c, d, e, a, w[i]);
      a := Ff(i, b, c, d, e, a, w[i]);
      c := Rotl30(c);
      i := i + 1;
    }
    r := Regs(a, b, c, d, e);
  }

  method Added(h: Regs, r: Regs, block: seq<bv8>) returns (s: Regs)
    requires |block| == 64 && r == Rounds(h, block, 80)
    ensures s == Compressed(h, block)
  {
    hide Rounds, Plus;
    s := Regs(Plus(h.a, r.a), Plus(h.b, r.b), Plus(h.c, r.c), Plus(h.d, r.d), Plus(h.e, r.e));
  }

  /** The one or two blocks csp_sha1_done compresses are the end of the padded message. */
  lemma PadSplits(msg: seq<bv8>, done: seq<bv8>, tail: seq<bv8>, before: seq<bv8>, open: seq<bv8>, last: seq<bv8>)
    requires msg == done + tail && |done| % 64 == 0 && |tail| < 64
    requires |open| <= 56 && last == open + Zeros(56 - |open|) + LengthBytes(|msg|)
    requires if |tail| + 1 > 56
             then open == [] && before == done + (tail + [0x80] + Zeros(63 - |tail|))
             else open == tail + [0x80] && before == done
    ensures before + last == Pad(msg)
  {
    hide LengthBytes;
    assert |msg| % 64 == |tail|;
    if |tail| + 1 > 56 {
      assert Zeros(63 - |tail|) + Zeros(56) == Zeros(119 - |tail|);
    }
  }

  function Flatten(pieces: seq<seq<bv8>>): seq<bv8> {
    if pieces == [] then [] else Flatten(pieces[..|pieces| - 1]) + pieces[|pieces| - 1]
  }

  lemma FlattenNext(pieces: seq<seq<bv8>>, i: nat)
    requires i < |pieces|
    ensures Flatten(pieces[..i + 1]) == Flatten(pieces[..i]) + pieces[i]
  {
    assert pieces[..i + 1][..i] == pieces[..i];
  }

  lemma FlattenEnds(pieces: seq<seq<bv8>>)
    ensures Flatten(pieces[..0]) == [] && Flatten(pieces[..|pieces|]) == Flatten(pieces)
  {
    assert pieces[..|pieces|] == pieces;
  }

  /** However a message is cut into pieces for csp_sha1_process, the result is the digest of the whole. */
  method HashInPieces(pieces: seq<seq<bv8>>) returns (hash: seq<bv8>)
    ensures hash == Digest(Flatten(pieces))
  {
    hide Digest, Flatten, HashBlocks;
    FlattenEnds(pieces);
    var md := new Sha1State();
    for i := 0 to |pieces|
      invariant md.Valid() && fresh(md) && fresh(md.buf)
      invariant md.message == Flatten(pieces[..i])
    {
      FlattenNext(pieces, i);
      md.Process(pieces[i]);
    }
    hash := md.Done();
  }
}
