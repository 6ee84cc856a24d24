/** XTEA in counter mode: the keystream, and why decryption over the appended nonce restores the data. */
module Xtea {
  import opened Bytes
  import opened Packets

  // The block cipher

  function Load32L(s: seq<bv8>, i: nat): bv32
    requires i + 4 <= |s|
  {
    Join(s[i + 3], s[i + 2], s[i + 1], s[i])
  }

  function Store32L(w: bv32): (s: seq<bv8>)
    ensures |s| == 4
  {
    [Byte0(w), Byte1(w), Byte2(w), Byte3(w)]
  }

  function KeyWord(key: seq<bv8>, i: bv32): bv32
    requires |key| == 16
  {
    if i & 3 == 0 then Load32L(key, 0) else if i & 3 == 1 then Load32L(key, 4)
    else if i & 3 == 2 then Load32L(key, 8) else Load32L(key, 12)
  }

  function Mix(v: bv32, sum: bv32, k: bv32): bv32 {
    (((v << 4) ^ (v >> 5)) + v) ^ (sum + k)
  }

  function Add(a: bv32, b: bv32): bv32 { a + b }

  function Shifted(sum: bv32): bv32 { sum >> 11 }

  const DELTA: bv32 := 0x9E3779B9

  datatype Cycle = Cycle(v0: bv32, v1: bv32, sum: bv32)

  function NextCycle(c: Cycle, key: seq<bv8>): Cycle
    requires |key| == 16
  {
    var v0 := Add(c.v0, Mix(c.v1, c.sum, KeyWord(key, c.sum)));
    var sum := Add(c.sum, DELTA);
    Cycle(v0, Add(c.v1, Mix(v0, sum, KeyWord(key, Shifted(sum)))), sum)
  }

  function Cycles(c: Cycle, key: seq<bv8>, n: nat): Cycle
    requires |key| == 16
    decreases n
  {
    if n == 0 then c else NextCycle(Cycles(c, key, n - 1), key)
  }

  function Cipher(block: seq<bv8>, key: seq<bv8>): (s: seq<bv8>)
    requires |block| == 8 && |key| == 16
    ensures |s| == 8
  {
    var c := Cycles(Cycle(Load32L(block, 0), Load32L(block, 4), 0), key, 32);
    Store32L(c.v0) + Store32L(c.v1)
  }

  /** csp_xtea_encrypt_block. */
  method EncryptBlock(block: array<bv8>, key: seq<bv8>)
    requires block.Length == 8 && |key| == 16
    modifies block
    ensures block[..] == Cipher(old(block[..]), key)
  {
    hide Add, Mix, KeyWord, Shifted, Join, Load32L, Store32L;
    ghost var start := Cycle(Load32L(block[..], 0), Load32L(block[..], 4), 0);
    var v0, v1, sum := Load32L(block[..], 0), Load32L(block[..], 4), 0 as bv32;
    for i := 0 to 32
      invariant Cycle(v0, v1, sum) == Cycles(start, key, i)
    {
      v0 := Add(v0, Mix(v1, sum, KeyWord(key, sum)));
      sum := Add(sum, DELTA);
      v1 := Add(v1, Mix(v0, sum, KeyWord(key, Shifted(sum))));
    }
    StorePair(block, Store32L(v0), Store32L(v1));
  }

  /** Two words, already as bytes, into a block. */
  method StorePair(block: array<bv8>, x: seq<bv8>, y: seq<bv8>)
    requires block.Length == 8 && |x| == 4 && |y| == 4
    modifies block
    ensures block[..] == x + y
  {
    forall i | 0 <= i < 8 {
      block[i] := if i < 4 then x[i] else y[i - 4];
    }
  }

  // Counter mode

  /** The counter of block i: it is used before it is incremented, and the first increment comes after block 1. */
  function Counter(first: bv32, i: nat): bv32
    decreases i
  {
    if i <= 1 then first else Add(Counter(first, i - 1), 1)
  }

  function Keystream(key: seq<bv8>, nonce: bv32, i: nat): (s: seq<bv8>)
    requires |key| == 16
    ensures |s| == 8
  {
    Cipher(Be32(nonce) + Be32(Counter(1, i)), key)
  }

  /** The block cipher is put in terms of the keystream, for callers that hide both. */
  lemma KeystreamIs(key: seq<bv8>, nonce: bv32, i: nat)
    requires |key| == 16
    ensures Keystream(key, nonce, i) == Cipher(Be32(nonce) + Be32(Counter(1, i)), key)
  {
  }

  function XorByte(a: bv8, b: bv8): bv8 { a ^ b }

  function Crypt(s: seq<bv8>, key: seq<bv8>, nonce: bv32): (r: seq<bv8>)
    requires |key| == 16
    ensures |r| == |s|
  {
    seq(|s|, j requires 0 <= j < |s| => XorByte(s[j], Keystream(key, nonce, j / 8)[j % 8]))
  }

  lemma XorByteIs(a: bv8, b: bv8)
    ensures XorByte(a, b) ^ a == b && XorByte(0, b) == b
  {
  }

  /** What the cipher changes in the data is the keystream: byte j of it comes from block j / 8. */
  lemma CryptAddsKeystream(s: seq<bv8>, key: seq<bv8>, nonce: bv32, j: nat)
    requires |key| == 16 && j < |s|
    ensures Crypt(s, key, nonce)[j] ^ s[j] == Keystream(key, nonce, j / 8)[j % 8]
  {
    hide Keystream, XorByte;
    XorByteIs(s[j], Keystream(key, nonce, j / 8)[j % 8]);
  }

  /** In particular zeros are encrypted as the keystream itself. */
  lemma CryptOfZeros(n: nat, key: seq<bv8>, nonce: bv32, j: nat)
    requires |key| == 16 && j < n
    ensures Crypt(Zeros(n), key, nonce)[j] == Keystream(key, nonce, j / 8)[j % 8]
  {
    hide Keystream, XorByte;
    XorByteIs(0, Keystream(key, nonce, j / 8)[j % 8]);
  }

  // When two blocks are encrypted with the same keystream

  function Sub(a: bv32, b: bv32): bv32 { a - b }

  lemma SubUndoes(a: bv32, k: bv32)
    ensures Sub(a + k, k) == a
  {
  }

  lemma SubUndoesAdd(a: bv32, k: bv32)
    ensures Sub(Add(a, k), k) == a
  {
    hide Sub;
    SubUndoes(a, k);
  }

  lemma AddCancels(a: bv32, b: bv32, k: bv32)
    requires Add(a, k) == Add(b, k)
    ensures a == b
  {
    hide Add, Sub;
    SubUndoesAdd(a, k);
    SubUndoesAdd(b, k);
  }

  lemma CycleIsInjective(c: Cycle, d: Cycle, key: seq<bv8>)
    requires |key| == 16 && NextCycle(c, key) == NextCycle(d, key)
    ensures c == d
  {
    hide Add, Mix, KeyWord, Shifted;
    AddCancels(c.sum, d.sum, DELTA);
    var n := NextCycle(c, key);
    AddCancels(c.v1, d.v1, Mix(n.v0, n.sum, KeyWord(key, Shifted(n.sum))));
    AddCancels(c.v0, d.v0, Mix(c.v1, c.sum, KeyWord(key, c.sum)));
  }

  lemma {:induction false} CyclesAreInjective(c: Cycle, d: Cycle, key: seq<bv8>, n: nat)
    requires |key| == 16 && Cycles(c, key, n) == Cycles(d, key, n)
    ensures c == d
    decreases n
  {
    hide NextCycle;
    if n > 0 {
      CycleIsInjective(Cycles(c, key, n - 1), Cycles(d, key, n - 1), key);
      CyclesAreInjective(c, d, key, n - 1);
    }
  }

  lemma StoreIsInjective(v: bv32, w: bv32)
    requires Store32L(v) == Store32L(w)
    ensures v == w
  {
    hide Join, Byte3, Byte2, Byte1, Byte0;
    assert Store32L(v)[0] == Store32L(w)[0] && Store32L(v)[1] == Store32L(w)[1];
    assert Store32L(v)[2] == Store32L(w)[2] && Store32L(v)[3] == Store32L(w)[3];
    JoinBytes(v);
    JoinBytes(w);
  }

  lemma LoadIsInjective(x: seq<bv8>, y: seq<bv8>, i: nat)
    requires i + 4 <= |x| && i + 4 <= |y| && Load32L(x, i) == Load32L(y, i)
    ensures x[i] == y[i] && x[i + 1] == y[i + 1] && x[i + 2] == y[i + 2] && x[i + 3] == y[i + 3]
  {
    hide Join, Byte3, Byte2, Byte1, Byte0;
    BytesJoin(x[i + 3], x[i + 2], x[i + 1], x[i]);
    BytesJoin(y[i + 3], y[i + 2], y[i + 1], y[i]);
  }

  /** The 32 cycles lose nothing: different blocks are encrypted differently under every key. */
  lemma CipherIsInjective(x: seq<bv8>, y: seq<bv8>, key: seq<bv8>)
    requires |x| == 8 && |y| == 8 && |key| == 16
    ensures Cipher(x, key) == Cipher(y, key) <==> x == y
  {
    hide Load32L, Store32L, Cycles;
    if Cipher(x, key) == Cipher(y, key) {
      var c, d := Cycle(Load32L(x, 0), Load32L(x, 4), 0), Cycle(Load32L(y, 0), Load32L(y, 4), 0);
      var e, f := Cycles(c, key, 32), Cycles(d, key, 32);
      assert Cipher(x, key)[..4] == Store32L(e.v0) && Cipher(y, key)[..4] == Store32L(f.v0);
      assert Cipher(x, key)[4..] == Store32L(e.v1) && Cipher(y, key)[4..] == Store32L(f.v1);
      StoreIsInjective(e.v0, f.v0);
      StoreIsInjective(e.v1, f.v1);
      SumAfter(c, d, key, 32);
      CyclesAreInjective(c, d, key, 32);
      LoadIsInjective(x, y, 0);
      LoadIsInjective(x, y, 4);
    }
  }

  lemma {:induction false} SumAfter(c: Cycle, d: Cycle, key: seq<bv8>, n: nat)
    requires |key| == 16 && c.sum == d.sum
    ensures Cycles(c, key, n).sum == Cycles(d, key, n).sum
    decreases n
  {
    hide Add, Mix, KeyWord, Shifted;
    if n > 0 {
      SumAfter(c, d, key, n - 1);
    }
  }

  // How the increment carries

  lemma NoCarry(w: bv32)
    requires Byte0(w) != 255
    ensures Byte3(Add(w, 1)) == Byte3(w) && Byte2(Add(w, 1)) == Byte2(w) && Byte1(Add(w, 1)) == Byte1(w)
    ensures Byte0(Add(w, 1)) == Inc(Byte0(w))
  {
  }

  lemma CarryOne(w: bv32)
    requires Byte0(w) == 255 && Byte1(w) != 255
    ensures Byte3(Add(w, 1)) == Byte3(w) && Byte2(Add(w, 1)) == Byte2(w) && Byte1(Add(w, 1)) == Inc(Byte1(w))
    ensures Byte0(Add(w, 1)) == 0
  {
  }

  lemma CarryTwo(w: bv32)
    requires Byte0(w) == 255 && Byte1(w) == 255 && Byte2(w) != 255
    ensures Byte3(Add(w, 1)) == Byte3(w) && Byte2(Add(w, 1)) == Inc(Byte2(w)) && Byte1(Add(w, 1)) == 0
    ensures Byte0(Add(w, 1)) == 0
  {
  }

  lemma CarryThree(w: bv32)
    requires Byte0(w) == 255 && Byte1(w) == 255 && Byte2(w) == 255
    ensures Byte3(Add(w, 1)) == Inc(Byte3(w)) && Byte2(Add(w, 1)) == 0 && Byte1(Add(w, 1)) == 0
    ensures Byte0(Add(w, 1)) == 0
  {
  }

  lemma Wraps(b: bv8)
    requires b == 255
    ensures Inc(b) == 0
  {
  }

  lemma NumberSteps(w: bv32)
    ensures Number(Add(w, 1)) == if Number(w) == 0xFFFF_FFFF then 0 else Number(w) + 1
  {
    hide Add, Inc, Value, Byte3, Byte2, Byte1, Byte0;
    ValueEnds();
    if Byte0(w) != 255 {
      NoCarry(w);
      NextValue(Byte0(w));
    } else if Byte1(w) != 255 {
      CarryOne(w);
      NextValue(Byte1(w));
    } else if Byte2(w) != 255 {
      CarryTwo(w);
      NextValue(Byte2(w));
    } else {
      CarryThree(w);
      if Byte3(w) == 255 { Wraps(Byte3(w)); } else { NextValue(Byte3(w)); }
    }
  }

  lemma NumberFits(w: bv32)
    ensures Number(w) < 0x1_0000_0000
  {
    hide Value, Byte3, Byte2, Byte1, Byte0;
    ValueEnds();
  }

  lemma NextNumber(w: bv32)
    ensures Number(Add(w, 1)) == (Number(w) + 1) % 0x1_0000_0000
  {
    hide Add, Number;
    NumberSteps(w);
    NumberFits(w);
  }

  lemma {:induction false} CounterIsNumber(i: nat)
    ensures Number(Counter(1, i)) == CounterNumber(i)
    decreases i
  {
    hide Add, Number;
    if i > 1 {
      CounterIsNumber(i - 1);
      NextNumber(Counter(1, i - 1));
    } else {
      NumberOfOne();
    }
  }

  lemma NumberOfOne()
    ensures Number(1) == 1
  {
  }

  /** The number the counter of block i stands for. */
  function CounterNumber(i: nat): nat {
    (if i <= 1 then 1 else i) % 0x1_0000_0000
  }

  lemma Be32IsInjective(v: bv32, w: bv32)
    requires Be32(v) == Be32(w)
    ensures v == w
  {
    hide Be32, ReadBe32;
    Be32RoundTrip(v);
    Be32RoundTrip(w);
  }

  /**
   * Two blocks, of one packet or of two, are encrypted with the same keystream exactly when the nonces agree and the
   * block numbers do modulo 2^32, where block 0 counts as block 1.
   */
  lemma KeystreamRepeatsIff(key: seq<bv8>, m: bv32, n: bv32, i: nat, j: nat)
    requires |key| == 16
    ensures Keystream(key, m, i) == Keystream(key, n, j) <==> m == n && CounterNumber(i) == CounterNumber(j)
  {
    hide Cipher, Counter, CounterNumber, Be32, Number;
    var x, y := Be32(m) + Be32(Counter(1, i)), Be32(n) + Be32(Counter(1, j));
    CipherIsInjective(x, y, key);
    CounterIsNumber(i);
    CounterIsNumber(j);
    if m == n && CounterNumber(i) == CounterNumber(j) {
      SameNumber(Counter(1, i), Counter(1, j));
    }
    if x == y {
      assert x[..4] == Be32(m) && y[..4] == Be32(n) && x[4..] == Be32(Counter(1, i)) && y[4..] == Be32(Counter(1, j));
      Be32IsInjective(m, n);
      Be32IsInjective(Counter(1, i), Counter(1, j));
    }
  }

  /** The first two blocks of a packet share their keystream, and no other two blocks of it do. */
  lemma OnlyFirstBlocksShareKeystream(key: seq<bv8>, nonce: bv32, i: nat, j: nat)
    requires |key| == 16 && i < j < 0x1_0000_0000
    ensures Keystream(key, nonce, i) == Keystream(key, nonce, j) <==> i == 0 && j == 1
  {
    hide Keystream;
    KeystreamRepeatsIff(key, nonce, nonce, i, j);
  }

  /** csp_xtea_xor_byte. */
  method XorBytes(dst: array<bv8>, at: nat, src: array<bv8>, len: nat)
    requires dst != src && at + len <= dst.Length && len <= src.Length
    modifies dst
    ensures forall j | 0 <= j < dst.Length ::
              dst[j] == if at <= j < at + len then XorByte(old(dst[j]), src[j - at]) else old(dst[j])
  {
    hide XorByte;
    for i := 0 to len
      invariant forall j | 0 <= j < dst.Length ::
                  dst[j] == if at <= j < at + i then XorByte(old(dst[j]), src[j - at]) else old(dst[j])
    {
      dst[at + i] := XorByte(dst[at + i], src[i]);
    }
  }

  /** csp_xtea_encrypt (and csp_xtea_decrypt) with the initialisation vector {nonce, 1}. */
  method Encrypt(plain: array<bv8>, len: nat, key: seq<bv8>, nonce: bv32)
    requires |key| == 16 && len <= plain.Length
    modifies plain
    ensures plain[..len] == Crypt(old(plain[..len]), key, nonce)
    ensures plain[len..] == old(plain[len..])
  {
    hide Cipher, XorByte, Add, Be32, Keystream;
    var stream := new bv8[8];
    var iv1: bv32 := 1;
    var blocks := (len + 7) / 8;
    StorePair(stream, Be32(nonce), Be32(iv1));
    for i := 0 to blocks
      invariant iv1 == if i == 0 then 1 else Counter(1, i + 1)
      invariant stream[..] == Be32(nonce) + Be32(Counter(1, i))
      invariant plain[..] == CryptedTo(old(plain[..]), key, nonce, len, 8 * i)
    {
      EncryptBlock(stream, key);
      KeystreamIs(key, nonce, i);
      XorBlock(plain, len, stream, i, key, nonce, old(plain[..]));
      StorePair(stream, Be32(nonce), Be32(iv1));
      iv1 := Add(iv1, 1);
    }
  }

  /** A buffer of which the first `done` bytes, but no more than len, have been encrypted. */
  function CryptedTo(s: seq<bv8>, key: seq<bv8>, nonce: bv32, len: nat, done: nat): (r: seq<bv8>)
    requires |key| == 16
    ensures |r| == |s|
  {
    seq(|s|, j requires 0 <= j < |s| =>
      if j < done && j < len then XorByte(s[j], Keystream(key, nonce, j / 8)[j % 8]) else s[j])
  }

  method XorBlock(plain: array<bv8>, len: nat, stream: array<bv8>, i: nat, key: seq<bv8>, nonce: bv32,
                  ghost s: seq<bv8>)
    requires |key| == 16 && stream.Length == 8 && plain != stream && 8 * i < len <= plain.Length
    requires stream[..] == Keystream(key, nonce, i)
    requires plain[..] == CryptedTo(s, key, nonce, len, 8 * i)
    modifies plain
    ensures plain[..] == CryptedTo(s, key, nonce, len, 8 * (i + 1))
  {
    hide Keystream, XorByte;
    var remain := len - 8 * i;
    XorBytes(plain, len - remain, stream, if remain < 8 then remain else 8);
    forall j | 0 <= j < plain.Length ensures plain[j] == CryptedTo(s, key, nonce, len, 8 * (i + 1))[j] {
      assert old(plain[..])[j] == CryptedTo(s, key, nonce, len, 8 * i)[j];
      if 8 * i <= j < 8 * (i + 1) && j < len {
        assert j / 8 == i && j % 8 == j - 8 * i;
      }
    }
  }

  // Packets

  /** csp_xtea_encrypt_packet: encrypt, append the nonce. */
  method EncryptPacket(packet: Packet, key: seq<bv8>, nonce: bv32) returns (ok: bool)
    requires packet.Valid() && |key| == 16
    modifies packet`length, packet.data
    ensures packet.Valid() && packet.data == old(packet.data)
    ensures ok == (old(packet.length) + 4 <= packet.data.Length)
    ensures packet.Contents() == if ok then Crypt(old(packet.Contents()), key, nonce) + Be32(nonce)
            else old(packet.Contents())
  {
    hide Crypt, Be32;
    if packet.length + 4 > packet.data.Length {
      return false;
    }
    Encrypt(packet.data, packet.length, key, nonce);
    packet.Append(Be32(nonce));
    return true;
  }

  /** What csp_xtea_decrypt_packet makes of a packet's contents. */
  function Decrypted(s: seq<bv8>, key: seq<bv8>): seq<bv8>
    requires |key| == 16 && |s| >= 4
  {
    Crypt(s, key, ReadBe32(s[|s| - 4..]))[..|s| - 4]
  }

  /** csp_xtea_decrypt_packet: the whole packet, nonce included, runs through the cipher. */
  method DecryptPacket(packet: Packet, key: seq<bv8>) returns (ok: bool)
    requires packet.Valid() && |key| == 16
    modifies packet`length, packet.data
    ensures packet.Valid() && packet.data == old(packet.data)
    ensures ok == (old(packet.length) >= 4)
    ensures packet.Contents() == if ok then Decrypted(old(packet.Contents()), key) else old(packet.Contents())
  {
    hide Crypt, ReadBe32;
    if packet.length < 4 {
      return false;
    }
    var nonce := ReadBe32(packet.data[packet.length - 4..packet.length]);
    assert packet.data[packet.length - 4..packet.length] == packet.Contents()[packet.length - 4..];
    Encrypt(packet.data, packet.length, key, nonce);
    packet.Strip(4);
    return true;
  }

  lemma XorTwice(a: bv8, k: bv8)
    ensures XorByte(XorByte(a, k), k) == a
  {
  }

  /** Decryption restores the data although it also scrambles the nonce bytes. */
  lemma CryptRoundTrip(s: seq<bv8>, key: seq<bv8>, nonce: bv32)
    requires |key| == 16
    ensures Decrypted(Crypt(s, key, nonce) + Be32(nonce), key) == s
  {
    hide Keystream, XorByte, Be32, ReadBe32;
    var x := Crypt(s, key, nonce) + Be32(nonce);
    assert x[|x| - 4..] == Be32(nonce);
    Be32RoundTrip(nonce);
    var y := Crypt(x, key, nonce);
    forall j | 0 <= j < |s| ensures y[j] == s[j] {
      XorTwice(s[j], Keystream(key, nonce, j / 8)[j % 8]);
    }
    assert Decrypted(x, key) == y[..|s|];
  }

  lemma XorSplits(a: bv8, b: bv8, k: bv8)
    ensures XorByte(a, k) == XorByte(b, k) <==> a == b
  {
  }

  /** Two ciphertexts under the same nonce differ exactly where the plaintexts do. */
  lemma CryptKeepsPlaces(x: seq<bv8>, y: seq<bv8>, key: seq<bv8>, j: nat)
    requires |key| == 16 && |x| == |y| && |x| >= 4 && x[|x| - 4..] == y[|y| - 4..] && j < |x| - 4
    ensures Decrypted(x, key)[j] == Decrypted(y, key)[j] <==> x[j] == y[j]
  {
    hide Keystream, XorByte, ReadBe32;
    var nonce := ReadBe32(x[|x| - 4..]);
    XorSplits(x[j], y[j], Keystream(key, nonce, j / 8)[j % 8]);
    assert Decrypted(x, key)[j] == Crypt(x, key, nonce)[j] && Decrypted(y, key)[j] == Crypt(y, key, nonce)[j];
  }
}
