/** HMAC-SHA1: csp_hmac_memory against section 2 of RFC 2104. */
module Hmac {
  import opened Bytes
  import opened Sha1

  // The standard

  function XorByte(a: bv8, b: bv8): bv8 { a ^ b }

  function XorAll(s: seq<bv8>, b: bv8): (r: seq<bv8>)
    ensures |r| == |s|
  {
    seq(|s|, i requires 0 <= i < |s| => XorByte(s[i], b))
  }

  /** The key brought to the block size: hashed if longer, then padded with zeros. */
  function BlockKey(key: seq<bv8>): (s: seq<bv8>)
    ensures |s| == 64
  {
    if |key| > 64 then Digest(key) + Zeros(44) else key + Zeros(64 - |key|)
  }

  function HmacSha1(key: seq<bv8>, text: seq<bv8>): (s: seq<bv8>)
    ensures |s| == 20
  {
    var k := BlockKey(key);
    Digest(XorAll(k, 0x5C) + Digest(XorAll(k, 0x36) + text))
  }

  /** A key of up to a block stands in front of zeros, a longer one's digest does. */
  lemma KeysOfABlock(key: seq<bv8>)
    ensures |key| <= 64 ==> BlockKey(key)[..|key|] == key && BlockKey(key)[|key|..] == Zeros(64 - |key|)
    ensures |key| > 64 ==> BlockKey(key)[..20] == Digest(key) && BlockKey(key)[20..] == Zeros(44)
  {
    hide Digest;
  }

  // The implementation

  method PadKey(key: array<bv8>, pad: bv8) returns (buf: array<bv8>)
    requires key.Length == 64
    ensures fresh(buf) && buf.Length == 64 && buf[..] == XorAll(key[..], pad)
  {
    hide XorByte;
    buf := new bv8[64];
    for i := 0 to 64
      invariant buf.Length == 64 && buf[..i] == XorAll(key[..], pad)[..i]
    {
      buf[i] := XorByte(key[i], pad);
    }
    assert buf[..] == buf[..64];
  }

  method ExpandKey(secret: seq<bv8>) returns (key: array<bv8>)
    requires |secret| > 0
    ensures fresh(key) && key.Length == 64 && key[..] == BlockKey(secret)
  {
    hide Digest;
    key := new bv8[64];
    var s := secret;
    if |secret| > 64 {
      s := Sha1Memory(secret);
    }
    forall i | 0 <= i < 64 {
      key[i] := if i < |s| then s[i] else 0;
    }
    assert key[..] == s + Zeros(64 - |s|);
  }

  class HmacState {
    var md: Sha1State
    var key: array<bv8>

    ghost predicate Valid(secret: seq<bv8>, text: seq<bv8>)
      reads this, md, md.buf, key
    {
      && md.Valid() && key.Length == 64 && key != md.buf
      && key[..] == BlockKey(secret)
      && md.message == XorAll(key[..], 0x36) + text
    }

    /** csp_hmac_init for a key that is not empty. */
    constructor (secret: seq<bv8>)
      requires |secret| > 0
      ensures Valid(secret, []) && fresh(md) && fresh(md.buf) && fresh(key)
    {
      var k := ExpandKey(secret);
      var m := new Sha1State();
      var buf := PadKey(k, 0x36);
      m.Process(buf[..]);
      assert [] + XorAll(k[..], 0x36) == XorAll(k[..], 0x36) + [];
      key, md := k, m;
      new;
      hide XorAll, BlockKey, HashBlocks;
    }

    /** csp_hmac_process. */
    method Process(data: seq<bv8>, ghost secret: seq<bv8>, ghost text: seq<bv8>)
      requires Valid(secret, text)
      modifies md, md.buf
      ensures Valid(secret, text + data) && md == old(md) && key == old(key) && md.buf == old(md.buf)
    {
      hide XorAll, BlockKey, HashBlocks;
      md.Process(data);
      assert XorAll(key[..], 0x36) + text + data == XorAll(key[..], 0x36) + (text + data);
    }

    /** csp_hmac_done. */
    method Done(ghost secret: seq<bv8>, ghost text: seq<bv8>) returns (out: seq<bv8>)
      requires Valid(secret, text)
      modifies this, md, md.buf
      ensures out == HmacSha1(secret, text)
    {
      hide XorAll, BlockKey, Digest, HashBlocks;
      var inner := md.Done();
      var buf := PadKey(key, 0x5C);
      md := new Sha1State();
      ghost var k := BlockKey(secret);
      md.Process(buf[..]);
      md.Process(inner);
      assert [] + XorAll(k, 0x5C) + inner == XorAll(k, 0x5C) + inner;
      out := md.Done();
    }
  }

  /** csp_sha1_memory. */
  method Sha1Memory(msg: seq<bv8>) returns (hash: seq<bv8>)
    ensures hash == Digest(msg)
  {
    hide Digest;
    var md := new Sha1State();
    md.Process(msg);
    assert [] + msg == msg;
    hash := md.Done();
  }

  /** csp_hmac_memory: refused for an empty key, the HMAC otherwise. */
  method HmacMemory(key: seq<bv8>, data: seq<bv8>) returns (ok: bool, hmac: seq<bv8>)
    ensures ok == (|key| > 0)
    ensures hmac == if ok then HmacSha1(key, data) else []
  {
    if |key| < 1 {
      return false, [];
    }
    var state := new HmacState(key);
    state.Process(data, key, []);
    assert [] + data == data;
    hmac := state.Done(key, data);
    ok := true;
  }
}
