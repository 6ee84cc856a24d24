/** The protection a packet gets in csp_send_direct and loses again in csp_route_security_check. */
module Protection {
  import opened Bytes
  import opened Packets
  import opened PacketCrc
  import opened Hmac
  import opened Xtea
  import Sha1

  datatype Result = Ok(data: seq<bv8>) | Err(error: Error)

  datatype Error = NoMem | Xtea | Crc32 | Hmac | Inval

  /** The flags of an identifier that matter here. */
  datatype Flags = Flags(hmac: bool, xtea: bool, rdp: bool, crc32: bool)

  /** What a socket or connection requires. */
  datatype Options = Options(rdpReq: bool, hmacReq: bool, xteaReq: bool, crc32Req: bool)

  /** The keys both ends have set. */
  datatype Keys = Keys(hmac: seq<bv8>, xtea: seq<bv8>)

  predicate ValidKeys(k: Keys) {
    |k.hmac| == 16 && |k.xtea| == 16
  }

  /** The keys csp_hmac_set_key and csp_xtea_set_key make of two secrets: the first bytes of their digests. */
  function KeysOf(hmacSecret: seq<bv8>, xteaSecret: seq<bv8>): (k: Keys)
    ensures ValidKeys(k)
  {
    Keys(Sha1.Digest(hmacSecret)[..16], Sha1.Digest(xteaSecret)[..16])
  }

  // As functions on the contents of the packet

  function HmacTag(s: seq<bv8>, k: Keys): (tag: seq<bv8>)
    ensures |tag| == 4
  {
    HmacSha1(k.hmac, s)[..4]
  }

  function Appended(s: seq<bv8>, tag: seq<bv8>, size: nat): Result {
    if |s| + |tag| > size then Err(NoMem) else Ok(s + tag)
  }

  function AddHmac(s: seq<bv8>, k: Keys, size: nat): Result { Appended(s, HmacTag(s, k), size) }

  function AddCrc(s: seq<bv8>, size: nat): Result { Appended(s, CrcTag(s), size) }

  function AddXtea(s: seq<bv8>, k: Keys, nonce: bv32, size: nat): Result
    requires ValidKeys(k)
  {
    Appended(Crypt(s, k.xtea, nonce), Be32(nonce), size)
  }

  /** The protection part of csp_send_direct for a packet of this node. */
  function Protected(s: seq<bv8>, f: Flags, k: Keys, nonce: bv32, size: nat): Result
    requires ValidKeys(k)
  {
    var r1 := if f.hmac then AddHmac(s, k, size) else Ok(s);
    if r1.Err? then r1
    else
      var r2 := if f.crc32 then AddCrc(r1.data, size) else r1;
      if r2.Err? then r2
      else if f.xtea then AddXtea(r2.data, k, nonce, size) else r2
  }

  function Untagged(s: seq<bv8>, good: bool, e: Error): Result
    requires good ==> |s| >= 4
  {
    if good then Ok(s[..|s| - 4]) else Err(e)
  }

  predicate GoodHmac(s: seq<bv8>, k: Keys) {
    |s| >= 4 && s[|s| - 4..] == HmacTag(s[..|s| - 4], k)
  }

  function CheckXtea(s: seq<bv8>, o: Options, f: Flags, k: Keys): Result
    requires ValidKeys(k)
  {
    if f.xtea then (if |s| < 4 then Err(Error.Xtea) else Ok(Decrypted(s, k.xtea)))
    else if o.xteaReq then Err(Error.Xtea) else Ok(s)
  }

  function CheckCrc(s: seq<bv8>, f: Flags): Result {
    if f.crc32 then Untagged(s, GoodCrc(s), Error.Crc32) else Ok(s)   // a missing required CRC only warns
  }

  function CheckHmac(s: seq<bv8>, o: Options, f: Flags, k: Keys): Result {
    if f.hmac then Untagged(s, GoodHmac(s, k), Error.Hmac)
    else if o.hmacReq then Err(Error.Hmac) else Ok(s)
  }

  /** csp_route_security_check. */
  function Checked(s: seq<bv8>, o: Options, f: Flags, k: Keys): Result
    requires ValidKeys(k)
  {
    var r1 := CheckXtea(s, o, f, k);
    if r1.Err? then r1
    else
      var r2 := CheckCrc(r1.data, f);
      if r2.Err? then r2
      else
        var r3 := CheckHmac(r2.data, o, f, k);
        if r3.Err? then r3
        else if !f.rdp && o.rdpReq then Err(Inval) else r3
  }

  /**
   What a protected packet looks like: the data, four bytes of its HMAC, the CRC of both, all of that encrypted, and the
   nonce in the clear; each part only if its flag is set.
   */
  lemma ProtectedLayout(s: seq<bv8>, f: Flags, k: Keys, nonce: bv32, size: nat)
    requires ValidKeys(k) && Protected(s, f, k, nonce, size).Ok?
    ensures var t := Protected(s, f, k, nonce, size).data;
            var m := s + if f.hmac then HmacSha1(k.hmac, s)[..4] else [];
            var n := m + if f.crc32 then CrcTag(m) else [];
            if f.xtea then |t| == |n| + 4 && t[|n|..] == Be32(nonce) && t[..|n|] == Crypt(n, k.xtea, nonce) else t == n
  {
    hide HmacSha1, CrcTag, Crypt, Be32;
    var m := s + if f.hmac then HmacSha1(k.hmac, s)[..4] else [];
    var n := m + if f.crc32 then CrcTag(m) else [];
    assert !f.hmac ==> m == s;
    assert !f.crc32 ==> n == m;
    if f.xtea {
      assert Protected(s, f, k, nonce, size).data == Crypt(n, k.xtea, nonce) + Be32(nonce);
    }
  }

  // As methods on the packet

  /** The result a method reports about a packet it changed. */
  ghost predicate Reports(packet: Packet, err: bool, r: Result)
    requires packet.Valid()
    reads packet, packet.data
  {
    err == r.Err? && (r.Ok? ==> packet.Contents() == r.data)
  }

  /** csp_hmac_append. */
  method HmacAppend(packet: Packet, k: Keys) returns (err: bool)
    requires packet.Valid() && ValidKeys(k)
    modifies packet`length, packet.data
    ensures packet.Valid() && packet.data == old(packet.data)
    ensures Reports(packet, err, old(AddHmac(packet.Contents(), k, packet.data.Length)))
  {
    hide HmacSha1;
    if packet.length + 4 > packet.data.Length {
      return true;
    }
    var ok, hmac := HmacMemory(k.hmac, packet.data[..packet.length]);
    packet.Append(hmac[..4]);
    return false;
  }

  /** csp_hmac_verify without the header. */
  method HmacVerify(packet: Packet, k: Keys) returns (err: bool)
    requires packet.Valid() && ValidKeys(k)
    modifies packet`length
    ensures packet.Valid()
    ensures Reports(packet, err, old(Untagged(packet.Contents(), GoodHmac(packet.Contents(), k), Error.Hmac)))
  {
    hide HmacSha1;
    if packet.length < 4 {
      return true;
    }
    var ok, hmac := HmacMemory(k.hmac, packet.data[..packet.length - 4]);
    assert packet.data[..packet.length - 4] == packet.Contents()[..packet.length - 4];
    assert packet.data[packet.length - 4..packet.length] == packet.Contents()[packet.length - 4..];
    if packet.data[packet.length - 4..packet.length] != hmac[..4] {
      return true;
    }
    packet.Strip(4);
    return false;
  }

  /** The protection steps of csp_send_direct; `local` says that the packet comes from this node. */
  method Protect(packet: Packet, local: bool, f: Flags, k: Keys, nonce: bv32) returns (err: bool)
    requires packet.Valid() && ValidKeys(k)
    modifies packet`length, packet.data
    ensures packet.Valid() && packet.data == old(packet.data)
    ensures Reports(packet, err, if local then old(Protected(packet.Contents(), f, k, nonce, packet.data.Length))
                                 else old(Ok(packet.Contents())))
  {
    hide AddHmac, CrcTag, Crypt, Be32;
    err := false;
    if local {
      if f.hmac {
        err := HmacAppend(packet, k);
        if err {
          return;
        }
      }
      if f.crc32 {
        var ok := CrcAppend(packet);
        if !ok {
          return true;
        }
      }
      if f.xtea {
        var ok := EncryptPacket(packet, k.xtea, nonce);
        err := !ok;
      }
    }
  }

  /** The error counters of an interface. */
  class Iface {
    var autherr: nat
    var rxError: nat
  }

  /** csp_route_security_check with its interface counters. */
  method SecurityCheck(packet: Packet, o: Options, f: Flags, k: Keys, iface: Iface) returns (r: Result)
    requires packet.Valid() && ValidKeys(k)
    modifies packet`length, packet.data, iface
    ensures packet.Valid() && packet.data == old(packet.data)
    ensures r == old(Checked(packet.Contents(), o, f, k))
    ensures r.Ok? ==> packet.Contents() == r.data
    ensures iface.autherr == old(iface.autherr) + if r.Err? && (r.error.Xtea? || r.error.Hmac?) then 1 else 0
    ensures iface.rxError == old(iface.rxError) + if r.Err? && (r.error.Crc32? || r.error.Inval?) then 1 else 0
  {
    hide GoodCrc, GoodHmac, Decrypted;
    if f.xtea {
      var ok := DecryptPacket(packet, k.xtea);
      if !ok {
        iface.autherr := iface.autherr + 1;
        return Err(Error.Xtea);
      }
    } else if o.xteaReq {
      iface.autherr := iface.autherr + 1;
      return Err(Error.Xtea);
    }
    if f.crc32 {
      var ok := CrcVerify(packet);
      if !ok {
        iface.rxError := iface.rxError + 1;
        return Err(Error.Crc32);
      }
    }
    if f.hmac {
      var err := HmacVerify(packet, k);
      if err {
        iface.autherr := iface.autherr + 1;
        return Err(Error.Hmac);
      }
    } else if o.hmacReq {
      iface.autherr := iface.autherr + 1;
      return Err(Error.Hmac);
    }
    if !f.rdp {
      if o.rdpReq {
        iface.rxError := iface.rxError + 1;
        return Err(Inval);
      }
    }
    return Ok(packet.data[..packet.length]);
  }

  // What the two sides promise each other

  predicate MeetsOptions(o: Options, f: Flags) {
    (o.xteaReq ==> f.xtea) && (o.hmacReq ==> f.hmac) && (o.rdpReq ==> f.rdp)
  }

  function Overhead(f: Flags): nat {
    (if f.hmac then 4 else 0) + (if f.crc32 then 4 else 0) + (if f.xtea then 4 else 0)
  }

  lemma HmacRoundTrip(s: seq<bv8>, k: Keys)
    ensures GoodHmac(s + HmacTag(s, k), k) && (s + HmacTag(s, k))[..|s|] == s
  {
    hide HmacTag;
    var y := s + HmacTag(s, k);
    assert y[|y| - 4..] == HmacTag(s, k) && y[..|y| - 4] == s;
  }

  /** A packet can be protected exactly when the tags fit into the buffer. */
  lemma ProtectsWhatFits(s: seq<bv8>, f: Flags, k: Keys, nonce: bv32, size: nat)
    requires ValidKeys(k) && |s| <= size
    ensures Protected(s, f, k, nonce, size).Ok? <==> |s| + Overhead(f) <= size
  {
    hide CrcTag, HmacTag, Crypt, Be32;
  }

  /**
   For every payload, nonce, keys and combination of flags: what csp_send_direct protects, the security
   check accepts exactly when the flags meet the options, and then it restores the payload.
   */
  lemma ProtectionRoundTrip(s: seq<bv8>, f: Flags, k: Keys, nonce: bv32, size: nat, o: Options)
    requires ValidKeys(k) && Protected(s, f, k, nonce, size).Ok?
    ensures var r := Checked(Protected(s, f, k, nonce, size).data, o, f, k);
            if MeetsOptions(o, f) then r == Ok(s) else r.Err?
  {
    hide CrcTag, HmacTag, Crypt, Be32, Decrypted, GoodCrc, GoodHmac;
    var s1 := if f.hmac then s + HmacTag(s, k) else s;
    var s2 := if f.crc32 then s1 + CrcTag(s1) else s1;
    HmacRoundTrip(s, k);
    CrcRoundTrip(s1);
    CryptRoundTrip(s2, k.xtea, nonce);
  }

  /** So two nodes that have been given the same secrets, of any lengths, understand each other. */
  lemma SharedSecrets(s: seq<bv8>, f: Flags, a: seq<bv8>, b: seq<bv8>, nonce: bv32, size: nat, o: Options)
    requires Protected(s, f, KeysOf(a, b), nonce, size).Ok? && MeetsOptions(o, f)
    ensures Checked(Protected(s, f, KeysOf(a, b), nonce, size).data, o, f, KeysOf(a, b)) == Ok(s)
  {
    hide Protected, Checked, KeysOf;
    ProtectionRoundTrip(s, f, KeysOf(a, b), nonce, size, o);
  }

  // What the check detects

  /** The data that csp_send_direct puts the CRC behind. */
  function Covered(s: seq<bv8>, f: Flags, k: Keys): seq<bv8> {
    if f.hmac then s + HmacTag(s, k) else s
  }

  /**
   Encrypted or not: if at most four consecutive bytes of the protected data are changed on the way, or any
   bytes of the CRC, the security check reports a CRC error.
   */
  lemma CorruptionIsDetected(s: seq<bv8>, f: Flags, keys: Keys, nonce: bv32, size: nat, o: Options, y: seq<bv8>, k: nat,
                             l: nat)
    requires ValidKeys(keys) && f.crc32 && (o.xteaReq ==> f.xtea)
    requires Protected(s, f, keys, nonce, size).Ok?
    requires var x, n := Protected(s, f, keys, nonce, size).data, |Covered(s, f, keys)|;
             && |y| == |x| && y != x
             && k <= l <= k + 4 && (l <= n || k == n) && l <= n + 4
             && forall j | 0 <= j < |y| && !(k <= j < l) :: y[j] == x[j]
    ensures Checked(y, o, f, keys) == Err(Error.Crc32)
  {
    hide CrcTag, HmacTag, Be32, GoodCrc, GoodHmac, Protected, Checked, Covered, Crypt;
    var p := Covered(s, f, keys);
    ProtectedShape(s, f, keys, nonce, size);
    if f.xtea {
      CorruptionInPlace(p + CrcTag(p), y, keys.xtea, nonce, k, l);
      hide Decrypted;
      CrcCatches(p, Decrypted(y, keys.xtea), k, l);
    } else {
      CrcCatches(p, y, k, l);
    }
    BadCrcIsReported(y, o, f, keys);
  }

  lemma ProtectedShape(s: seq<bv8>, f: Flags, k: Keys, nonce: bv32, size: nat)
    requires ValidKeys(k) && f.crc32 && Protected(s, f, k, nonce, size).Ok?
    ensures var z := Covered(s, f, k) + CrcTag(Covered(s, f, k));
            Protected(s, f, k, nonce, size).data == if f.xtea then Crypt(z, k.xtea, nonce) + Be32(nonce) else z
  {
    hide CrcTag, HmacTag, Be32, Crypt;
  }

  lemma BadCrcIsReported(y: seq<bv8>, o: Options, f: Flags, k: Keys)
    requires ValidKeys(k) && f.crc32 && (o.xteaReq ==> f.xtea)
    requires if f.xtea then |y| >= 4 && !GoodCrc(Decrypted(y, k.xtea)) else !GoodCrc(y)
    ensures Checked(y, o, f, k) == Err(Error.Crc32)
  {
    hide GoodCrc, GoodHmac, Decrypted;
  }

  /** Decryption keeps a change where it is. */
  lemma CorruptionInPlace(z: seq<bv8>, y: seq<bv8>, key: seq<bv8>, nonce: bv32, k: nat, l: nat)
    requires |key| == 16
    requires var x := Crypt(z, key, nonce) + Be32(nonce);
             && |y| == |x| && y != x && l <= |z|
             && forall j | 0 <= j < |y| && !(k <= j < l) :: y[j] == x[j]
    ensures |Decrypted(y, key)| == |z| && Decrypted(y, key) != z
    ensures forall j | 0 <= j < |z| && !(k <= j < l) :: Decrypted(y, key)[j] == z[j]
  {
    hide Crypt, Be32;
    var x := Crypt(z, key, nonce) + Be32(nonce);
    CryptRoundTrip(z, key, nonce);
    assert x[|x| - 4..] == y[|y| - 4..];
    forall j | 0 <= j < |z| ensures Decrypted(y, key)[j] == z[j] <==> y[j] == x[j] {
      CryptKeepsPlaces(x, y, key, j);
    }
    hide Decrypted;
    var j :| 0 <= j < |y| && y[j] != x[j];
    assert Decrypted(y, key)[j] != z[j];
  }
}
