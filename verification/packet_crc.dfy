/** The checksum at the end of a packet: csp_crc32_append and csp_crc32_verify without the header. */
module PacketCrc {
  import opened Bytes
  import opened Packets
  import opened Crc32

  function CrcTag(s: seq<bv8>): (tag: seq<bv8>)
    ensures |tag| == 4
  {
    Be32(Checksum(s))
  }

  predicate GoodCrc(s: seq<bv8>) {
    |s| >= 4 && s[|s| - 4..] == CrcTag(s[..|s| - 4])
  }

  method CrcAppend(packet: Packet) returns (ok: bool)
    requires packet.Valid()
    modifies packet`length, packet.data
    ensures packet.Valid() && packet.data == old(packet.data)
    ensures ok == (old(packet.length) + 4 <= packet.data.Length)
    ensures packet.Contents() == old(packet.Contents()) + if ok then CrcTag(old(packet.Contents())) else []
  {
    hide Checksum, Be32;
    if packet.length + 4 > packet.data.Length {
      return false;
    }
    var crc := CrcMemory(packet.data[..packet.length]);
    packet.Append(Be32(crc));
    return true;
  }

  method CrcVerify(packet: Packet) returns (ok: bool)
    requires packet.Valid()
    modifies packet`length
    ensures packet.Valid()
    ensures ok == GoodCrc(old(packet.Contents()))
    ensures packet.Contents() == if ok then old(packet.Contents())[..|old(packet.Contents())| - 4]
            else old(packet.Contents())
  {
    hide Checksum, Be32;
    if packet.length < 4 {
      return false;
    }
    var crc := CrcMemory(packet.data[..packet.length - 4]);
    assert packet.data[..packet.length - 4] == packet.Contents()[..packet.length - 4];
    assert packet.data[packet.length - 4..packet.length] == packet.Contents()[packet.length - 4..];
    if packet.data[packet.length - 4..packet.length] != Be32(crc) {
      return false;
    }
    packet.Strip(4);
    return true;
  }

  /** What append added, verify accepts and takes off. */
  lemma CrcRoundTrip(s: seq<bv8>)
    ensures GoodCrc(s + CrcTag(s)) && (s + CrcTag(s))[..|s|] == s
  {
    hide CrcTag;
    var x := s + CrcTag(s);
    assert x[|x| - 4..] == CrcTag(s) && x[..|x| - 4] == s;
  }

  lemma CrcTagIsInjective(p: seq<bv8>, q: seq<bv8>)
    requires CrcTag(p) == CrcTag(q)
    ensures Checksum(p) == Checksum(q)
  {
    hide Checksum, Be32, ReadBe32;
    Be32RoundTrip(Checksum(p));
    Be32RoundTrip(Checksum(q));
  }

  /** A change confined to four consecutive bytes of the data, or to the tag, spoils the CRC. */
  lemma CrcCatches(p: seq<bv8>, y: seq<bv8>, k: nat, l: nat)
    requires |y| == |p| + 4 && y != p + CrcTag(p)
    requires k <= l <= k + 4 && (l <= |p| || k == |p|) && l <= |y|
    requires forall j | 0 <= j < |y| && !(k <= j < l) :: y[j] == (p + CrcTag(p))[j]
    ensures !GoodCrc(y)
  {
    hide CrcTag;
    var x, q := p + CrcTag(p), y[..|p|];
    assert y == q + y[|p|..];
    if l <= |p| {
      assert y[|p|..] == CrcTag(p);
      assert q != p;
      assert p[..k] == q[..k] && p[l..] == q[l..];
      BurstsAreDetected(p, q, k, l);
      if CrcTag(q) == CrcTag(p) {
        CrcTagIsInjective(p, q);
      }
    } else {
      assert q == p;
    }
  }
}
