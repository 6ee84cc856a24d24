/** Known answers and layouts: what the encodings put on the wire, byte by byte. */
module WireAnswers {
  import Words
  import opened Bytes
  import opened Wrappers
  import opened Crc32
  import opened PacketCrc
  import opened Kiss
  import Cfp
  import Can
  import ConnPool
  import CspId
  import RdpSpec
  import Sfp

  // Words in network order

  lemma HighByteFirst()
    ensures Be32(0x01020304) == [0x01, 0x02, 0x03, 0x04] && ReadBe32([0x01, 0x02, 0x03, 0x04]) == 0x01020304
  {
  }

  lemma HighByteFirst16(n: nat)
    requires n < 0x1_0000
    ensures Value(Be16(n)[0]) == n / 0x100 && Value(Be16(n)[1]) == n % 0x100
  {
    hide Small, Value;
    SmallRoundTrip(n / 0x100);
    SmallRoundTrip(n % 0x100);
  }

  /** The bytes of a 32-bit word are its digits to the base 256, the highest one first. */
  lemma WordDigits(x: Words.uint32)
    ensures var s := Words.Be32(x);
            |s| == 4 && ((s[0] as int * 0x100 + s[1]) * 0x100 + s[2]) * 0x100 + s[3] == x
  {
  }

  // CRC-32C of "123456789"

  lemma Fed(r: bv32, data: seq<bv8>)
    requires data != []
    ensures Divide(r, data) == Divide(FeedByte(r, data[0]), data[1..])
  {
  }

  const DIGITS: seq<bv8> := [0x31, 0x32, 0x33, 0x34, 0x35, 0x36, 0x37, 0x38, 0x39]

  lemma DigitRegisters()
    ensures FeedByte(0xFFFFFFFF, 0x31) == 0x6F0A661C
    ensures FeedByte(0x6F0A661C, 0x32) == 0x8CAA3B9F
    ensures FeedByte(0x8CAA3B9F, 0x33) == 0xEF84D04D
    ensures FeedByte(0xEF84D04D, 0x34) == 0x09C50B11
    ensures FeedByte(0x09C50B11, 0x35) == 0xE72EDCCA
    ensures FeedByte(0xE72EDCCA, 0x36) == 0xBECA8E79
    ensures FeedByte(0xBECA8E79, 0x37) == 0xEDBD6815
    ensures FeedByte(0xEDBD6815, 0x38) == 0x9F787F65
    ensures FeedByte(0x9F787F65, 0x39) == 0x1CF96D7C
  {
  }

  lemma ChecksumOfDigits()
    ensures Checksum(DIGITS) == 0xE3069283
  {
    DigitRegisters();
    LastXor();
    hide FeedByte, Xor;
    Fed(0xFFFFFFFF, DIGITS[0..]);
    assert DIGITS[0..][1..] == DIGITS[1..];
    Fed(0x6F0A661C, DIGITS[1..]);
    assert DIGITS[1..][1..] == DIGITS[2..];
    Fed(0x8CAA3B9F, DIGITS[2..]);
    assert DIGITS[2..][1..] == DIGITS[3..];
    Fed(0xEF84D04D, DIGITS[3..]);
    assert DIGITS[3..][1..] == DIGITS[4..];
    Fed(0x09C50B11, DIGITS[4..]);
    assert DIGITS[4..][1..] == DIGITS[5..];
    Fed(0xE72EDCCA, DIGITS[5..]);
    assert DIGITS[5..][1..] == DIGITS[6..];
    Fed(0xBECA8E79, DIGITS[6..]);
    assert DIGITS[6..][1..] == DIGITS[7..];
    Fed(0xEDBD6815, DIGITS[7..]);
    assert DIGITS[7..][1..] == DIGITS[8..];
    Fed(0x9F787F65, DIGITS[8..]);
    assert DIGITS[8..][1..] == DIGITS[9..];
    NoDigits();
    assert DIGITS[0..] == DIGITS;
  }

  lemma NoDigits()
    ensures |DIGITS| == 9 && DIGITS[9..] == []
  {
  }

  lemma LastXor()
    ensures Xor(0x1CF96D7C, 0xFFFFFFFF) == 0xE3069283
  {
  }

  // KISS

  /** The two special bytes are escaped with the codes of the KISS protocol, all others go as they are. */
  lemma EscapeCodes(b: bv8)
    ensures Escape(b) == if b == 0xC0 then [0xDB, 0xDC] else if b == 0xDB then [0xDB, 0xDD] else [b]
  {
  }

  lemma {:induction false} PlainBytes(s: seq<bv8>)
    requires forall b | b in s :: b != 0xC0 && b != 0xDB
    ensures EscapeAll(s) == s
    decreases |s|
  {
    if s != [] {
      var init := s[..|s| - 1];
      assert s == init + [s[|s| - 1]];
      assert s[|s| - 1] in s && forall b | b in init :: b in s;
      PlainBytes(init);
    }
  }

  /** The frame of the packet "123456789" with the header 0x010203C0. */
  lemma FrameOfDigits()
    ensures Frame(Pkt(0x010203C0, DIGITS), 13) ==
            [0xC0, 0x00, 0x01, 0x02, 0x03, 0xDB, 0xDC, 0x31, 0x32, 0x33, 0x34, 0x35, 0x36, 0x37, 0x38, 0x39,
             0xE3, 0x06, 0x92, 0x83, 0xC0]
  {
    hide Checksum, EscapeAll;
    ChecksumOfDigits();
    assert Be32(0xE3069283) == [0xE3, 0x06, 0x92, 0x83] && Be32(0x010203C0) == [0x01, 0x02, 0x03, 0xC0];
    hide Be32;
    var head: seq<bv8> := [0x01, 0x02, 0x03];
    var tail := DIGITS + [0xE3, 0x06, 0x92, 0x83];
    assert Body(Pkt(0x010203C0, DIGITS), 13) == head + [0xC0] + tail;
    hide Body;
    EscapedDigits();
  }

  lemma EscapedDigits()
    ensures EscapeAll([0x01, 0x02, 0x03] + [0xC0] + (DIGITS + [0xE3, 0x06, 0x92, 0x83])) ==
            [0x01, 0x02, 0x03, 0xDB, 0xDC, 0x31, 0x32, 0x33, 0x34, 0x35, 0x36, 0x37, 0x38, 0x39, 0xE3, 0x06, 0x92, 0x83]
  {
    hide EscapeAll;
    var head: seq<bv8> := [0x01, 0x02, 0x03];
    var tail := DIGITS + [0xE3, 0x06, 0x92, 0x83];
    EscapeConcat(head + [0xC0], tail);
    EscapeConcat(head, [0xC0]);
    EscapeOne(0xC0);
    PlainBytes(head);
    PlainBytes(tail);
  }

  lemma EscapeOne(b: bv8)
    ensures EscapeAll([b]) == Escape(b)
  {
    assert [b][..0] == [];
  }

  lemma EscapeLast(s: seq<bv8>)
    requires s != []
    ensures EscapeAll(s) == EscapeAll(s[..|s| - 1]) + Escape(s[|s| - 1])
  {
    hide Escape;
  }

  lemma {:induction false} EscapeConcat(s: seq<bv8>, t: seq<bv8>)
    ensures EscapeAll(s + t) == EscapeAll(s) + EscapeAll(t)
    decreases |t|
  {
    hide Escape;
    if t == [] {
      assert s + t == s;
    } else {
      var init, last := t[..|t| - 1], t[|t| - 1];
      EscapeConcat(s, init);
      EscapeLast(t);
      assert (s + t)[..|s + t| - 1] == s + init && (s + t)[|s + t| - 1] == last;
      EscapeLast(s + t);
      hide EscapeAll;
      assert (EscapeAll(s) + EscapeAll(init)) + Escape(last) == EscapeAll(s) + (EscapeAll(init) + Escape(last));
    }
  }

  // CAN

  /** The identifier: source, destination, type, remain and identification, from the high bits to the low ones. */
  lemma IdentifierLayout(src: bv32, dst: bv32, ident: bv32, kind: bv32, remain: bv8)
    requires src < 0x20 && dst < 0x20 && ident < 0x400 && kind < 2
    ensures Cfp.Pack(src, dst, ident, kind, remain) ==
            src * 0x100_0000 + dst * 0x8_0000 + kind * 0x4_0000 + (remain as bv32) * 0x400 + ident
  {
  }

  /** A packet of four bytes makes two frames: header, length and two bytes, and then the other two. */
  lemma FramesOfPacket()
    ensures Can.Fragments(Can.Pkt(0x01020304, [0x0A, 0x0B, 0x0C, 0x0D]), Can.Route(1, 2, 3)) ==
            [Can.Frame(0x01100403, [0x01, 0x02, 0x03, 0x04, 0x00, 0x04, 0x0A, 0x0B]),
             Can.Frame(0x01140003, [0x0C, 0x0D])]
  {
    FrameIds();
    hide Can.FrameId, Be32, Be16;
    var p, r := Can.Pkt(0x01020304, [0x0A, 0x0B, 0x0C, 0x0D]), Can.Route(1, 2, 3);
    var fs := Can.Fragments(p, r);
    assert |fs| == 2;
    assert fs[0] == Can.Fragment(p, r, 0) && fs[1] == Can.Fragment(p, r, 1);
    assert p.data[..2] == [0x0A, 0x0B] && p.data[2..4] == [0x0C, 0x0D];
    assert fs[0].data == [0x01, 0x02, 0x03, 0x04, 0x00, 0x04, 0x0A, 0x0B] && fs[1].data == [0x0C, 0x0D];
    assert fs == [fs[0], fs[1]];
  }

  lemma FrameIds()
    ensures Can.FrameId(Can.Route(1, 2, 3), Cfp.BEGIN, 1) == 0x01100403
    ensures Can.FrameId(Can.Route(1, 2, 3), Cfp.MORE, 0) == 0x01140003
    ensures Be32(0x01020304) == [0x01, 0x02, 0x03, 0x04] && Be16(4) == [0x00, 0x04]
  {
  }

  // Headers

  /** The packet header: priority, source, destination, destination port, source port and flags. */
  lemma HeaderLayout(pri: bv32, src: bv32, dst: bv32, dport: bv32, sport: bv32, flags: bv32)
    requires pri < 4 && src < 0x20 && dst < 0x20 && dport < 0x40 && sport < 0x40 && flags < 0x100
    ensures var ext := pri * 0x4000_0000 + src * 0x200_0000 + dst * 0x10_0000 + dport * 0x4000 + sport * 0x100 + flags;
            CspId.Src(ext) == src && CspId.Dst(ext) == dst && CspId.Dport(ext) == dport && CspId.Sport(ext) == sport
  {
  }

  lemma HeaderExample()
    ensures CspId.IdOf(0xA2A0_C3_05) == ConnPool.Id(2, 17, 10, 3, 3, 5)
  {
  }

  /** Behind the payload of an SFP message come the offset and the total size. */
  lemma SfpMessage()
    ensures Sfp.AddHeader([7, 8], 0x01020304, 0x05060708) == [7, 8, 1, 2, 3, 4, 5, 6, 7, 8]
    ensures Sfp.RemoveHeader(Sfp.Msg(true, [7, 8, 1, 2, 3, 4, 5, 6, 7, 8])) ==
            Some(Sfp.Header(0x01020304, 0x05060708, [7, 8]))
  {
    assert Words.Be32(0x01020304) == [1, 2, 3, 4] && Words.Be32(0x05060708) == [5, 6, 7, 8];
    hide Words.Be32;
    var data: seq<Words.byte> := [7, 8, 1, 2, 3, 4, 5, 6, 7, 8];
    assert data[..2] == [7, 8];
    assert Words.Read32(data, 2) == 0x01020304 && Words.Read32(data, 6) == 0x05060708;
  }

  /** The options of an RDP SYN: six words in the order of csp_rdp_set_opt. */
  lemma SynOptions(o: RdpSpec.Options)
    ensures var s := RdpSpec.OptionBytes(o);
            && |s| == 24 && s[..4] == Words.Be32(o.window) && s[4..8] == Words.Be32(o.connTimeout)
            && s[8..12] == Words.Be32(o.packetTimeout) && s[12..16] == Words.Be32(o.delayedAcks)
            && s[16..20] == Words.Be32(o.ackTimeout) && s[20..24] == Words.Be32(o.ackDelayCount)
  {
    hide Words.Be32;
  }

  /** The numbers an EACK lists. */
  lemma EackNumbers(a: RdpSpec.Segment, b: RdpSpec.Segment)
    requires a.seqNr == 0x0102 && b.seqNr == 0x0304
    ensures RdpSpec.SeqBytes([a, b]) == [1, 2, 3, 4] && RdpSpec.Words16([1, 2, 3, 4]) == [0x0102, 0x0304]
  {
    assert [a, b][..1] == [a] && [a][..0] == [];
    assert RdpSpec.SeqBytes([a]) == [1, 2];
    var s: seq<Words.byte> := [1, 2, 3, 4];
    assert s[2..] == [3, 4] && s[2..][2..] == [];
  }
}
