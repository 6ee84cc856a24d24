/** Known answers of XTEA and of the counter mode. */
module XteaAnswers {
  import opened Bytes
  import opened Xtea

  lemma NoCycles(s: Cycle, key: seq<bv8>)
    requires |key| == 16
    ensures Cycles(s, key, 0) == s
  {
  }

  lemma OneMore(s: Cycle, key: seq<bv8>, n: nat)
    requires |key| == 16
    ensures Cycles(s, key, n + 1) == NextCycle(Cycles(s, key, n), key)
  {
  }

  // A published test vector of the cipher: key words 0x00010203 .. 0x0C0D0E0F, block words 0x41424344 and 0x45464748

  const KEY: seq<bv8> :=
    [0x03, 0x02, 0x01, 0x00, 0x07, 0x06, 0x05, 0x04, 0x0B, 0x0A, 0x09, 0x08, 0x0F, 0x0E, 0x0D, 0x0C]

  lemma VectorWords()
    ensures Load32L(KEY, 0) == 0x00010203 && Load32L(KEY, 4) == 0x04050607
    ensures Load32L(KEY, 8) == 0x08090A0B && Load32L(KEY, 12) == 0x0C0D0E0F
  {
  }

  lemma VectorFirst()
    ensures Cycles(Cycle(0x41424344, 0x45464748, 0x00000000), KEY, 16) ==
            Cycle(0xDEA0B0B4, 0x0966B066, 0xE3779B90)
  {
    VectorWords();
    hide Cycles, Load32L;
    var s := Cycle(0x41424344, 0x45464748, 0x00000000);
    NoCycles(s, KEY);
    OneMore(s, KEY, 0);
    assert Cycles(s, KEY, 1) == Cycle(0xDCD7CF45, 0x477CE5EF, 0x9E3779B9);
    OneMore(s, KEY, 1);
    assert Cycles(s, KEY, 2) == Cycle(0xFC26AF53, 0xCD4278CF, 0x3C6EF372);
    OneMore(s, KEY, 2);
    assert Cycles(s, KEY, 3) == Cycle(0xD80E94CB, 0x4DDF38A2, 0xDAA66D2B);
    OneMore(s, KEY, 3);
    assert Cycles(s, KEY, 4) == Cycle(0xA3DE6C88, 0xF1E7792D, 0x78DDE6E4);
    OneMore(s, KEY, 4);
    assert Cycles(s, KEY, 5) == Cycle(0x171D3729, 0x91862A1F, 0x1715609D);
    OneMore(s, KEY, 5);
    assert Cycles(s, KEY, 6) == Cycle(0xCC8C1344, 0xEBEEAA9A, 0xB54CDA56);
    OneMore(s, KEY, 6);
    assert Cycles(s, KEY, 7) == Cycle(0xE57D7733, 0x59E5FC40, 0x5384540F);
    OneMore(s, KEY, 7);
    assert Cycles(s, KEY, 8) == Cycle(0x8F65016F, 0xCE368FE5, 0xF1BBCDC8);
    OneMore(s, KEY, 8);
    assert Cycles(s, KEY, 9) == Cycle(0xD258174E, 0x48D61211, 0x8FF34781);
    OneMore(s, KEY, 9);
    assert Cycles(s, KEY, 10) == Cycle(0x165E0567, 0x9E717B10, 0x2E2AC13A);
    OneMore(s, KEY, 10);
    assert Cycles(s, KEY, 11) == Cycle(0xCAC48414, 0x4AFF1B86, 0xCC623AF3);
    OneMore(s, KEY, 11);
    assert Cycles(s, KEY, 12) == Cycle(0xEB8E9954, 0x24E5DFEF, 0x6A99B4AC);
    OneMore(s, KEY, 12);
    assert Cycles(s, KEY, 13) == Cycle(0x0A88B2A5, 0xE4A3F5F5, 0x08D12E65);
    OneMore(s, KEY, 13);
    assert Cycles(s, KEY, 14) == Cycle(0x47F0B53D, 0x52CC1B88, 0xA708A81E);
    OneMore(s, KEY, 14);
    assert Cycles(s, KEY, 15) == Cycle(0x7622F70A, 0xE54C9980, 0x454021D7);
    OneMore(s, KEY, 15);
    assert Cycles(s, KEY, 16) == Cycle(0xDEA0B0B4, 0x0966B066, 0xE3779B90);
  }

  lemma VectorLast()
    ensures Cycles(Cycle(0x41424344, 0x45464748, 0x00000000), KEY, 32) ==
            Cycle(0x497DF3D0, 0x72612CB5, 0xC6EF3720)
  {
    VectorWords();
    hide Cycles, Load32L;
    var s := Cycle(0x41424344, 0x45464748, 0x00000000);
    VectorFirst();
    OneMore(s, KEY, 16);
    assert Cycles(s, KEY, 17) == Cycle(0x5B9F2A8E, 0xA8DC137C, 0x81AF1549);
    OneMore(s, KEY, 17);
    assert Cycles(s, KEY, 18) == Cycle(0x10771C15, 0xE45E1448, 0x1FE68F02);
    OneMore(s, KEY, 18);
    assert Cycles(s, KEY, 19) == Cycle(0x11456D7C, 0xC85F792D, 0xBE1E08BB);
    OneMore(s, KEY, 19);
    assert Cycles(s, KEY, 20) == Cycle(0x97856208, 0x1099631C, 0x5C558274);
    OneMore(s, KEY, 20);
    assert Cycles(s, KEY, 21) == Cycle(0xDD803B8B, 0xCB8F61E7, 0xFA8CFC2D);
    OneMore(s, KEY, 21);
    assert Cycles(s, KEY, 22) == Cycle(0x522C00DD, 0x9E3F7329, 0x98C475E6);
    OneMore(s, KEY, 22);
    assert Cycles(s, KEY, 23) == Cycle(0x77B744A0, 0x69C1348C, 0x36FBEF9F);
    OneMore(s, KEY, 23);
    assert Cycles(s, KEY, 24) == Cycle(0xC1CDCCFE, 0x6F593666, 0xD5336958);
    OneMore(s, KEY, 24);
    assert Cycles(s, KEY, 25) == Cycle(0x75445A60, 0x2DB1708D, 0x736AE311);
    OneMore(s, KEY, 25);
    assert Cycles(s, KEY, 26) == Cycle(0xF4887559, 0x8BB651D7, 0x11A25CCA);
    OneMore(s, KEY, 26);
    assert Cycles(s, KEY, 27) == Cycle(0x47CCDC59, 0xFCD8F11C, 0xAFD9D683);
    OneMore(s, KEY, 27);
    assert Cycles(s, KEY, 28) == Cycle(0xC471004F, 0x5097C822, 0x4E11503C);
    OneMore(s, KEY, 28);
    assert Cycles(s, KEY, 29) == Cycle(0xD6F3570B, 0x00D35711, 0xEC48C9F5);
    OneMore(s, KEY, 29);
    assert Cycles(s, KEY, 30) == Cycle(0xD53DE450, 0xA10822D4, 0x8A8043AE);
    OneMore(s, KEY, 30);
    assert Cycles(s, KEY, 31) == Cycle(0xF959A6E3, 0x6076A570, 0x28B7BD67);
    OneMore(s, KEY, 31);
    assert Cycles(s, KEY, 32) == Cycle(0x497DF3D0, 0x72612CB5, 0xC6EF3720);
  }

  lemma VectorEnds()
    ensures Load32L([0x44, 0x43, 0x42, 0x41, 0x48, 0x47, 0x46, 0x45], 0) == 0x41424344
    ensures Load32L([0x44, 0x43, 0x42, 0x41, 0x48, 0x47, 0x46, 0x45], 4) == 0x45464748
    ensures Store32L(0x497DF3D0) + Store32L(0x72612CB5) ==
            [0xD0, 0xF3, 0x7D, 0x49, 0xB5, 0x2C, 0x61, 0x72]
  {
  }

  lemma Vector()
    ensures Cipher([0x44, 0x43, 0x42, 0x41, 0x48, 0x47, 0x46, 0x45], KEY) ==
            [0xD0, 0xF3, 0x7D, 0x49, 0xB5, 0x2C, 0x61, 0x72]
  {
    hide Cycles, Load32L, Store32L;
    VectorEnds();
    VectorLast();
  }

  // A packet: key bytes 0 to 15, nonce 0x01020304, data "hello"

  const COUNT: seq<bv8> :=
    [0x00, 0x01, 0x02, 0x03, 0x04, 0x05, 0x06, 0x07, 0x08, 0x09, 0x0A, 0x0B, 0x0C, 0x0D, 0x0E, 0x0F]

  lemma PacketWords()
    ensures Load32L(COUNT, 0) == 0x03020100 && Load32L(COUNT, 4) == 0x07060504
    ensures Load32L(COUNT, 8) == 0x0B0A0908 && Load32L(COUNT, 12) == 0x0F0E0D0C
  {
  }

  lemma PacketFirst()
    ensures Cycles(Cycle(0x04030201, 0x01000000, 0x00000000), COUNT, 16) ==
            Cycle(0x62EB40F2, 0xA464FB1E, 0xE3779B90)
  {
    PacketWords();
    hide Cycles, Load32L;
    var s := Cycle(0x04030201, 0x01000000, 0x00000000);
    NoCycles(s, COUNT);
    OneMore(s, COUNT, 0);
    assert Cycles(s, COUNT, 1) == Cycle(0x160D0301, 0xDC28DDCC, 0x9E3779B9);
    OneMore(s, COUNT, 1);
    assert Cycles(s, COUNT, 2) == Cycle(0x1BB50C48, 0x6C63631C, 0x3C6EF372);
    OneMore(s, COUNT, 2);
    assert Cycles(s, COUNT, 3) == Cycle(0x92757DD6, 0xC3F8E967, 0xDAA66D2B);
    OneMore(s, COUNT, 3);
    assert Cycles(s, COUNT, 4) == Cycle(0xA6B3BE6B, 0x3316C7B1, 0x78DDE6E4);
    OneMore(s, COUNT, 4);
    assert Cycles(s, COUNT, 5) == Cycle(0xC68831A5, 0x623FB3D0, 0x1715609D);
    OneMore(s, COUNT, 5);
    assert Cycles(s, COUNT, 6) == Cycle(0x63B94374, 0xBA595B7D, 0xB54CDA56);
    OneMore(s, COUNT, 6);
    assert Cycles(s, COUNT, 7) == Cycle(0xFEAF7F4A, 0x6F95AF30, 0x5384540F);
    OneMore(s, COUNT, 7);
    assert Cycles(s, COUNT, 8) == Cycle(0x09DDEBFC, 0xCF459D87, 0xF1BBCDC8);
    OneMore(s, COUNT, 8);
    assert Cycles(s, COUNT, 9) == Cycle(0x3FB248E7, 0x77C3CB26, 0x8FF34781);
    OneMore(s, COUNT, 9);
    assert Cycles(s, COUNT, 10) == Cycle(0xA17184C1, 0xFA6D51F3, 0x2E2AC13A);
    OneMore(s, COUNT, 10);
    assert Cycles(s, COUNT, 11) == Cycle(0x43B892B1, 0xA0AB17BC, 0xCC623AF3);
    OneMore(s, COUNT, 11);
    assert Cycles(s, COUNT, 12) == Cycle(0xAEE80F77, 0x902792F2, 0x6A99B4AC);
    OneMore(s, COUNT, 12);
    assert Cycles(s, COUNT, 13) == Cycle(0xA96C227C, 0xC349ED18, 0x08D12E65);
    OneMore(s, COUNT, 13);
    assert Cycles(s, COUNT, 14) == Cycle(0xA385E1E5, 0x1210AB7E, 0xA708A81E);
    OneMore(s, COUNT, 14);
    assert Cycles(s, COUNT, 15) == Cycle(0x253E5104, 0x4259BC99, 0x454021D7);
    OneMore(s, COUNT, 15);
    assert Cycles(s, COUNT, 16) == Cycle(0x62EB40F2, 0xA464FB1E, 0xE3779B90);
  }

  lemma PacketLast()
    ensures Cycles(Cycle(0x04030201, 0x01000000, 0x00000000), COUNT, 32) ==
            Cycle(0xAB758D86, 0x2DDDF006, 0xC6EF3720)
  {
    PacketWords();
    hide Cycles, Load32L;
    var s := Cycle(0x04030201, 0x01000000, 0x00000000);
    PacketFirst();
    OneMore(s, COUNT, 16);
    assert Cycles(s, COUNT, 17) == Cycle(0x64934EB8, 0xC67FDA1A, 0x81AF1549);
    OneMore(s, COUNT, 17);
    assert Cycles(s, COUNT, 18) == Cycle(0x058E727F, 0x3F352CFE, 0x1FE68F02);
    OneMore(s, COUNT, 18);
    assert Cycles(s, COUNT, 19) == Cycle(0x209E7E0E, 0x2BDAC99F, 0xBE1E08BB);
    OneMore(s, COUNT, 19);
    assert Cycles(s, COUNT, 20) == Cycle(0x467F8AAA, 0x1EF82C8A, 0x5C558274);
    OneMore(s, COUNT, 20);
    assert Cycles(s, COUNT, 21) == Cycle(0x97BA3FE4, 0x3E3B9324, 0xFA8CFC2D);
    OneMore(s, COUNT, 21);
    assert Cycles(s, COUNT, 22) == Cycle(0xB8D1C0B0, 0x209DCE7F, 0x98C475E6);
    OneMore(s, COUNT, 22);
    assert Cycles(s, COUNT, 23) == Cycle(0x438D679C, 0x60F45CBA, 0x36FBEF9F);
    OneMore(s, COUNT, 23);
    assert Cycles(s, COUNT, 24) == Cycle(0x6ECCA0F0, 0xE3A4C165, 0xD5336958);
    OneMore(s, COUNT, 24);
    assert Cycles(s, COUNT, 25) == Cycle(0x678D3C88, 0x78B4FB62, 0x736AE311);
    OneMore(s, COUNT, 25);
    assert Cycles(s, COUNT, 26) == Cycle(0xE2DD21D0, 0xA5C7776A, 0x11A25CCA);
    OneMore(s, COUNT, 26);
    assert Cycles(s, COUNT, 27) == Cycle(0xC669C327, 0x43C25785, 0xAFD9D683);
    OneMore(s, COUNT, 27);
    assert Cycles(s, COUNT, 28) == Cycle(0x0583E525, 0x484FC35F, 0x4E11503C);
    OneMore(s, COUNT, 28);
    assert Cycles(s, COUNT, 29) == Cycle(0xA3A1439A, 0x5A347D0E, 0xEC48C9F5);
    OneMore(s, COUNT, 29);
    assert Cycles(s, COUNT, 30) == Cycle(0xAC258289, 0x591140B1, 0x8A8043AE);
    OneMore(s, COUNT, 30);
    assert Cycles(s, COUNT, 31) == Cycle(0x258D0FF9, 0xA15DAE4C, 0x28B7BD67);
    OneMore(s, COUNT, 31);
    assert Cycles(s, COUNT, 32) == Cycle(0xAB758D86, 0x2DDDF006, 0xC6EF3720);
  }

  lemma PacketEnds()
    ensures Load32L([0x01, 0x02, 0x03, 0x04, 0x00, 0x00, 0x00, 0x01], 0) == 0x04030201
    ensures Load32L([0x01, 0x02, 0x03, 0x04, 0x00, 0x00, 0x00, 0x01], 4) == 0x01000000
    ensures Store32L(0xAB758D86) + Store32L(0x2DDDF006) ==
            [0x86, 0x8D, 0x75, 0xAB, 0x06, 0xF0, 0xDD, 0x2D]
  {
  }

  lemma Packet()
    ensures Cipher([0x01, 0x02, 0x03, 0x04, 0x00, 0x00, 0x00, 0x01], COUNT) ==
            [0x86, 0x8D, 0x75, 0xAB, 0x06, 0xF0, 0xDD, 0x2D]
  {
    hide Cycles, Load32L, Store32L;
    PacketEnds();
    PacketLast();
  }

  lemma FirstBlock()
    ensures Be32(0x01020304) + Be32(Counter(1, 0)) == [0x01, 0x02, 0x03, 0x04, 0x00, 0x00, 0x00, 0x01]
  {
  }

  lemma XorHello()
    ensures XorByte(0x68, 0x86) == 0xEE && XorByte(0x65, 0x8D) == 0xE8 && XorByte(0x6C, 0x75) == 0x19
    ensures XorByte(0x6C, 0xAB) == 0xC7 && XorByte(0x6F, 0x06) == 0x69
  {
  }

  /** The bytes the data leaves as: the nonce comes first in the counter block, then the counter, highest byte first. */
  lemma CryptHello()
    ensures Crypt([0x68, 0x65, 0x6C, 0x6C, 0x6F], COUNT, 0x01020304) == [0xEE, 0xE8, 0x19, 0xC7, 0x69]
  {
    hide Cipher, XorByte, Be32;
    FirstBlock();
    Packet();
    XorHello();
    var r := Crypt([0x68, 0x65, 0x6C, 0x6C, 0x6F], COUNT, 0x01020304);
    assert |r| == 5 && r[0] == 0xEE && r[1] == 0xE8 && r[2] == 0x19 && r[3] == 0xC7 && r[4] == 0x69;
  }
}
