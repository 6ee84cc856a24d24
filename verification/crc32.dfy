/** CRC-32C: the table-driven loop, the division it stands for, and the errors it always detects. */
module Crc32 {

  /** The Castagnoli polynomial, bit-reflected. */
  const POLYNOMIAL: bv32 := 0x82F63B78

  // Word operations under names, so that proofs can use their laws without looking at bits

  function Xor(a: bv32, b: bv32): bv32 { a ^ b }

  predicate Odd(r: bv32) { r & 1 == 1 }

  function Half(r: bv32): bv32 { r >> 1 }

  function Down(r: bv32): bv32 { r >> 8 }

  function Up(r: bv32): bv32 { r << 8 }

  function Wide(b: bv8): bv32 { b as bv32 }

  function Low(r: bv32): bv8 { (r & 0xFF) as bv8 }

  // Reference: reflected polynomial division, one message bit at a time, lowest bit of each byte first

  function FeedBit(r: bv32, bit: bool): bv32 {
    if Odd(r) != bit then Xor(Half(r), POLYNOMIAL) else Half(r)
  }

  function FeedByte(r: bv32, b: bv8): bv32 {
    FeedBit(FeedBit(FeedBit(FeedBit(FeedBit(FeedBit(FeedBit(FeedBit(r,
      b & 0x01 != 0), b & 0x02 != 0), b & 0x04 != 0), b & 0x08 != 0),
      b & 0x10 != 0), b & 0x20 != 0), b & 0x40 != 0), b & 0x80 != 0)
  }

  function Divide(r: bv32, data: seq<bv8>): bv32
    decreases data
  {
    if data == [] then r else Divide(FeedByte(r, data[0]), data[1..])
  }

  function Checksum(data: seq<bv8>): bv32 {
    Xor(Divide(0xFFFFFFFF, data), 0xFFFFFFFF)
  }

  // The table crc_tab, eight entries a row

  function Column(c: bv8, x0: bv32, x1: bv32, x2: bv32, x3: bv32, x4: bv32, x5: bv32, x6: bv32, x7: bv32): bv32 {
    if c == 0 then x0 else if c == 1 then x1 else if c == 2 then x2 else if c == 3 then x3
    else if c == 4 then x4 else if c == 5 then x5 else if c == 6 then x6 else x7
  }

  function Rows0(r: bv8, c: bv8): bv32 {
    if r == 0 then
      Column(c, 0x00000000, 0xF26B8303, 0xE13B70F7, 0x1350F3F4, 0xC79A971F, 0x35F1141C, 0x26A1E7E8, 0xD4CA64EB)
    else if r == 1 then
      Column(c, 0x8AD958CF, 0x78B2DBCC, 0x6BE22838, 0x9989AB3B, 0x4D43CFD0, 0xBF284CD3, 0xAC78BF27, 0x5E133C24)
    else if r == 2 then
      Column(c, 0x105EC76F, 0xE235446C, 0xF165B798, 0x030E349B, 0xD7C45070, 0x25AFD373, 0x36FF2087, 0xC494A384)
    else if r == 3 then
      Column(c, 0x9A879FA0, 0x68EC1CA3, 0x7BBCEF57, 0x89D76C54, 0x5D1D08BF, 0xAF768BBC, 0xBC267848, 0x4E4DFB4B)
    else if r == 4 then
      Column(c, 0x20BD8EDE, 0xD2D60DDD, 0xC186FE29, 0x33ED7D2A, 0xE72719C1, 0x154C9AC2, 0x061C6936, 0xF477EA35)
    else if r == 5 then
      Column(c, 0xAA64D611, 0x580F5512, 0x4B5FA6E6, 0xB93425E5, 0x6DFE410E, 0x9F95C20D, 0x8CC531F9, 0x7EAEB2FA)
    else if r == 6 then
      Column(c, 0x30E349B1, 0xC288CAB2, 0xD1D83946, 0x23B3BA45, 0xF779DEAE, 0x05125DAD, 0x1642AE59, 0xE4292D5A)
    else Column(c, 0xBA3A117E, 0x4851927D, 0x5B016189, 0xA96AE28A, 0x7DA08661, 0x8FCB0562, 0x9C9BF696, 0x6EF07595)
  }

  function Rows8(r: bv8, c: bv8): bv32 {
    if r == 8 then
      Column(c, 0x417B1DBC, 0xB3109EBF, 0xA0406D4B, 0x522BEE48, 0x86E18AA3, 0x748A09A0, 0x67DAFA54, 0x95B17957)
    else if r == 9 then
      Column(c, 0xCBA24573, 0x39C9C670, 0x2A993584, 0xD8F2B687, 0x0C38D26C, 0xFE53516F, 0xED03A29B, 0x1F682198)
    else if r == 10 then
      Column(c, 0x5125DAD3, 0xA34E59D0, 0xB01EAA24, 0x42752927, 0x96BF4DCC, 0x64D4CECF, 0x77843D3B, 0x85EFBE38)
    else if r == 11 then
      Column(c, 0xDBFC821C, 0x2997011F, 0x3AC7F2EB, 0xC8AC71E8, 0x1C661503, 0xEE0D9600, 0xFD5D65F4, 0x0F36E6F7)
    else if r == 12 then
      Column(c, 0x61C69362, 0x93AD1061, 0x80FDE395, 0x72966096, 0xA65C047D, 0x5437877E, 0x4767748A, 0xB50CF789)
    else if r == 13 then
      Column(c, 0xEB1FCBAD, 0x197448AE, 0x0A24BB5A, 0xF84F3859, 0x2C855CB2, 0xDEEEDFB1, 0xCDBE2C45, 0x3FD5AF46)
    else if r == 14 then
      Column(c, 0x7198540D, 0x83F3D70E, 0x90A324FA, 0x62C8A7F9, 0xB602C312, 0x44694011, 0x5739B3E5, 0xA55230E6)
    else Column(c, 0xFB410CC2, 0x092A8FC1, 0x1A7A7C35, 0xE811FF36, 0x3CDB9BDD, 0xCEB018DE, 0xDDE0EB2A, 0x2F8B6829)
  }

  function Rows16(r: bv8, c: bv8): bv32 {
    if r == 16 then
      Column(c, 0x82F63B78, 0x709DB87B, 0x63CD4B8F, 0x91A6C88C, 0x456CAC67, 0xB7072F64, 0xA457DC90, 0x563C5F93)
    else if r == 17 then
      Column(c, 0x082F63B7, 0xFA44E0B4, 0xE9141340, 0x1B7F9043, 0xCFB5F4A8, 0x3DDE77AB, 0x2E8E845F, 0xDCE5075C)
    else if r == 18 then
      Column(c, 0x92A8FC17, 0x60C37F14, 0x73938CE0, 0x81F80FE3, 0x55326B08, 0xA759E80B, 0xB4091BFF, 0x466298FC)
    else if r == 19 then
      Column(c, 0x1871A4D8, 0xEA1A27DB, 0xF94AD42F, 0x0B21572C, 0xDFEB33C7, 0x2D80B0C4, 0x3ED04330, 0xCCBBC033)
    else if r == 20 then
      Column(c, 0xA24BB5A6, 0x502036A5, 0x4370C551, 0xB11B4652, 0x65D122B9, 0x97BAA1BA, 0x84EA524E, 0x7681D14D)
    else if r == 21 then
      Column(c, 0x2892ED69, 0xDAF96E6A, 0xC9A99D9E, 0x3BC21E9D, 0xEF087A76, 0x1D63F975, 0x0E330A81, 0xFC588982)
    else if r == 22 then
      Column(c, 0xB21572C9, 0x407EF1CA, 0x532E023E, 0xA145813D, 0x758FE5D6, 0x87E466D5, 0x94B49521, 0x66DF1622)
    else Column(c, 0x38CC2A06, 0xCAA7A905, 0xD9F75AF1, 0x2B9CD9F2, 0xFF56BD19, 0x0D3D3E1A, 0x1E6DCDEE, 0xEC064EED)
  }

  function Rows24(r: bv8, c: bv8): bv32 {
    if r == 24 then
      Column(c, 0xC38D26C4, 0x31E6A5C7, 0x22B65633, 0xD0DDD530, 0x0417B1DB, 0xF67C32D8, 0xE52CC12C, 0x1747422F)
    else if r == 25 then
      Column(c, 0x49547E0B, 0xBB3FFD08, 0xA86F0EFC, 0x5A048DFF, 0x8ECEE914, 0x7CA56A17, 0x6FF599E3, 0x9D9E1AE0)
    else if r == 26 then
      Column(c, 0xD3D3E1AB, 0x21B862A8, 0x32E8915C, 0xC083125F, 0x144976B4, 0xE622F5B7, 0xF5720643, 0x07198540)
    else if r == 27 then
      Column(c, 0x590AB964, 0xAB613A67, 0xB831C993, 0x4A5A4A90, 0x9E902E7B, 0x6CFBAD78, 0x7FAB5E8C, 0x8DC0DD8F)
    else if r == 28 then
      Column(c, 0xE330A81A, 0x115B2B19, 0x020BD8ED, 0xF0605BEE, 0x24AA3F05, 0xD6C1BC06, 0xC5914FF2, 0x37FACCF1)
    else if r == 29 then
      Column(c, 0x69E9F0D5, 0x9B8273D6, 0x88D28022, 0x7AB90321, 0xAE7367CA, 0x5C18E4C9, 0x4F48173D, 0xBD23943E)
    else if r == 30 then
      Column(c, 0xF36E6F75, 0x0105EC76, 0x12551F82, 0xE03E9C81, 0x34F4F86A, 0xC69F7B69, 0xD5CF889D, 0x27A40B9E)
    else Column(c, 0x79B737BA, 0x8BDCB4B9, 0x988C474D, 0x6AE7C44E, 0xBE2DA0A5, 0x4C4623A6, 0x5F16D052, 0xAD7D5351)
  }

  function CrcTab(i: bv8): bv32 {
    var r, c := i >> 3, i & 7;
    if r < 8 then Rows0(r, c) else if r < 16 then Rows8(r, c) else if r < 24 then Rows16(r, c) else Rows24(r, c)
  }

  /** csp_crc32_memory. */
  method CrcMemory(data: seq<bv8>) returns (crc: bv32)
    ensures crc == Checksum(data)
  {
    hide CrcTab, FeedByte, Xor, Low, Wide, Down;
    crc := 0xFFFFFFFF;
    for i := 0 to |data|
      invariant Divide(crc, data[i..]) == Divide(0xFFFFFFFF, data)
    {
      assert data[i..][0] == data[i] && data[i..][1..] == data[i + 1..];
      TableStep(crc, data[i]);
      crc := Xor(CrcTab(Low(Xor(crc, Wide(data[i])))), Down(crc));
    }
    crc := Xor(crc, 0xFFFFFFFF);
  }

  // Laws

  lemma XorCommutes(a: bv32, b: bv32)
    ensures Xor(a, b) == Xor(b, a)
  {
  }

  lemma XorAssociates(a: bv32, b: bv32, c: bv32)
    ensures Xor(Xor(a, b), c) == Xor(a, Xor(b, c))
  {
  }

  lemma XorCancels(a: bv32, b: bv32, k: bv32)
    requires Xor(a, k) == Xor(b, k)
    ensures a == b
  {
    assert a == (a ^ k) ^ k && b == (b ^ k) ^ k;
  }

  lemma XorSwaps(a: bv32, b: bv32, k: bv32)
    ensures Xor(Xor(a, k), b) == Xor(Xor(a, b), k)
  {
    hide Xor;
    XorAssociates(a, k, b);
    XorCommutes(k, b);
    XorAssociates(a, b, k);
  }

  lemma XorSelf(a: bv32)
    ensures Xor(a, a) == 0 && Xor(a, 0) == a
  {
  }

  lemma XorMoves(a: bv32, b: bv32, k: bv32)
    ensures Xor(Xor(a, k), Xor(b, k)) == Xor(a, b)
    ensures Xor(Xor(a, k), b) == Xor(Xor(a, b), k)
    ensures Xor(a, Xor(b, k)) == Xor(Xor(a, b), k)
  {
    hide Xor;
    XorSwaps(a, b, k);
    XorAssociates(a, b, k);
    XorSwaps(a, Xor(b, k), k);
    XorAssociates(Xor(a, b), k, k);
    XorSelf(k);
    XorSelf(Xor(a, b));
  }

  lemma HalfXor(a: bv32, b: bv32)
    ensures Half(Xor(a, b)) == Xor(Half(a), Half(b))
  {
  }

  lemma OddXor(a: bv32, b: bv32)
    ensures Odd(Xor(a, b)) == (Odd(a) != Odd(b))
  {
  }

  // One byte at a time

  function Shift(r: bv32): bv32 {
    if Odd(r) then Xor(Half(r), POLYNOMIAL) else Half(r)
  }

  function Shift8(r: bv32): bv32 {
    Shift(Shift(Shift(Shift(Shift(Shift(Shift(Shift(r))))))))
  }

  lemma ShiftIsLinear(a: bv32, b: bv32)
    ensures Shift(Xor(a, b)) == Xor(Shift(a), Shift(b))
  {
    hide Xor, Half, Odd;
    HalfXor(a, b);
    OddXor(a, b);
    XorMoves(Half(a), Half(b), POLYNOMIAL);
  }

  lemma Shift8IsLinear(a: bv32, b: bv32)
    ensures Shift8(Xor(a, b)) == Xor(Shift8(a), Shift8(b))
  {
    hide Xor, Shift;
    var a1, b1 := Shift(a), Shift(b);
    var a2, b2 := Shift(a1), Shift(b1);
    var a3, b3 := Shift(a2), Shift(b2);
    var a4, b4 := Shift(a3), Shift(b3);
    var a5, b5 := Shift(a4), Shift(b4);
    var a6, b6 := Shift(a5), Shift(b5);
    ShiftIsLinear(a, b);
    ShiftIsLinear(a1, b1);
    ShiftIsLinear(a2, b2);
    ShiftIsLinear(a3, b3);
    ShiftIsLinear(a4, b4);
    ShiftIsLinear(a5, b5);
    ShiftIsLinear(a6, b6);
    ShiftIsLinear(Shift(a6), Shift(b6));
  }

  lemma TableLow(r: bv8, c: bv8)
    requires r < 8 && c < 8
    ensures Rows0(r, c) == Shift8(((r << 3) | c) as bv32)
  {
  }

  lemma TableMiddleLow(r: bv8, c: bv8)
    requires 8 <= r < 16 && c < 8
    ensures Rows8(r, c) == Shift8(((r << 3) | c) as bv32)
  {
  }

  lemma TableMiddleHigh(r: bv8, c: bv8)
    requires 16 <= r < 24 && c < 8
    ensures Rows16(r, c) == Shift8(((r << 3) | c) as bv32)
  {
  }

  lemma TableHigh(r: bv8, c: bv8)
    requires 24 <= r < 32 && c < 8
    ensures Rows24(r, c) == Shift8(((r << 3) | c) as bv32)
  {
  }

  /** Each of the 256 constants is what eight shifts of its index give. */
  lemma TableIsShift(i: bv8)
    ensures CrcTab(i) == Shift8(Wide(i))
  {
    hide Rows0, Rows8, Rows16, Rows24, Shift8;
    var r, c := i >> 3, i & 7;
    assert (r << 3) | c == i && r < 32 && c < 8;
    if r < 8 {
      TableLow(r, c);
    } else if r < 16 {
      TableMiddleLow(r, c);
    } else if r < 24 {
      TableMiddleHigh(r, c);
    } else {
      TableHigh(r, c);
    }
  }

  /** Eight shifts move a word without low bits down by a byte. */
  lemma ShiftHigh(w: bv32)
    requires w & 0xFF == 0
    ensures Shift8(w) == Down(w)
  {
  }

  lemma SplitWord(w: bv32)
    ensures Xor(Wide(Low(w)), w & 0xFFFFFF00) == w
    ensures (w & 0xFFFFFF00) & 0xFF == 0 && Down(w & 0xFFFFFF00) == Down(w)
  {
  }

  lemma Shift8Splits(w: bv32)
    ensures Shift8(w) == Xor(Shift8(Wide(Low(w))), Down(w))
  {
    hide Xor, Shift8, Down, Wide, Low;
    SplitWord(w);
    ShiftHigh(w & 0xFFFFFF00);
    Shift8IsLinear(Wide(Low(w)), w & 0xFFFFFF00);
  }

  lemma FeedOne(r: bv32, w: bv32)
    ensures Shift(Xor(r, w)) == Xor(FeedBit(r, Odd(w)), Half(w))
  {
    hide Xor, Half, Odd;
    HalfXor(r, w);
    OddXor(r, w);
    XorMoves(Half(r), Half(w), POLYNOMIAL);
  }

  lemma ByteBits(b: bv8, w: bv32)
    requires w == Wide(b)
    ensures Odd(w) == (b & 0x01 != 0)
    ensures Odd(Half(w)) == (b & 0x02 != 0)
    ensures Odd(Half(Half(w))) == (b & 0x04 != 0)
    ensures Odd(Half(Half(Half(w)))) == (b & 0x08 != 0)
    ensures Odd(Half(Half(Half(Half(w))))) == (b & 0x10 != 0)
    ensures Odd(Half(Half(Half(Half(Half(w)))))) == (b & 0x20 != 0)
    ensures Odd(Half(Half(Half(Half(Half(Half(w))))))) == (b & 0x40 != 0)
    ensures Odd(Half(Half(Half(Half(Half(Half(Half(w)))))))) == (b & 0x80 != 0)
    ensures Half(Half(Half(Half(Half(Half(Half(Half(w)))))))) == 0
  {
  }

  lemma FeedByteIsShift(r: bv32, b: bv8)
    ensures FeedByte(r, b) == Shift8(Xor(r, Wide(b)))
  {
    hide FeedBit, Shift, Xor, Half, Odd, Wide;
    var w := Wide(b);
    ByteBits(b, w);
    var r1, w1 := FeedBit(r, Odd(w)), Half(w);
    var r2, w2 := FeedBit(r1, Odd(w1)), Half(w1);
    var r3, w3 := FeedBit(r2, Odd(w2)), Half(w2);
    var r4, w4 := FeedBit(r3, Odd(w3)), Half(w3);
    var r5, w5 := FeedBit(r4, Odd(w4)), Half(w4);
    var r6, w6 := FeedBit(r5, Odd(w5)), Half(w5);
    var r7, w7 := FeedBit(r6, Odd(w6)), Half(w6);
    FeedOne(r, w);
    FeedOne(r1, w1);
    FeedOne(r2, w2);
    FeedOne(r3, w3);
    FeedOne(r4, w4);
    FeedOne(r5, w5);
    FeedOne(r6, w6);
    FeedOne(r7, w7);
    XorSelf(FeedBit(r7, Odd(w7)));
  }

  lemma DownIgnoresByte(r: bv32, b: bv8)
    ensures Down(Xor(r, Wide(b))) == Down(r)
  {
  }

  /** One turn of the table loop divides by one more byte. */
  lemma TableStep(r: bv32, b: bv8)
    ensures Xor(CrcTab(Low(Xor(r, Wide(b)))), Down(r)) == FeedByte(r, b)
  {
    hide CrcTab, Shift8, FeedByte, Xor, Wide, Down, Low;
    var w := Xor(r, Wide(b));
    DownIgnoresByte(r, b);
    FeedByteIsShift(r, b);
    Shift8Splits(w);
    TableIsShift(Low(w));
  }

  // Error detection

  lemma ShiftIsInjective(a: bv32, b: bv32)
    requires Shift(a) == Shift(b)
    ensures a == b
  {
  }

  lemma Shift8IsInjective(a: bv32, b: bv32)
    requires Shift8(a) == Shift8(b)
    ensures a == b
  {
    hide Shift;
    var a1, b1 := Shift(a), Shift(b);
    var a2, b2 := Shift(a1), Shift(b1);
    var a3, b3 := Shift(a2), Shift(b2);
    var a4, b4 := Shift(a3), Shift(b3);
    var a5, b5 := Shift(a4), Shift(b4);
    var a6, b6 := Shift(a5), Shift(b5);
    ShiftIsInjective(Shift(a6), Shift(b6));
    ShiftIsInjective(a6, b6);
    ShiftIsInjective(a5, b5);
    ShiftIsInjective(a4, b4);
    ShiftIsInjective(a3, b3);
    ShiftIsInjective(a2, b2);
    ShiftIsInjective(a1, b1);
    ShiftIsInjective(a, b);
  }

  lemma FeedIsInjective(r: bv32, s: bv32, b: bv8)
    requires FeedByte(r, b) == FeedByte(s, b)
    ensures r == s
  {
    hide FeedByte, Shift8, Xor, Wide;
    FeedByteIsShift(r, b);
    FeedByteIsShift(s, b);
    Shift8IsInjective(Xor(r, Wide(b)), Xor(s, Wide(b)));
    XorCancels(r, s, Wide(b));
  }

  lemma {:induction false} DivideConcat(r: bv32, p: seq<bv8>, q: seq<bv8>)
    ensures Divide(r, p + q) == Divide(Divide(r, p), q)
    decreases p
  {
    hide FeedByte;
    if p == [] {
      assert p + q == q;
    } else {
      assert (p + q)[1..] == p[1..] + q;
      DivideConcat(FeedByte(r, p[0]), p[1..], q);
    }
  }

  /** The same bytes keep different registers different. */
  lemma {:induction false} DivideIsInjective(r: bv32, s: bv32, data: seq<bv8>)
    requires Divide(r, data) == Divide(s, data)
    ensures r == s
    decreases data
  {
    hide FeedByte;
    if data != [] {
      DivideIsInjective(FeedByte(r, data[0]), FeedByte(s, data[0]), data[1..]);
      FeedIsInjective(r, s, data[0]);
    }
  }

  /** Up to four bytes as a little-endian word. */
  function Word(m: seq<bv8>): bv32
    requires |m| <= 4
  {
    if m == [] then 0 else Xor(Wide(m[0]), Up(Word(m[1..])))
  }

  /** The word of at most three bytes leaves the highest byte free. */
  predicate Fits(w: bv32, n: nat) {
    (n < 4 ==> w & 0xFF000000 == 0) && (n < 3 ==> w & 0xFFFF0000 == 0) &&
    (n < 2 ==> w & 0xFFFFFF00 == 0) && (n < 1 ==> w == 0)
  }

  lemma FitsGrows(w: bv32, n: nat, b: bv8)
    requires Fits(w, n)
    ensures Fits(Xor(Wide(b), Up(w)), n + 1)
  {
  }

  lemma {:induction false} WordFits(m: seq<bv8>)
    requires |m| <= 4
    ensures Fits(Word(m), |m|)
  {
    hide Xor, Wide, Up;
    if m != [] {
      WordFits(m[1..]);
      hide Fits;
      FitsGrows(Word(m[1..]), |m| - 1, m[0]);
    }
  }

  /** A byte and a small word above it can be read back. */
  lemma WordSplits(a: bv8, v: bv32, b: bv8, w: bv32)
    requires Fits(v, 3) && Fits(w, 3) && Xor(Wide(a), Up(v)) == Xor(Wide(b), Up(w))
    ensures a == b && v == w
  {
  }

  lemma FitsThree(w: bv32, n: nat)
    requires Fits(w, n) && n <= 3
    ensures Fits(w, 3)
  {
  }

  lemma {:induction false} WordIsInjective(p: seq<bv8>, q: seq<bv8>)
    requires |p| == |q| <= 4 && Word(p) == Word(q)
    ensures p == q
  {
    hide Xor, Wide, Up, Fits;
    if p != [] {
      WordFits(p[1..]);
      WordFits(q[1..]);
      FitsThree(Word(p[1..]), |p| - 1);
      FitsThree(Word(q[1..]), |q| - 1);
      WordSplits(p[0], Word(p[1..]), q[0], Word(q[1..]));
      WordIsInjective(p[1..], q[1..]);
      assert p == [p[0]] + p[1..] && q == [q[0]] + q[1..];
    }
  }

  lemma UpDown(w: bv32)
    requires Fits(w, 3)
    ensures Up(w) & 0xFF == 0 && Down(Up(w)) == w
  {
  }

  /** The later bytes could as well have been added to the register at the start. */
  lemma FeedEarly(r: bv32, b: bv8, w: bv32)
    requires Fits(w, 3)
    ensures Shift8(Xor(r, Xor(Wide(b), Up(w)))) == Xor(FeedByte(r, b), w)
  {
    UpDown(w);
    ShiftHigh(Up(w));
    hide Xor, Wide, Up, Down, Fits, Shift8, FeedByte;
    XorAssociates(r, Wide(b), Up(w));
    Shift8IsLinear(Xor(r, Wide(b)), Up(w));
    FeedByteIsShift(r, b);
  }

  lemma {:induction false} ShortIsInjective(r: bv32, p: seq<bv8>, s: bv32, q: seq<bv8>)
    requires |p| == |q| <= 4 && Divide(r, p) == Divide(s, q)
    ensures Xor(r, Word(p)) == Xor(s, Word(q))
    decreases p
  {
    hide Xor, Wide, Up, Fits, Shift8, FeedByte;
    if p != [] {
      ShortIsInjective(FeedByte(r, p[0]), p[1..], FeedByte(s, q[0]), q[1..]);
      WordFits(p[1..]);
      WordFits(q[1..]);
      FitsThree(Word(p[1..]), |p| - 1);
      FitsThree(Word(q[1..]), |q| - 1);
      FeedEarly(r, p[0], Word(p[1..]));
      FeedEarly(s, q[0], Word(q[1..]));
      Shift8IsInjective(Xor(r, Word(p)), Xor(s, Word(q)));
    } else {
      assert Word(p) == Word(q) == 0;
    }
  }

  /** Different messages of equal length that agree outside four consecutive bytes have different checksums. */
  lemma BurstsAreDetected(a: seq<bv8>, b: seq<bv8>, k: nat, l: nat)
    requires |a| == |b| && k <= l <= k + 4 && l <= |a|
    requires a[..k] == b[..k] && a[l..] == b[l..] && a != b
    ensures Checksum(a) != Checksum(b)
  {
    hide Xor, FeedByte, Divide, Word;
    if Checksum(a) == Checksum(b) {
      var init: bv32 := 0xFFFFFFFF;
      XorCancels(Divide(init, a), Divide(init, b), 0xFFFFFFFF);
      var p, q := a[k..l], b[k..l];
      assert a == a[..k] + p + a[l..] && b == a[..k] + q + a[l..];
      DivideConcat(init, a[..k] + p, a[l..]);
      DivideConcat(init, a[..k] + q, a[l..]);
      DivideIsInjective(Divide(init, a[..k] + p), Divide(init, a[..k] + q), a[l..]);
      DivideConcat(init, a[..k], p);
      DivideConcat(init, a[..k], q);
      var r := Divide(init, a[..k]);
      ShortIsInjective(r, p, r, q);
      XorCommutes(r, Word(p));
      XorCommutes(r, Word(q));
      XorCancels(Word(p), Word(q), r);
      WordIsInjective(p, q);
    }
  }
}
