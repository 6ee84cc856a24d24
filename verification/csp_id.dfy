/** The packed 32-bit packet header: two priority bits, two addresses, two ports and eight flags. */
module CspId {
  import opened Bytes
  import opened ConnPool

  function Src(ext: bv32): bv32 { (ext >> 25) & 0x1F }

  function Dst(ext: bv32): bv32 { (ext >> 20) & 0x1F }

  function Dport(ext: bv32): bv32 { (ext >> 14) & 0x3F }

  function Sport(ext: bv32): bv32 { (ext >> 8) & 0x3F }

  const SRC_MASK: bv32 := 0x1F << 25
  const DST_MASK: bv32 := 0x1F << 20
  const DPORT_MASK: bv32 := 0x3F << 14
  const SPORT_MASK: bv32 := 0x3F << 8

  function MaskConn(ext: bv32): bv32 { ext & (SRC_MASK | DST_MASK | DPORT_MASK | SPORT_MASK) }

  function MaskDport(ext: bv32): bv32 { ext & DPORT_MASK }

  lemma MaskKeepsFields(ext: bv32)
    ensures Src(MaskConn(ext)) == Src(ext) && Dst(MaskConn(ext)) == Dst(ext)
    ensures Dport(MaskConn(ext)) == Dport(ext) && Sport(MaskConn(ext)) == Sport(ext)
    ensures Dport(MaskDport(ext)) == Dport(ext)
  {
  }

  function FromFields(src: bv32, dst: bv32, dport: bv32, sport: bv32): bv32 {
    (src << 25) | (dst << 20) | (dport << 14) | (sport << 8)
  }

  lemma MaskIsItsFields(ext: bv32)
    ensures MaskConn(ext) == FromFields(Src(ext), Dst(ext), Dport(ext), Sport(ext))
    ensures MaskDport(ext) == FromFields(0, 0, Dport(ext), 0)
  {
  }

  /**
   * Headers agree under CSP_ID_CONN_MASK exactly when they agree in the addresses and ports, and under
   * CSP_ID_DPORT_MASK exactly when they agree in the destination port; priority and flags do not matter.
   */
  lemma MasksAreFields(a: bv32, b: bv32)
    ensures MaskConn(a) == MaskConn(b) <==>
            Src(a) == Src(b) && Dst(a) == Dst(b) && Dport(a) == Dport(b) && Sport(a) == Sport(b)
    ensures MaskDport(a) == MaskDport(b) <==> Dport(a) == Dport(b)
  {
    hide Src, Dst, Dport, Sport, MaskConn, MaskDport, FromFields;
    MaskKeepsFields(a);
    MaskKeepsFields(b);
    MaskIsItsFields(a);
    MaskIsItsFields(b);
  }

  // The header as the connection pool sees it

  /** The bit fields of a header, one by one. */
  function IdOf(ext: bv32): Id {
    Id(Number(ext >> 30), Number(Src(ext)), Number(Dst(ext)), Number(Dport(ext)), Number(Sport(ext)),
      Number(ext & 0xFF))
  }

  /** The two masked comparisons of the C code are the comparisons of fields in the connection pool. */
  lemma MasksAreKeys(a: bv32, b: bv32)
    ensures MaskConn(a) == MaskConn(b) <==> SameKey(IdOf(a), IdOf(b))
    ensures MaskDport(a) == MaskDport(b) <==> IdOf(a).dport == IdOf(b).dport
  {
    hide Src, Dst, Dport, Sport, MaskConn, MaskDport, Number;
    MasksAreFields(a, b);
    SameNumber(Src(a), Src(b));
    SameNumber(Dst(a), Dst(b));
    SameNumber(Dport(a), Dport(b));
    SameNumber(Sport(a), Sport(b));
  }
}
