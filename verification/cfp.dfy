/** The 29-bit identifiers of the CAN fragmentation protocol. */
module Cfp {
  import opened Bytes

  function MakeSrc(x: bv32): bv32 { (x & 0x1F) << 24 }

  function MakeDst(x: bv32): bv32 { (x & 0x1F) << 19 }

  function MakeType(x: bv32): bv32 { (x & 0x1) << 18 }

  function MakeRemain(x: bv32): bv32 { (x & 0xFF) << 10 }

  function MakeId(x: bv32): bv32 { x & 0x3FF }

  function Src(id: bv32): bv32 { (id >> 24) & 0x1F }

  function Dst(id: bv32): bv32 { (id >> 19) & 0x1F }

  function Type(id: bv32): bv32 { (id >> 18) & 0x1 }

  function RemainBits(id: bv32): bv8 { ((id >> 10) & 0xFF) as bv8 }

  function Id(id: bv32): bv32 { id & 0x3FF }

  const BEGIN: bv32 := 0
  const MORE: bv32 := 1

  function Pack(src: bv32, dst: bv32, ident: bv32, kind: bv32, remain: bv8): bv32 {
    MakeSrc(src) | MakeDst(dst) | MakeId(ident) | MakeType(kind) | MakeRemain(remain as bv32)
  }

  /** Every field can be read back, cut to its size. */
  lemma PackRoundTrip(src: bv32, dst: bv32, ident: bv32, kind: bv32, remain: bv8)
    ensures var id := Pack(src, dst, ident, kind, remain);
            && Src(id) == src & 0x1F && Dst(id) == dst & 0x1F && Id(id) == ident & 0x3FF
            && Type(id) == kind & 0x1 && RemainBits(id) == remain
  {
  }

  /** CFP_ID_CONN_MASK: the bits of source, destination and identification. */
  function Key(id: bv32): bv32 {
    id & (MakeSrc(0x1F) | MakeDst(0x1F) | MakeId(0x3FF))
  }

  /** The mask keeps exactly the three fields. */
  lemma KeyKeepsFields(id: bv32)
    ensures Src(Key(id)) == Src(id) && Dst(Key(id)) == Dst(id) && Id(Key(id)) == Id(id)
  {
  }

  lemma KeyIsItsFields(id: bv32)
    ensures Key(id) == MakeSrc(Src(id)) | MakeDst(Dst(id)) | MakeId(Id(id))
  {
  }

  /** Identifiers agree under the mask exactly when they agree in the three fields. */
  lemma KeyIsFields(a: bv32, b: bv32)
    ensures Key(a) == Key(b) <==> Src(a) == Src(b) && Dst(a) == Dst(b) && Id(a) == Id(b)
  {
    hide Key, Src, Dst, Id, MakeSrc, MakeDst, MakeId;
    KeyKeepsFields(a);
    KeyKeepsFields(b);
    KeyIsItsFields(a);
    KeyIsItsFields(b);
  }

  function Remain(id: bv32): nat { Value(RemainBits(id)) }

  lemma PackRemain(src: bv32, dst: bv32, ident: bv32, kind: bv32, n: nat)
    requires n < 0x100
    ensures Remain(Pack(src, dst, ident, kind, Small(n))) == n
  {
    hide Pack, RemainBits, Small, Value;
    SmallRoundTrip(n);
    PackRoundTrip(src, dst, ident, kind, Small(n));
  }

  /** The key depends on source, destination and identification only, so all fragments of a packet share it. */
  lemma PackKey(src: bv32, dst: bv32, ident: bv32, kind: bv32, remain: bv8)
    ensures Key(Pack(src, dst, ident, kind, remain)) == MakeSrc(src) | MakeDst(dst) | MakeId(ident)
  {
  }
}
