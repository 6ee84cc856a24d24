/** CAN fragmentation: csp_can_tx, csp_can_rx and the five reassembly buffers. */
module Can {
  import opened Wrappers
  import Words
  import opened Bytes
  import opened Cfp

  const MAX_CAN_DATA_SIZE: nat := 2042
  const PBUF_ELEMENTS: nat := 5
  const PBUF_TIMEOUT_MS: nat := 1000

  /** A packet with its header. */
  datatype Pkt = Pkt(id: bv32, data: seq<bv8>)

  /** A frame on the bus: identifier and at most eight bytes. */
  datatype Frame = Frame(id: bv32, data: seq<bv8>)

  predicate IsFrame(f: Frame) {
    |f.data| <= 8
  }

  // Sending

  /** How much of a packet has been sent after c frames, c >= 1. */
  function Progress(len: nat, c: nat): nat
    requires c >= 1
  {
    if 8 * (c - 1) + 2 <= len then 8 * (c - 1) + 2 else len
  }

  /** Frames still to come when `left` bytes are left. */
  function FramesFor(left: nat): nat {
    (left + 7) / 8
  }

  function FrameCount(len: nat): nat {
    1 + FramesFor(len - Progress(len, 1))
  }

  /** The addresses and identification that go into every frame of a packet. */
  datatype Route = Route(src: bv32, dst: bv32, ident: bv32)

  function FrameId(r: Route, kind: bv32, remain: nat): bv32
    requires remain < 0x100
  {
    Pack(r.src, r.dst, r.ident, kind, Small(remain))
  }

  /** The k-th frame of a packet. */
  function Fragment(p: Pkt, r: Route, k: nat): Frame
    requires |p.data| <= MAX_CAN_DATA_SIZE && k < FrameCount(|p.data|)
  {
    var len := |p.data|;
    if k == 0 then
      Frame(FrameId(r, BEGIN, FramesFor(len - Progress(len, 1))), Be32(p.id) + Be16(len) + p.data[..Progress(len, 1)])
    else
      Frame(FrameId(r, MORE, FramesFor(len - Progress(len, k + 1))), p.data[Progress(len, k)..Progress(len, k + 1)])
  }

  function Fragments(p: Pkt, r: Route): seq<Frame>
    requires |p.data| <= MAX_CAN_DATA_SIZE
  {
    seq(FrameCount(|p.data|), k requires 0 <= k < FrameCount(|p.data|) => Fragment(p, r, k))
  }

  datatype TxResult = TxNone | TxError | DriverError

  /** What csp_can_tx hands to a driver that accepts the first `accepts` frames, and what it returns. */
  ghost predicate Transmits(p: Pkt, r: Route, accepts: nat, result: TxResult, sent: seq<Frame>) {
    if |p.data| > MAX_CAN_DATA_SIZE then result == TxError && sent == []
    else if accepts < FrameCount(|p.data|) then result == DriverError && sent == Fragments(p, r)[..accepts]
    else result == TxNone && sent == Fragments(p, r)
  }

  lemma FirstFragment(p: Pkt, r: Route)
    requires |p.data| <= MAX_CAN_DATA_SIZE
    ensures |Fragments(p, r)| == FrameCount(|p.data|)
    ensures var bytes := if |p.data| <= 2 then |p.data| else 2;
            Fragments(p, r)[0] == Frame(FrameId(r, BEGIN, (|p.data| + 5) / 8),
              Be32(p.id) + Be16(|p.data|) + p.data[..bytes])
  {
    hide FrameId, Be32, Be16;
  }

  lemma LaterFragment(p: Pkt, r: Route, c: nat)
    requires |p.data| <= MAX_CAN_DATA_SIZE && 1 <= c && Progress(|p.data|, c) < |p.data|
    ensures c < FrameCount(|p.data|) == |Fragments(p, r)|
    ensures var left := |p.data| - Progress(|p.data|, c);
            var bytes := if left >= 8 then 8 else left;
            && Progress(|p.data|, c + 1) == Progress(|p.data|, c) + bytes
            && Fragments(p, r)[c] == Frame(FrameId(r, MORE, (left - bytes + 7) / 8),
                                           p.data[Progress(|p.data|, c)..Progress(|p.data|, c + 1)])
  {
    hide FrameId, Be32, Be16;
    NextFragment(|p.data|, c);
  }

  /** The frames of csp_can_tx, made one after the other. */
  method SendFrames(p: Pkt, r: Route, accepts: nat) returns (result: TxResult, sent: seq<Frame>)
    ensures Transmits(p, r, accepts, result, sent)
  {
    hide FrameId, Be32, Be16, Fragments;
    if |p.data| > MAX_CAN_DATA_SIZE {
      return TxError, [];
    }
    var len := |p.data|;
    FirstFragment(p, r);
    ghost var all := Fragments(p, r);
    var bytes := if len <= 2 then len else 2;
    var frame := Frame(FrameId(r, BEGIN, (len + 5) / 8), Be32(p.id) + Be16(len) + p.data[..bytes]);
    sent := [];
    if accepts == 0 {
      return DriverError, sent;
    }
    sent := [frame];
    var txCount := bytes;
    while txCount < len
      invariant 1 <= |sent| <= |all| && sent == all[..|sent|]
      invariant txCount == Progress(len, |sent|)
      invariant |sent| <= accepts
      decreases len - txCount
    {
      LaterFragment(p, r, |sent|);
      bytes := if len - txCount >= 8 then 8 else len - txCount;
      var id := FrameId(r, MORE, (len - txCount - bytes + 7) / 8);
      txCount := txCount + bytes;
      frame := Frame(id, p.data[txCount - bytes..txCount]);
      if |sent| == accepts {
        return DriverError, sent;
      }
      sent := sent + [frame];
    }
    LastFragment(len, |sent|);
    return TxNone, sent;
  }

  class CanSender {
    var cfpFrameId: bv32

    constructor ()
      ensures cfpFrameId == 0
    {
      cfpFrameId := 0;
    }

    /** csp_can_tx: every packet takes the next identification. */
    method CanTx(p: Pkt, src: bv32, dst: bv32, accepts: nat) returns (result: TxResult, sent: seq<Frame>)
      modifies this
      ensures cfpFrameId == old(cfpFrameId) + 1
      ensures Transmits(p, Route(src, dst, old(cfpFrameId)), accepts, result, sent)
    {
      hide Transmits;
      var r := Route(src, dst, cfpFrameId);
      cfpFrameId := cfpFrameId + 1;
      result, sent := SendFrames(p, r, accepts);
    }
  }

  lemma NextFragment(len: nat, c: nat)
    requires 1 <= c && Progress(len, c) < len
    ensures c < FrameCount(len)
    ensures Progress(len, c + 1) == Progress(len, c) + if len - Progress(len, c) >= 8 then 8 else len - Progress(len, c)
    ensures FramesFor(len - Progress(len, c)) == FramesFor(len - Progress(len, c + 1)) + 1
  {
  }

  lemma LastFragment(len: nat, c: nat)
    requires 1 <= c <= FrameCount(len)
    ensures Progress(len, c) == len <==> c == FrameCount(len)
    ensures FramesFor(len - Progress(len, c)) == FrameCount(len) - c
  {
  }

  /** The largest packet is the one whose frames the eight bits of remain can still count. */
  lemma LargestPacket(len: nat)
    ensures len <= MAX_CAN_DATA_SIZE <==> FrameCount(len) - 1 < 0x100
    ensures FrameCount(2042) == 0x100
  {
  }

  /** No frame holds more than eight bytes, and every one but the last is full. */
  lemma FramesAreFull(p: Pkt, r: Route, k: nat)
    requires |p.data| <= MAX_CAN_DATA_SIZE && k < FrameCount(|p.data|)
    ensures var f := Fragment(p, r, k);
            IsFrame(f) && (k + 1 < FrameCount(|p.data|) ==> |f.data| == 8)
  {
    hide FrameId;
  }

  // Reassembly

  /** A packet in the making: its header, its announced length and the bytes received so far. */
  datatype Partial = Partial(id: bv32, length: nat, data: seq<bv8>)

  /** A reassembly element; rx_count is the number of bytes in its packet. */
  datatype Elem = Elem(used: bool, cfpid: bv32, remain: nat, lastUsed: Words.uint32, packet: Option<Partial>)

  const FREE: Elem := Elem(false, 0, 0, 0, None)

  predicate Matches(e: Elem, id: bv32) {
    e.used && Key(e.cfpid) == Key(id)
  }

  /** csp_can_pbuf_find: the index of the first match, or the number of elements. */
  function Find(pb: seq<Elem>, id: bv32): (i: nat)
    ensures i <= |pb|
    ensures i < |pb| ==> Matches(pb[i], id)
    ensures forall j | 0 <= j < i :: !Matches(pb[j], id)
  {
    if pb == [] then 0 else if Matches(pb[0], id) then 0 else 1 + Find(pb[1..], id)
  }

  predicate Stale(e: Elem, now: Words.uint32) {
    e.used && Words.U32(now - e.lastUsed) > PBUF_TIMEOUT_MS
  }

  /** The index of the first element csp_can_pbuf_new can take: a free or a timed-out one. */
  function FirstFree(pb: seq<Elem>, now: Words.uint32): (i: nat)
    ensures i <= |pb|
    ensures i < |pb| ==> !pb[i].used || Stale(pb[i], now)
    ensures forall j | 0 <= j < i :: pb[j].used && !Stale(pb[j], now)
  {
    if pb == [] then 0 else if !pb[0].used || Stale(pb[0], now) then 0 else 1 + FirstFree(pb[1..], now)
  }

  /** What a frame does to the element it belongs to. */
  datatype Outcome = Outcome(elem: Elem, out: seq<Pkt>, frame: nat, rxError: nat)

  /** The part of csp_can_rx from the MORE label on. */
  function Absorb(e: Elem, part: Partial, payload: seq<bv8>, remain: nat): Outcome {
    if remain != e.remain - 1 then Outcome(FREE, [], 1, 0)
    else if |part.data| + |payload| > part.length then Outcome(FREE, [], 1, 0)
    else
      var data := part.data + payload;
      if |data| != part.length
      then Outcome(e.(remain := e.remain - 1, packet := Some(part.(data := data))), [], 0, 0)
      else Outcome(FREE, [Pkt(part.id, data)], 0, 0)
  }

  function OnBegin(e: Elem, f: Frame, avail: bool, size: nat): Outcome {
    if |f.data| < 6 then Outcome(FREE, [], 1, 0)
    else if e.packet.None? && !avail then Outcome(FREE, [], 1, 0)
    else
      var counted := if e.packet.Some? then 1 else 0;
      var part := Partial(ReadBe32(f.data[..4]), ReadBe16(f.data[4..6]), []);
      if part.length > MAX_CAN_DATA_SIZE || part.length > size then Outcome(FREE, [], counted, 1)
      else
        var o := Absorb(e.(remain := Remain(f.id) + 1), part, f.data[6..], Remain(f.id));
        o.(frame := counted + o.frame)
  }

  function OnFrame(e: Elem, f: Frame, avail: bool, size: nat): Outcome
    requires Type(f.id) != BEGIN ==> e.packet.Some?
  {
    if Type(f.id) == BEGIN then OnBegin(e, f, avail, size)
    else Absorb(e, e.packet.value, f.data, Remain(f.id))
  }

  datatype Rx = Rx(pb: seq<Elem>, out: seq<Pkt>, frame: nat, rxError: nat)

  predicate HasPackets(pb: seq<Elem>) {
    forall i | 0 <= i < |pb| && pb[i].used :: pb[i].packet.Some?
  }

  function Put(r: Rx, i: nat, o: Outcome): Rx
    requires i < |r.pb|
  {
    Rx(r.pb[i := o.elem], r.out + o.out, r.frame + o.frame, r.rxError + o.rxError)
  }

  function Taken(id: bv32, now: Words.uint32): Elem {
    Elem(true, id, 0, now, None)
  }

  /** csp_can_rx. */
  function Receive(r: Rx, f: Frame, now: Words.uint32, avail: bool, size: nat): Rx
    requires HasPackets(r.pb)
  {
    var i := Find(r.pb, f.id);
    if i < |r.pb| then Put(r, i, OnFrame(r.pb[i].(lastUsed := now), f, avail, size))
    else if Type(f.id) != BEGIN then r.(frame := r.frame + 1)
    else
      var j := FirstFree(r.pb, now);
      if j == |r.pb| then r.(rxError := r.rxError + 1)
      else Put(r, j, OnFrame(Taken(f.id, now), f, avail, size))
  }

  /** An element is given up after more than a second without a frame. */
  lemma StaleAfterASecond(e: Elem, now: Words.uint32)
    ensures Stale(e, now) <==> e.used && 1000 < (now - e.lastUsed) % 0x1_0000_0000
  {
  }

  /** The frame counter after a BEGIN frame: one for a packet it cuts off, and one for a frame that is dropped. */
  lemma BeginCounts(e: Elem, f: Frame, avail: bool, size: nat)
    ensures var o := OnBegin(e, f, avail, size);
            var taken := |f.data| >= 6 && (e.packet.Some? || avail);
            var length := if taken then ReadBe16(f.data[4..6]) else 0;
            var tooLong := length > 2042 || length > size;
            && o.rxError == (if taken && tooLong then 1 else 0)
            && o.frame == (if !taken then 1
                           else (if e.packet.Some? then 1 else 0)
                                + (if !tooLong && |f.data| - 6 > length then 1 else 0))
            && (|o.out| == 1 <==> taken && !tooLong && |f.data| - 6 == length)
            && (o.out != [] ==> o.out == [Pkt(ReadBe32(f.data[..4]), f.data[6..])] && !o.elem.used)
  {
    hide ReadBe32, ReadBe16, Remain;
    assert forall d: seq<bv8> :: [] + d == d;
  }

  /** A MORE frame is dropped, counted once, unless its remain is the next one down and its bytes still fit. */
  lemma MoreCounts(e: Elem, part: Partial, payload: seq<bv8>, remain: nat)
    ensures var o := Absorb(e, part, payload, remain);
            var fits := remain + 1 == e.remain && |part.data| + |payload| <= part.length;
            && o.frame == (if fits then 0 else 1) && o.rxError == 0
            && (!fits ==> !o.elem.used && o.out == [])
            && (fits && |part.data| + |payload| < part.length ==>
                  o.out == [] && o.elem == e.(remain := remain, packet := Some(part.(data := part.data + payload))))
            && (fits && |part.data| + |payload| == part.length ==>
                  !o.elem.used && o.out == [Pkt(part.id, part.data + payload)])
  {
  }

  datatype RxResult = RxNone | NoMem | Inval

  class CanReceiver {
    const size: nat
    const pbuf: array<Elem>
    var qfifo: seq<Pkt>
    var frame: nat
    var rxError: nat

    ghost predicate Valid()
      reads this, pbuf
    {
      pbuf.Length == PBUF_ELEMENTS && HasPackets(pbuf[..])
    }

    ghost function State(): Rx
      reads this, pbuf
    {
      Rx(pbuf[..], qfifo, frame, rxError)
    }

    constructor (size: nat)
      ensures Valid() && this.size == size && State() == Rx([FREE, FREE, FREE, FREE, FREE], [], 0, 0)
    {
      this.size := size;
      pbuf := new Elem[PBUF_ELEMENTS](i => FREE);
      qfifo, frame, rxError := [], 0, 0;
      new;
      assert pbuf[..] == [FREE, FREE, FREE, FREE, FREE];
    }

    /** csp_can_pbuf_find. */
    method PbufFind(id: bv32, now: Words.uint32) returns (i: nat)
      requires Valid()
      modifies pbuf
      ensures i == Find(old(pbuf[..]), id)
      ensures pbuf[..] == if i < PBUF_ELEMENTS then old(pbuf[..])[i := old(pbuf[..])[i].(lastUsed := now)]
              else old(pbuf[..])
    {
      hide Key;
      for k := 0 to PBUF_ELEMENTS
        invariant pbuf[..] == old(pbuf[..])
        invariant forall j | 0 <= j < k :: !Matches(old(pbuf[..])[j], id)
      {
        if pbuf[k].used && Key(pbuf[k].cfpid) == Key(id) {
          FindIs(pbuf[..], id, k);
          pbuf[k] := pbuf[k].(lastUsed := now);
          return k;
        }
      }
      FindIs(pbuf[..], id, PBUF_ELEMENTS);
      return PBUF_ELEMENTS;
    }

    /** csp_can_pbuf_new: timed-out elements are freed on the way. */
    method PbufNew(id: bv32, now: Words.uint32) returns (i: nat)
      requires Valid()
      modifies pbuf
      ensures i == FirstFree(old(pbuf[..]), now)
      ensures pbuf[..] == if i < PBUF_ELEMENTS then old(pbuf[..])[i := Taken(id, now)] else old(pbuf[..])
    {
      for k := 0 to PBUF_ELEMENTS
        invariant pbuf[..] == old(pbuf[..])
        invariant forall j | 0 <= j < k :: old(pbuf[..])[j].used && !Stale(old(pbuf[..])[j], now)
      {
        if pbuf[k].used {
          if Words.U32(now - pbuf[k].lastUsed) > PBUF_TIMEOUT_MS {
            pbuf[k] := FREE;
          }
        }
        if !pbuf[k].used {
          FirstFreeIs(old(pbuf[..]), now, k);
          pbuf[k] := Taken(id, now);
          return k;
        }
      }
      FirstFreeIs(pbuf[..], now, PBUF_ELEMENTS);
      return PBUF_ELEMENTS;
    }

    /** csp_can_rx. */
    method CanRx(f: Frame, now: Words.uint32, avail: bool) returns (result: RxResult)
      requires Valid() && IsFrame(f)
      modifies this, pbuf
      ensures Valid() && State() == Receive(old(State()), f, now, avail, size)
      ensures result == NoMem ==> rxError == old(rxError) + 1 && pbuf[..] == old(pbuf[..])
      ensures result == Inval ==> frame == old(frame) + 1 && pbuf[..] == old(pbuf[..])
    {
      hide Key, OnFrame, Find, FirstFree;
      var i := PbufFind(f.id, now);
      if i == PBUF_ELEMENTS {
        if Type(f.id) == BEGIN {
          i := PbufNew(f.id, now);
          if i == PBUF_ELEMENTS {
            rxError := rxError + 1;
            return NoMem;
          }
        } else {
          frame := frame + 1;
          return Inval;
        }
      }
      Update(i, f, avail);
      return RxNone;
    }

    /** The switch of csp_can_rx on element i. */
    method Update(i: nat, f: Frame, avail: bool)
      requires pbuf.Length == PBUF_ELEMENTS && i < PBUF_ELEMENTS && pbuf[i].used
      requires Type(f.id) != BEGIN ==> pbuf[i].packet.Some?
      requires forall j | 0 <= j < PBUF_ELEMENTS && j != i && pbuf[j].used :: pbuf[j].packet.Some?
      modifies this, pbuf
      ensures HasPackets(pbuf[..]) && State() == Put(old(State()), i, OnFrame(old(pbuf[i]), f, avail, size))
    {
      hide ReadBe32, ReadBe16, Absorb, Remain;
      if Type(f.id) == BEGIN {
        if |f.data| < 6 {
          frame := frame + 1;
          pbuf[i] := FREE;
          return;
        }
        if pbuf[i].packet.Some? {
          frame := frame + 1;
        } else if !avail {
          frame := frame + 1;
          pbuf[i] := FREE;
          return;
        }
        var length := ReadBe16(f.data[4..6]);
        if length > MAX_CAN_DATA_SIZE || length > size {
          rxError := rxError + 1;
          pbuf[i] := FREE;
          return;
        }
        Begin(i, f, length);
      } else {
        More(i, f, f.data);
      }
    }

    /** Setting the element up for a new packet and falling through to its first bytes. */
    method Begin(i: nat, f: Frame, length: nat)
      requires pbuf.Length == PBUF_ELEMENTS && i < PBUF_ELEMENTS && pbuf[i].used && |f.data| >= 6
      requires forall j | 0 <= j < PBUF_ELEMENTS && j != i && pbuf[j].used :: pbuf[j].packet.Some?
      modifies this, pbuf
      ensures HasPackets(pbuf[..])
      ensures State() == Put(old(State()), i, Absorb(old(pbuf[i]).(remain := Remain(f.id) + 1),
                                                     Partial(ReadBe32(f.data[..4]), length, []), f.data[6..],
                                                     Remain(f.id)))
    {
      hide ReadBe32, ReadBe16, Remain;
      pbuf[i] := pbuf[i].(packet := Some(Partial(ReadBe32(f.data[..4]), length, [])), remain := Remain(f.id) + 1);
      More(i, f, f.data[6..]);
    }

    method More(i: nat, f: Frame, payload: seq<bv8>)
      requires pbuf.Length == PBUF_ELEMENTS && i < PBUF_ELEMENTS && pbuf[i].used && pbuf[i].packet.Some?
      requires HasPackets(pbuf[..])
      modifies this, pbuf
      ensures HasPackets(pbuf[..])
      ensures State() == Put(old(State()), i, Absorb(old(pbuf[i]), old(pbuf[i].packet.value), payload, Remain(f.id)))
    {
      hide Remain;
      var part := pbuf[i].packet.value;
      if Remain(f.id) != pbuf[i].remain - 1 {
        pbuf[i] := FREE;
        frame := frame + 1;
        return;
      }
      pbuf[i] := pbuf[i].(remain := pbuf[i].remain - 1);
      if |part.data| + |payload| > part.length {
        frame := frame + 1;
        pbuf[i] := FREE;
        return;
      }
      part := part.(data := part.data + payload);
      pbuf[i] := pbuf[i].(packet := Some(part));
      if |part.data| != part.length {
        return;
      }
      qfifo := qfifo + [Pkt(part.id, part.data)];
      pbuf[i] := FREE;
    }
  }

  lemma {:induction false} FindIs(pb: seq<Elem>, id: bv32, k: nat)
    requires k <= |pb| && forall j | 0 <= j < k :: !Matches(pb[j], id)
    requires k < |pb| ==> Matches(pb[k], id)
    ensures Find(pb, id) == k
  {
    hide Key;
  }

  lemma {:induction false} FirstFreeIs(pb: seq<Elem>, now: Words.uint32, k: nat)
    requires k <= |pb| && forall j | 0 <= j < k :: pb[j].used && !Stale(pb[j], now)
    requires k < |pb| ==> !pb[k].used || Stale(pb[k], now)
    ensures FirstFree(pb, now) == k
  {
  }
}
