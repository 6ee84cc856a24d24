/** What csp_can_rx delivers, over every stream of frames and over every interleaving of csp_can_tx's frames. */
module CanReassembly {
  import opened Wrappers
  import Words
  import opened Bytes
  import opened Cfp
  import opened Can

  /** A frame arriving at some time, with or without a packet buffer to be had. */
  datatype Event = Event(f: Frame, now: Words.uint32, avail: bool)

  lemma ReceiveKeepsShape(r: Rx, f: Frame, now: Words.uint32, avail: bool, size: nat)
    requires HasPackets(r.pb)
    ensures var r' := Receive(r, f, now, avail, size); HasPackets(r'.pb) && |r'.pb| == |r.pb|
  {
    hide Key, Type, Remain, ReadBe32, ReadBe16, Find, FirstFree;
  }

  const IDLE: Rx := Rx([FREE, FREE, FREE, FREE, FREE], [], 0, 0)

  function Run(evs: seq<Event>, size: nat): (r: Rx)
    ensures HasPackets(r.pb) && |r.pb| == PBUF_ELEMENTS
  {
    if evs == [] then IDLE
    else
      var r, ev := Run(evs[..|evs| - 1], size), evs[|evs| - 1];
      ReceiveKeepsShape(r, ev.f, ev.now, ev.avail, size);
      Receive(r, ev.f, ev.now, ev.avail, size)
  }

  // Safety on any stream

  /** The frames of one key, in order of arrival. */
  function Own(evs: seq<Event>, key: bv32): seq<Frame> {
    if evs == [] then []
    else
      var f := evs[|evs| - 1].f;
      Own(evs[..|evs| - 1], key) + if Key(f.id) == key then [f] else []
  }

  function Payloads(fs: seq<Frame>): seq<bv8> {
    if fs == [] then [] else Payloads(fs[..|fs| - 1]) + fs[|fs| - 1].data
  }

  /** The frames are a BEGIN and MOREs counting down by one, and together make the packet. */
  ghost predicate Assembles(fs: seq<Frame>, part: Partial, remain: nat) {
    && |fs| >= 1 && Type(fs[0].id) == BEGIN && |fs[0].data| >= 6
    && (forall k | 1 <= k < |fs| :: Type(fs[k].id) != BEGIN && Remain(fs[k].id) == Remain(fs[k - 1].id) - 1)
    && Remain(fs[|fs| - 1].id) == remain
    && part.id == ReadBe32(fs[0].data[..4])
    && part.length == ReadBe16(fs[0].data[4..6])
    && part.data == fs[0].data[6..] + Payloads(fs[1..])
  }

  lemma AssemblesFirst(f: Frame)
    requires Type(f.id) == BEGIN && |f.data| >= 6
    ensures Assembles([f], Partial(ReadBe32(f.data[..4]), ReadBe16(f.data[4..6]), f.data[6..]), Remain(f.id))
  {
    hide Type, Remain, ReadBe32, ReadBe16;
  }

  lemma AssemblesMore(fs: seq<Frame>, part: Partial, remain: nat, f: Frame)
    requires Assembles(fs, part, remain) && Type(f.id) != BEGIN && Remain(f.id) == remain - 1
    ensures Assembles(fs + [f], part.(data := part.data + f.data), remain - 1)
  {
    hide Type, Remain, ReadBe32, ReadBe16;
    var gs := (fs + [f])[1..];
    assert gs[..|gs| - 1] == fs[1..] && gs[|gs| - 1] == f;
  }

  /** Since event `start`, the frames of this element's key are one packet in the making. */
  ghost predicate Since(evs: seq<Event>, start: nat, e: Elem) {
    && start <= |evs| && e.packet.Some?
    && Assembles(Own(evs[start..], Key(e.cfpid)), e.packet.value, e.remain)
  }

  ghost predicate Growing(evs: seq<Event>, e: Elem, size: nat) {
    && e.packet.Some?
    && |e.packet.value.data| < e.packet.value.length <= MAX_CAN_DATA_SIZE
    && e.packet.value.length <= size
    && exists start: nat :: Since(evs, start, e)
  }

  ghost predicate DistinctKeys(pb: seq<Elem>) {
    forall i, j | 0 <= i < j < |pb| && pb[i].used && pb[j].used :: Key(pb[i].cfpid) != Key(pb[j].cfpid)
  }

  ghost predicate Sound(evs: seq<Event>, pb: seq<Elem>, size: nat) {
    DistinctKeys(pb) && forall i | 0 <= i < |pb| && pb[i].used :: Growing(evs, pb[i], size)
  }

  /** The frames with this packet's key since some event are exactly this packet, in full. */
  ghost predicate IsWhole(evs: seq<Event>, key: bv32, p: Pkt, size: nat) {
    && |p.data| <= size && |p.data| <= MAX_CAN_DATA_SIZE
    && exists start: nat, remain: nat :: IsWholeSince(evs, key, p, start, remain)
  }

  ghost predicate IsWholeSince(evs: seq<Event>, key: bv32, p: Pkt, start: nat, remain: nat) {
    start <= |evs| && Assembles(Own(evs[start..], key), Partial(p.id, |p.data|, p.data), remain)
  }

  lemma OwnSnoc(evs: seq<Event>, ev: Event, start: nat, key: bv32)
    requires start <= |evs|
    ensures Own((evs + [ev])[start..], key) ==
            if Key(ev.f.id) == key then Own(evs[start..], key) + [ev.f] else Own(evs[start..], key)
  {
    hide Key;
    var all := (evs + [ev])[start..];
    assert all[..|all| - 1] == evs[start..] && all[|all| - 1] == ev;
  }

  /** An element of another key does not notice the frame. */
  lemma OthersGrow(evs: seq<Event>, ev: Event, e: Elem, size: nat)
    requires Growing(evs, e, size) && Key(e.cfpid) != Key(ev.f.id)
    ensures Growing(evs + [ev], e, size)
  {
    hide Key, Assembles, Own;
    var start: nat :| Since(evs, start, e);
    OwnSnoc(evs, ev, start, Key(e.cfpid));
    assert Since(evs + [ev], start, e);
  }

  /** What the last frame leaves of the element that took it, and what it delivers. */
  ghost predicate Fits(evs: seq<Event>, o: Outcome, key: bv32, size: nat) {
    && (o.elem.used ==> Key(o.elem.cfpid) == key && Growing(evs, o.elem, size))
    && (o.out == [] || (|o.out| == 1 && IsWhole(evs, key, o.out[0], size) && !o.elem.used))
  }

  /** The part common to BEGIN and MORE: the frames, this one included, make the extended packet. */
  lemma AbsorbFits(evs: seq<Event>, e: Elem, part: Partial, payload: seq<bv8>, remain: nat, start: nat, size: nat)
    requires start <= |evs| && part.length <= size && part.length <= MAX_CAN_DATA_SIZE && e.used
    requires remain == e.remain - 1 ==>
               Assembles(Own(evs[start..], Key(e.cfpid)), part.(data := part.data + payload), remain)
    ensures Fits(evs, Absorb(e, part, payload, remain), Key(e.cfpid), size)
  {
    hide Key, Assembles, Own;
    var o := Absorb(e, part, payload, remain);
    if o.elem.used {
      assert Since(evs, start, o.elem);
    } else if o.out != [] {
      assert IsWholeSince(evs, Key(e.cfpid), o.out[0], start, remain);
    }
  }

  lemma OwnFirst(evs: seq<Event>, ev: Event)
    ensures Own((evs + [ev])[|evs|..], Key(ev.f.id)) == [ev.f]
  {
    hide Key;
    assert (evs + [ev])[|evs|..] == [ev];
    assert [ev][..0] == [];
  }

  lemma BeginFits(evs: seq<Event>, ev: Event, e: Elem, size: nat)
    requires Type(ev.f.id) == BEGIN && e.used && Key(e.cfpid) == Key(ev.f.id)
    ensures Fits(evs + [ev], OnBegin(e, ev.f, ev.avail, size), Key(ev.f.id), size)
  {
    hide Key, Type, Remain, ReadBe32, ReadBe16, Own, Assembles, Absorb;
    var f := ev.f;
    if |f.data| >= 6 && ReadBe16(f.data[4..6]) <= MAX_CAN_DATA_SIZE && ReadBe16(f.data[4..6]) <= size {
      AssemblesFirst(f);
      OwnFirst(evs, ev);
      var part := Partial(ReadBe32(f.data[..4]), ReadBe16(f.data[4..6]), []);
      assert part.(data := part.data + f.data[6..]) == Partial(part.id, part.length, f.data[6..]);
      AbsorbFits(evs + [ev], e.(remain := Remain(f.id) + 1), part, f.data[6..], Remain(f.id), |evs|, size);
    }
  }

  lemma MoreFits(evs: seq<Event>, ev: Event, e: Elem, size: nat)
    requires Type(ev.f.id) != BEGIN && e.used && Key(e.cfpid) == Key(ev.f.id) && Growing(evs, e, size)
    ensures Fits(evs + [ev], Absorb(e, e.packet.value, ev.f.data, Remain(ev.f.id)), Key(ev.f.id), size)
  {
    hide Key, Type, Remain, Own, Assembles, Absorb;
    var start: nat :| Since(evs, start, e);
    OwnSnoc(evs, ev, start, Key(e.cfpid));
    if Remain(ev.f.id) == e.remain - 1 {
      AssemblesMore(Own(evs[start..], Key(e.cfpid)), e.packet.value, e.remain, ev.f);
    }
    AbsorbFits(evs + [ev], e, e.packet.value, ev.f.data, Remain(ev.f.id), start, size);
  }

  lemma PutKeepsSound(evs: seq<Event>, ev: Event, r: Rx, i: nat, o: Outcome, size: nat)
    requires i < |r.pb| && Sound(evs, r.pb, size) && Fits(evs + [ev], o, Key(ev.f.id), size)
    requires forall j | 0 <= j < |r.pb| && j != i && r.pb[j].used :: Key(r.pb[j].cfpid) != Key(ev.f.id)
    ensures Sound(evs + [ev], Put(r, i, o).pb, size)
  {
    hide Key, Growing, IsWhole;
    forall j | 0 <= j < |r.pb| && j != i && r.pb[j].used ensures Growing(evs + [ev], r.pb[j], size) {
      OthersGrow(evs, ev, r.pb[j], size);
    }
  }

  lemma NoSlotKeepsSound(evs: seq<Event>, ev: Event, pb: seq<Elem>, size: nat)
    requires Sound(evs, pb, size)
    requires forall j | 0 <= j < |pb| && pb[j].used :: Key(pb[j].cfpid) != Key(ev.f.id)
    ensures Sound(evs + [ev], pb, size)
  {
    hide Key, Growing;
    forall j | 0 <= j < |pb| && pb[j].used ensures Growing(evs + [ev], pb[j], size) {
      OthersGrow(evs, ev, pb[j], size);
    }
  }

  /** The last event delivers nothing, or one packet that is whole. */
  ghost predicate DeliversWhole(evs: seq<Event>, ev: Event, r: Rx, r': Rx, size: nat) {
    r'.out == r.out || (|r'.out| == |r.out| + 1 && r'.out[..|r.out|] == r.out &&
      IsWhole(evs + [ev], Key(ev.f.id), r'.out[|r.out|], size))
  }

  lemma ReceiveKeepsSound(evs: seq<Event>, ev: Event, r: Rx, size: nat)
    requires HasPackets(r.pb) && Sound(evs, r.pb, size)
    ensures var r' := Receive(r, ev.f, ev.now, ev.avail, size);
            Sound(evs + [ev], r'.pb, size) && DeliversWhole(evs, ev, r, r', size)
  {
    hide Key, Type, Remain, Growing, IsWhole, OnBegin, Absorb, Find, FirstFree;
    var i := Find(r.pb, ev.f.id);
    if i < |r.pb| {
      var e := r.pb[i].(lastUsed := ev.now);
      if Type(ev.f.id) == BEGIN {
        BeginFits(evs, ev, e, size);
      } else {
        Touched(evs, r.pb[i], ev.now, size);
        MoreFits(evs, ev, e, size);
      }
      PutKeepsSound(evs, ev, r, i, OnFrame(e, ev.f, ev.avail, size), size);
    } else {
      NoSlotKeepsSound(evs, ev, r.pb, size);
      if Type(ev.f.id) == BEGIN {
        var j := FirstFree(r.pb, ev.now);
        if j < |r.pb| {
          var e := Taken(ev.f.id, ev.now);
          BeginFits(evs, ev, e, size);
          PutKeepsSound(evs, ev, r, j, OnFrame(e, ev.f, ev.avail, size), size);
        }
      }
    }
  }

  lemma Touched(evs: seq<Event>, e: Elem, now: Words.uint32, size: nat)
    requires Growing(evs, e, size)
    ensures Growing(evs, e.(lastUsed := now), size)
  {
    hide Key, Assembles, Own;
    var start: nat :| Since(evs, start, e);
    assert Since(evs, start, e.(lastUsed := now));
  }

  lemma {:induction false} RunIsSound(evs: seq<Event>, size: nat)
    ensures Sound(evs, Run(evs, size).pb, size)
  {
    hide Growing, Key, Receive;
    if evs != [] {
      var n := |evs| - 1;
      RunIsSound(evs[..n], size);
      assert evs == evs[..n] + [evs[n]];
      ReceiveKeepsSound(evs[..n], evs[n], Run(evs[..n], size), size);
    }
  }

  /**
   * On every stream of frames, with any times and any shortage of buffers, each event delivers at most one
   * packet, and that packet is the concatenation of one BEGIN and MOREs of one key counting down by one, with
   * no other frame of the key in between, of exactly the announced length.
   */
  lemma OnlyWholePackets(evs: seq<Event>, n: nat, size: nat)
    requires n < |evs|
    ensures DeliversWhole(evs[..n], evs[n], Run(evs[..n], size), Run(evs[..n + 1], size), size)
  {
    hide DeliversWhole, Sound, Receive;
    RunIsSound(evs[..n], size);
    ReceiveKeepsSound(evs[..n], evs[n], Run(evs[..n], size), size);
    assert evs[..n + 1][..n] == evs[..n];
  }
}
