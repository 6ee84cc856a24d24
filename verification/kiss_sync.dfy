/** The KISS receiver delivers what was framed, and is back in step after at most one frame. */
module KissSync {
  import opened Bytes
  import opened PacketCrc
  import opened Kiss

  /** Bytes that arrive while buffers are available. */
  function Avail(s: seq<bv8>): (r: seq<Input>)
    ensures |r| == |s|
  {
    seq(|s|, i requires 0 <= i < |s| => Input(s[i], true))
  }

  function Frames(ps: seq<Pkt>, size: nat): seq<bv8> {
    if ps == [] then [] else Frame(ps[0], size) + Frames(ps[1..], size)
  }

  lemma StepKeeps(r: Rx, i: Input, max: nat)
    requires RxOk(r, max)
    ensures RxOk(Step(r, i, max), max)
  {
    hide GoodCrc, ReadBe32;
  }

  /** From any receiver state the code can reach, rx_length stays within one byte of the limit. */
  lemma {:induction false} FeedKeeps(r: Rx, s: seq<Input>, max: nat)
    requires RxOk(r, max)
    ensures RxOk(Feed(r, s, max), max) && Feed(r, s, max).length <= max + 1
    decreases |s|
  {
    hide Step;
    if s != [] {
      StepKeeps(r, s[0], max);
      FeedKeeps(Step(r, s[0], max), s[1..], max);
    }
  }

  /** Chunks may be cut anywhere. */
  lemma {:induction false} FeedConcat(r: Rx, s: seq<Input>, t: seq<Input>, max: nat)
    ensures Feed(r, s + t, max) == Feed(Feed(r, s, max), t, max)
    decreases |s|
  {
    hide Step;
    if s == [] {
      assert s + t == t;
    } else {
      assert (s + t)[0] == s[0] && (s + t)[1..] == s[1..] + t;
      FeedConcat(Step(r, s[0], max), s[1..], t, max);
    }
  }

  lemma AvailConcat(s: seq<bv8>, t: seq<bv8>)
    ensures Avail(s + t) == Avail(s) + Avail(t)
  {
  }

  lemma FeedOne(r: Rx, b: bv8, max: nat)
    ensures Feed(r, Avail([b]), max) == Step(r, Input(b, true), max)
  {
    assert Avail([b]) == [Input(b, true)];
    assert Avail([b])[1..] == [];
  }

  // Escaping

  /** In a started frame, the escape group of a byte stores that byte. */
  lemma GroupStores(r: Rx, b: bv8, max: nat)
    requires r.mode == Started && !r.first && r.length <= max
    ensures Feed(r, Avail(Escape(b)), max) == Store(r, b)
  {
    if b == FEND || b == FESC {
      var e := if b == FEND then TFEND else TFESC;
      assert Escape(b) == [FESC] + [e];
      AvailConcat([FESC], [e]);
      FeedConcat(r, Avail([FESC]), Avail([e]), max);
      FeedOne(r, FESC, max);
      FeedOne(r.(mode := Escaped), e, max);
      assert Store(r.(mode := Escaped), b).(mode := Started) == Store(r, b);
    } else {
      FeedOne(r, b, max);
    }
  }

  /** Unescaping undoes escaping as long as the frame fits, or is just one byte too long. */
  lemma {:induction false} UnescapeAll(r: Rx, s: seq<bv8>, max: nat)
    requires r.mode == Started && !r.first && r.length + |s| <= max + 1
    ensures Feed(r, Avail(EscapeAll(s)), max) == r.(bytes := r.bytes + s, length := r.length + |s|)
    decreases |s|
  {
    hide Step, Feed, Escape;
    if s == [] {
      FeedNothing(r, max);
    } else {
      var init, b := s[..|s| - 1], s[|s| - 1];
      UnescapeAll(r, init, max);
      AvailConcat(EscapeAll(init), Escape(b));
      FeedConcat(r, Avail(EscapeAll(init)), Avail(Escape(b)), max);
      GroupStores(Feed(r, Avail(EscapeAll(init)), max), b, max);
      assert r.bytes + init + [b] == r.bytes + s;
    }
  }

  lemma FeedNothing(r: Rx, max: nat)
    ensures Feed(r, Avail([]), max) == r
  {
  }

  // A frame in step

  /** The receiver waits for a frame, or has just seen the delimiter that opens one. */
  predicate InStep(r: Rx, max: nat) {
    || (r.mode == NotStarted && r.length <= max)
    || (r.mode == Started && r.length == 0 && r.first && r.have && r.bytes == [])
  }

  function Opened(r: Rx): Rx {
    r.(mode := Started, length := 0, first := true, have := true, bytes := [])
  }

  lemma FrameParts(r: Rx, p: Pkt, size: nat, max: nat)
    ensures Feed(r, Avail(Frame(p, size)), max)
         == Step(Feed(Step(Step(r, Input(FEND, true), max), Input(TNC_DATA, true), max),
                      Avail(EscapeAll(Body(p, size))), max),
                 Input(FEND, true), max)
  {
    hide Step, EscapeAll, Body;
    var body := EscapeAll(Body(p, size));
    AvailConcat([FEND, TNC_DATA] + body, [FEND]);
    AvailConcat([FEND, TNC_DATA], body);
    AvailConcat([FEND], [TNC_DATA]);
    FeedConcat(r, Avail([FEND, TNC_DATA] + body), Avail([FEND]), max);
    FeedConcat(r, Avail([FEND, TNC_DATA]), Avail(body), max);
    FeedConcat(r, Avail([FEND]), Avail([TNC_DATA]), max);
    assert [FEND] + [TNC_DATA] == [FEND, TNC_DATA];
    FeedOne(r, FEND, max);
    FeedOne(Step(r, Input(FEND, true), max), TNC_DATA, max);
    FeedOne(Feed(r, Avail([FEND, TNC_DATA] + body), max), FEND, max);
  }

  /** The body of a packet that fits has a good checksum and decodes to the packet. */
  lemma BodyDecodes(p: Pkt, size: nat)
    requires Fits(p, size)
    ensures var s := Body(p, size);
            && 8 <= |s| <= 4 + size && GoodCrc(s[4..])
            && Pkt(ReadBe32(s[..4]), s[4..|s| - 4]) == p
  {
    hide CrcTag, Be32, ReadBe32, GoodCrc;
    var s := Body(p, size);
    CrcRoundTrip(p.data);
    Be32RoundTrip(p.id);
    assert s[..4] == Be32(p.id) && s[4..] == p.data + CrcTag(p.data);
    assert s[4..|s| - 4] == p.data;
  }

  /** A frame that arrives in step is delivered exactly. */
  lemma FrameInStep(r: Rx, p: Pkt, size: nat)
    requires InStep(r, 4 + size) && Fits(p, size)
    ensures var r' := Feed(r, Avail(Frame(p, size)), 4 + size);
            && r'.mode == NotStarted && r'.length <= 4 + size && r'.out == r.out + [p]
            && r'.frame == r.frame + 1 && r'.rxError == r.rxError
  {
    hide Feed, EscapeAll, Body, GoodCrc, ReadBe32;
    var max, s := 4 + size, Body(p, size);
    FrameParts(r, p, size, max);
    var r1 := Step(r, Input(FEND, true), max);
    assert r1 == Opened(r);
    var r2 := Step(r1, Input(TNC_DATA, true), max);
    assert r2 == r1.(first := false);
    BodyDecodes(p, size);
    UnescapeAll(r2, s, max);
    assert [] + s == s;
  }

  /** A frame that ends is either delivered or counted as an error, once; all but the short ones count as frames. */
  lemma FrameEndCounts(r: Rx, i: Input, max: nat)
    requires r.mode == Started && 0 < r.length <= max && i.b == FEND
    ensures var r' := Step(r, i, max);
            && r'.mode == NotStarted && r'.bytes == []
            && (if r'.out == r.out then r'.rxError == r.rxError + 1
                else |r'.out| == |r.out| + 1 && r'.rxError == r.rxError)
            && r'.frame == r.frame + if r.length < 8 || |r.bytes| < 8 then 0 else 1
  {
    hide GoodCrc, ReadBe32;
  }

  /** After the start the first frame is delivered and counted, without an error. */
  lemma FirstFrame(p: Pkt, size: nat)
    requires Fits(p, size)
    ensures var r := Feed(INITIAL, Avail(Frame(p, size)), 4 + size);
            r.out == [p] && r.frame == 1 && r.rxError == 0
  {
    hide Feed, Frame;
    FrameInStep(INITIAL, p, size);
  }

  /** Without a packet buffer nothing is ever delivered: frames are skipped whole. */
  lemma {:induction false} NoBufferNoPacket(r: Rx, s: seq<Input>, max: nat)
    requires !r.have && (r.mode == NotStarted || r.mode == SkipFrame)
    requires forall i | i in s :: !i.avail
    ensures Feed(r, s, max).out == r.out && Feed(r, s, max).frame == r.frame
    decreases |s|
  {
    if s != [] {
      assert s[0] in s && forall i | i in s[1..] :: i in s;
      NoBufferNoPacket(Step(r, s[0], max), s[1..], max);
    }
  }

  /** In particular from the start on. */
  lemma NoBufferFromStart(s: seq<Input>, max: nat)
    requires forall i | i in s :: !i.avail
    ensures Feed(INITIAL, s, max).out == []
  {
    NoBufferNoPacket(INITIAL, s, max);
  }

  lemma {:induction false} FramesInStep(r: Rx, ps: seq<Pkt>, size: nat)
    requires InStep(r, 4 + size) && forall p | p in ps :: Fits(p, size)
    ensures Feed(r, Avail(Frames(ps, size)), 4 + size).out == r.out + ps
    decreases |ps|
  {
    hide Feed, Frame, InStep, Fits;
    if ps == [] {
      FeedNothing(r, 4 + size);
    } else {
      var f := Frame(ps[0], size);
      AvailConcat(f, Frames(ps[1..], size));
      FeedConcat(r, Avail(f), Avail(Frames(ps[1..], size)), 4 + size);
      FrameInStep(r, ps[0], size);
      var r1 := Feed(r, Avail(f), 4 + size);
      WaitingIsInStep(r1, 4 + size);
      FramesInStep(r1, ps[1..], size);
      assert r.out + [ps[0]] + ps[1..] == r.out + ps;
    }
  }

  lemma WaitingIsInStep(r: Rx, max: nat)
    requires r.mode == NotStarted && r.length <= max
    ensures InStep(r, max)
  {
  }

  // A frame out of step

  /**
   * Between the delimiters: waiting for one, or storing, and then something has been stored unless nothing has come
   * yet.
   */
  predicate Between(r: Rx, max: nat, some: bool) {
    && RxOk(r, max)
    && (r.mode == NotStarted || (r.mode == Started && !r.first && (some ==> r.length > 0)))
  }

  lemma GroupBetween(r: Rx, b: bv8, max: nat, some: bool)
    requires Between(r, max, some)
    ensures Between(Feed(r, Avail(Escape(b)), max), max, true) && Feed(r, Avail(Escape(b)), max).out == r.out
  {
    hide GoodCrc, ReadBe32, EscapeAll, Body;
    if b == FEND || b == FESC {
      var e := if b == FEND then TFEND else TFESC;
      assert Escape(b) == [FESC] + [e];
      AvailConcat([FESC], [e]);
      FeedConcat(r, Avail([FESC]), Avail([e]), max);
      FeedOne(r, FESC, max);
      FeedOne(Step(r, Input(FESC, true), max), e, max);
    } else {
      FeedOne(r, b, max);
    }
  }

  lemma {:induction false} GroupsBetween(r: Rx, s: seq<bv8>, max: nat, some: bool)
    requires Between(r, max, some)
    ensures Between(Feed(r, Avail(EscapeAll(s)), max), max, some || s != []) &&
            Feed(r, Avail(EscapeAll(s)), max).out == r.out
    decreases |s|
  {
    hide Step, Feed, Escape, Between;
    if s == [] {
      FeedNothing(r, max);
    } else {
      var init, b := s[..|s| - 1], s[|s| - 1];
      GroupsBetween(r, init, max, some);
      AvailConcat(EscapeAll(init), Escape(b));
      FeedConcat(r, Avail(EscapeAll(init)), Avail(Escape(b)), max);
      GroupBetween(Feed(r, Avail(EscapeAll(init)), max), b, max, some || init != []);
    }
  }

  /** The opening of a frame, whatever the receiver was doing; it may complete one packet out of earlier bytes. */
  lemma OpeningAnywhere(r: Rx, max: nat)
    requires RxOk(r, max)
    ensures var r2 := Step(Step(r, Input(FEND, true), max), Input(TNC_DATA, true), max);
            && Between(r2, max, false)
            && (r2.out == r.out || (r2.mode == NotStarted && |r2.out| == |r.out| + 1 && r.out <= r2.out))
  {
    hide GoodCrc, ReadBe32;
  }

  /** The closing delimiter brings the receiver into step. */
  lemma ClosingAnywhere(r: Rx, max: nat)
    requires Between(r, max, true)
    ensures var r' := Step(r, Input(FEND, true), max);
            && InStep(r', max)
            && (r'.out == r.out || (r.mode == Started && |r'.out| == |r.out| + 1 && r.out <= r'.out))
  {
    hide GoodCrc, ReadBe32;
  }

  /** A waiting receiver stays so through the inside of a frame. */
  lemma {:induction false} WaitingStays(r: Rx, s: seq<bv8>, max: nat)
    requires r.mode == NotStarted && r.length <= max
    ensures Feed(r, Avail(EscapeAll(s)), max) == r
    decreases |s|
  {
    hide Feed;
    if s == [] {
      FeedNothing(r, max);
    } else {
      var init, b := s[..|s| - 1], s[|s| - 1];
      WaitingStays(r, init, max);
      AvailConcat(EscapeAll(init), Escape(b));
      FeedConcat(r, Avail(EscapeAll(init)), Avail(Escape(b)), max);
      if b == FEND || b == FESC {
        var e := if b == FEND then TFEND else TFESC;
        assert Escape(b) == [FESC] + [e];
        AvailConcat([FESC], [e]);
        FeedConcat(r, Avail([FESC]), Avail([e]), max);
        FeedOne(r, FESC, max);
        FeedOne(r, e, max);
      } else {
        FeedOne(r, b, max);
      }
    }
  }

  /** After any frame, from any state, the receiver is in step; meanwhile it has delivered at most one packet. */
  lemma AnyFrameResynchronises(r: Rx, p: Pkt, size: nat)
    requires RxOk(r, 4 + size)
    ensures var r' := Feed(r, Avail(Frame(p, size)), 4 + size);
            InStep(r', 4 + size) && r.out <= r'.out && |r'.out| <= |r.out| + 1
  {
    hide Feed, Step, EscapeAll, Be32, CrcTag;
    var max, s := 4 + size, Body(p, size);
    FrameParts(r, p, size, max);
    OpeningAnywhere(r, max);
    var r2 := Step(Step(r, Input(FEND, true), max), Input(TNC_DATA, true), max);
    GroupsBetween(r2, s, max, false);
    assert s != [];
    var r3 := Feed(r2, Avail(EscapeAll(s)), max);
    if r2.mode == NotStarted {
      WaitingStays(r2, s, max);
    }
    ClosingAnywhere(r3, max);
  }

  /**
   The receiver resynchronises: after any bytes, with or without buffers, and then at least one frame with
   buffers available, every further frame is delivered exactly and in order; the first one costs at most itself.
   */
  lemma Resynchronises(r: Rx, garbage: seq<Input>, first: Pkt, rest: seq<Pkt>, size: nat)
    requires RxOk(r, 4 + size) && forall p | p in rest :: Fits(p, size)
    ensures var g := Feed(r, garbage, 4 + size);
            var f := Feed(r, garbage + Avail(Frame(first, size)), 4 + size);
            var all := Feed(r, garbage + Avail(Frames([first] + rest, size)), 4 + size);
            g.out <= f.out && |f.out| <= |g.out| + 1 && all.out == f.out + rest
  {
    hide Feed, Frame, RxOk, Fits;
    var max := 4 + size;
    var g := Feed(r, garbage, max);
    FeedKeeps(r, garbage, max);
    FeedConcat(r, garbage, Avail(Frame(first, size)), max);
    AnyFrameResynchronises(g, first, size);
    var f := Feed(g, Avail(Frame(first, size)), max);
    assert ([first] + rest)[1..] == rest;
    AvailConcat(Frame(first, size), Frames(rest, size));
    FeedConcat(r, garbage, Avail(Frames([first] + rest, size)), max);
    FeedConcat(g, Avail(Frame(first, size)), Avail(Frames(rest, size)), max);
    FramesInStep(f, rest, size);
  }

  // Exactly when the next frame arrives

  /**
   The receiver waits for a frame, is about to drop an overlong one, or has stored nothing since an opening delimiter
   and not even seen the byte behind it, except perhaps an escape.
   */
  predicate Ready(r: Rx, max: nat) {
    r.mode == NotStarted || r.length > max || (Storing(r) && r.first && r.length == 0)
  }

  /** Two bytes bring a ready receiver to the inside of a new frame. */
  lemma ReadyOpens(r: Rx, max: nat)
    requires RxOk(r, max) && Ready(r, max)
    ensures var r2 := Step(Step(r, Input(FEND, true), max), Input(TNC_DATA, true), max);
            r2.mode == Started && !r2.first && r2.have && r2.length == 0 && r2.bytes == [] && r2.out == r.out
  {
    hide GoodCrc, ReadBe32;
  }

  lemma FrameWhenReady(r: Rx, p: Pkt, size: nat)
    requires RxOk(r, 4 + size) && Ready(r, 4 + size) && Fits(p, size)
    ensures var r' := Feed(r, Avail(Frame(p, size)), 4 + size);
            r'.mode == NotStarted && r'.length <= 4 + size && r'.out == r.out + [p]
  {
    hide Feed, EscapeAll, Body, GoodCrc, ReadBe32, Step;
    var max, s := 4 + size, Body(p, size);
    FrameParts(r, p, size, max);
    ReadyOpens(r, max);
    var r2 := Step(Step(r, Input(FEND, true), max), Input(TNC_DATA, true), max);
    BodyDecodes(p, size);
    UnescapeAll(r2, s, max);
    assert [] + s == s;
    EndDelivers(r2.(bytes := s, length := |s|), max);
  }

  /** The closing delimiter of a good frame. */
  lemma EndDelivers(r: Rx, max: nat)
    requires r.mode == Started && r.length == |r.bytes| <= max && 8 <= |r.bytes| && GoodCrc(r.bytes[4..])
    ensures Step(r, Input(FEND, true), max)
         == r.(mode := NotStarted, have := false, bytes := [], frame := r.frame + 1,
               out := r.out + [Pkt(ReadBe32(r.bytes[..4]), r.bytes[4..|r.bytes| - 4])])
  {
    hide GoodCrc, ReadBe32;
  }

  /** The inside of a frame is stored behind what is there already, unless the frame is dropped as too long. */
  predicate Grown(r: Rx, r': Rx, s: seq<bv8>, max: nat) {
    && RxOk(r', max) && r'.out == r.out
    && (r'.mode == NotStarted || (r.mode == r'.mode == Started && !r'.first && r'.bytes == r.bytes + s))
  }

  lemma GroupGrows(r: Rx, b: bv8, max: nat)
    requires RxOk(r, max) && (r.mode == NotStarted || (r.mode == Started && !r.first))
    ensures Grown(r, Feed(r, Avail(Escape(b)), max), [b], max)
  {
    hide GoodCrc, ReadBe32, EscapeAll, Body;
    if b == FEND || b == FESC {
      var e := if b == FEND then TFEND else TFESC;
      assert Escape(b) == [FESC] + [e];
      AvailConcat([FESC], [e]);
      FeedConcat(r, Avail([FESC]), Avail([e]), max);
      FeedOne(r, FESC, max);
      FeedOne(Step(r, Input(FESC, true), max), e, max);
    } else {
      FeedOne(r, b, max);
    }
  }

  lemma {:induction false} GroupsGrow(r: Rx, s: seq<bv8>, max: nat)
    requires RxOk(r, max) && r.mode == Started && !r.first
    ensures Grown(r, Feed(r, Avail(EscapeAll(s)), max), s, max)
    decreases |s|
  {
    hide Step, Feed, Escape, RxOk;
    if s == [] {
      FeedNothing(r, max);
      assert r.bytes + [] == r.bytes;
    } else {
      var init, b := s[..|s| - 1], s[|s| - 1];
      GroupsGrow(r, init, max);
      AvailConcat(EscapeAll(init), Escape(b));
      FeedConcat(r, Avail(EscapeAll(init)), Avail(Escape(b)), max);
      GroupGrows(Feed(r, Avail(EscapeAll(init)), max), b, max);
      assert r.bytes + init + [b] == r.bytes + s;
    }
  }

  /** A delimiter delivers what has been stored, or nothing. */
  lemma EndDeliversStored(r: Rx, max: nat)
    requires RxOk(r, max) && (r.mode == NotStarted || r.mode == Started)
    ensures var r' := Step(r, Input(FEND, true), max);
            r'.out == r.out || (|r.bytes| >= 8 && |r'.out| == |r.out| + 1 && |r'.out[|r.out|].data| == |r.bytes| - 8)
  {
    hide GoodCrc, ReadBe32;
  }

  /**
   * A receiver that is not ready either drops its frame on the first delimiter, or has bytes in front of the next
   * one.
   */
  lemma NotReadyOpens(r: Rx, max: nat)
    requires RxOk(r, max) && !Ready(r, max)
    ensures var r1 := Step(r, Input(FEND, true), max);
            var r2 := Step(r1, Input(TNC_DATA, true), max);
            || (r1.mode == NotStarted && r1.length <= max && r2 == r1)
            || (RxOk(r2, max) && r2.mode == Started && !r2.first && r2.bytes != [] && r2.out == r.out)
  {
    hide GoodCrc, ReadBe32;
  }

  /** Then the frame of a packet yields something that does not depend on it, or nothing, or a longer packet. */
  lemma NotReadyMisses(r: Rx, p: Pkt, size: nat)
    requires RxOk(r, 4 + size) && !Ready(r, 4 + size) && Fits(p, size)
    ensures var out := Feed(r, Avail(Frame(p, size)), 4 + size).out;
            out == Step(r, Input(FEND, true), 4 + size).out || out != r.out + [p]
  {
    hide Feed, EscapeAll, Body, Step, RxOk, GoodCrc;
    var max, s := 4 + size, Body(p, size);
    FrameParts(r, p, size, max);
    NotReadyOpens(r, max);
    var r1 := Step(r, Input(FEND, true), max);
    var r2 := Step(r1, Input(TNC_DATA, true), max);
    if r1.mode == NotStarted && r1.length <= max && r2 == r1 {
      WaitingStays(r2, s, max);
      WaitingOpens(r2, max);
    } else {
      GroupsGrow(r2, s, max);
      var r3 := Feed(r2, Avail(EscapeAll(s)), max);
      EndDeliversStored(r3, max);
      BodyLength(p, size);
      WaitingDeliversNothing(r3, max);
      assert (r.out + [p])[|r.out|] == p;
    }
  }

  lemma WaitingOpens(r: Rx, max: nat)
    requires r.mode == NotStarted && r.length <= max
    ensures Step(r, Input(FEND, true), max).out == r.out
  {
  }

  lemma WaitingDeliversNothing(r: Rx, max: nat)
    requires RxOk(r, max)
    ensures r.mode == NotStarted ==> Step(r, Input(FEND, true), max).out == r.out
  {
  }

  lemma BodyLength(p: Pkt, size: nat)
    requires Fits(p, size)
    ensures |Body(p, size)| == |p.data| + 8
  {
    hide CrcTag, Be32;
  }

  /**
   Every fitting packet's frame is delivered exactly when the receiver is ready; and then everything behind it is,
   too.  (A buffer that holds no packet at all is left aside.)
   */
  lemma NextFrameArrivesIff(r: Rx, size: nat)
    requires RxOk(r, 4 + size) && size >= 4
    ensures (forall p | Fits(p, size) :: Feed(r, Avail(Frame(p, size)), 4 + size).out == r.out + [p]) <==>
            Ready(r, 4 + size)
  {
    hide Feed, Frame, Ready, RxOk, Step;
    if Ready(r, 4 + size) {
      forall p | Fits(p, size) ensures Feed(r, Avail(Frame(p, size)), 4 + size).out == r.out + [p] {
        FrameWhenReady(r, p, size);
      }
    } else {
      var p, q := Pkt(0, []), Pkt(1, []);
      NotReadyMisses(r, p, size);
      NotReadyMisses(r, q, size);
      assert (r.out + [p])[|r.out|] != (r.out + [q])[|r.out|];
    }
  }

  lemma {:induction false} NothingLostWhenReady(r: Rx, ps: seq<Pkt>, size: nat)
    requires RxOk(r, 4 + size) && Ready(r, 4 + size) && forall p | p in ps :: Fits(p, size)
    ensures Feed(r, Avail(Frames(ps, size)), 4 + size).out == r.out + ps
  {
    hide Feed, Frame, Ready, RxOk, Fits;
    if ps == [] {
      FeedNothing(r, 4 + size);
    } else {
      var f := Frame(ps[0], size);
      AvailConcat(f, Frames(ps[1..], size));
      FeedConcat(r, Avail(f), Avail(Frames(ps[1..], size)), 4 + size);
      FrameWhenReady(r, ps[0], size);
      var r1 := Feed(r, Avail(f), 4 + size);
      WaitingIsInStep(r1, 4 + size);
      FramesInStep(r1, ps[1..], size);
      assert r.out + [ps[0]] + ps[1..] == r.out + ps;
    }
  }

  /** So a receiver loses no frame of any sequence exactly when it is ready. */
  lemma NothingLostIff(r: Rx, size: nat)
    requires RxOk(r, 4 + size) && size >= 4
    ensures (forall ps: seq<Pkt> | (forall p | p in ps :: Fits(p, size)) ::
               Feed(r, Avail(Frames(ps, size)), 4 + size).out == r.out + ps) <==> Ready(r, 4 + size)
  {
    hide Feed, Frame, Ready, RxOk, Fits;
    if Ready(r, 4 + size) {
      forall ps: seq<Pkt> | (forall p | p in ps :: Fits(p, size))
        ensures Feed(r, Avail(Frames(ps, size)), 4 + size).out == r.out + ps
      {
        NothingLostWhenReady(r, ps, size);
      }
    } else {
      NextFrameArrivesIff(r, size);
      var p :| Fits(p, size) && Feed(r, Avail(Frame(p, size)), 4 + size).out != r.out + [p];
      OneFrame(p, size);
      assert forall q | q in [p] :: Fits(q, size);
    }
  }

  lemma OneFrame(p: Pkt, size: nat)
    ensures Frames([p], size) == Frame(p, size)
  {
    hide Frame;
    assert [p][1..] == [];
    assert Frame(p, size) + [] == Frame(p, size);
  }

  /** One frame can really be lost: a single stray byte behind an opening delimiter is enough. */
  lemma OneFrameCanBeLost(r: Rx, p: Pkt, size: nat)
    requires r.mode == Started && r.have && r.length == 1 && |r.bytes| == 1 && !r.first
    ensures Feed(r, Avail(Frame(p, size)), 4 + size).out == r.out
  {
    hide Feed, EscapeAll, Body;
    var max := 4 + size;
    FrameParts(r, p, size, max);
    var r2 := Step(Step(r, Input(FEND, true), max), Input(TNC_DATA, true), max);
    WaitingStays(r2, Body(p, size), max);
  }

  // Writing behind the buffer

  /** rx_length gets one over max_rx_length exactly when the byte is stored with the buffer full. */
  lemma OverrunsIff(r: Rx, i: Input, max: nat)
    requires RxOk(r, max)
    ensures Step(r, i, max).length == max + 1 <==> Overruns(r, i.b, max)
  {
    hide GoodCrc, ReadBe32;
  }

  lemma {:induction false} OutsideConcat(r: Rx, s: seq<Input>, t: seq<Input>, max: nat)
    ensures Outside(r, s + t, max) == Outside(r, s, max) + Outside(Feed(r, s, max), t, max)
    decreases |s|
  {
    hide Step, Overruns;
    if s == [] {
      assert s + t == t;
    } else {
      assert (s + t)[0] == s[0] && (s + t)[1..] == s[1..] + t;
      OutsideConcat(Step(r, s[0], max), s[1..], t, max);
    }
  }

  lemma OutsideOne(r: Rx, b: bv8, max: nat)
    ensures Outside(r, Avail([b]), max) == if Overruns(r, b, max) then 1 else 0
  {
    hide Step, Overruns;
    assert Avail([b]) == [Input(b, true)];
    assert Avail([b])[1..] == [];
  }

  lemma OutsideNothing(r: Rx, max: nat)
    ensures Outside(r, Avail([]), max) == 0
  {
  }

  /** The frame has been dropped as too long, or the next byte will drop it. */
  predicate Overlong(r: Rx, max: nat) {
    (r.mode == NotStarted && r.length <= max) || r.length == max + 1
  }

  /** The escape group of a byte writes behind the buffer exactly when the buffer is full. */
  lemma GroupOutside(r: Rx, b: bv8, max: nat)
    requires r.mode == Started && !r.first && r.length <= max
    ensures Outside(r, Avail(Escape(b)), max) == if r.length == max then 1 else 0
  {
    if b == FEND || b == FESC {
      var e := if b == FEND then TFEND else TFESC;
      assert Escape(b) == [FESC] + [e];
      AvailConcat([FESC], [e]);
      OutsideConcat(r, Avail([FESC]), Avail([e]), max);
      OutsideOne(r, FESC, max);
      FeedOne(r, FESC, max);
      OutsideOne(r.(mode := Escaped), e, max);
    } else {
      OutsideOne(r, b, max);
    }
  }

  lemma OverlongStays(r: Rx, b: bv8, max: nat)
    requires Overlong(r, max) && b != FEND
    ensures Overlong(Step(r, Input(b, true), max), max)
    ensures Outside(r, Avail([b]), max) == 0
  {
    OutsideOne(r, b, max);
  }

  lemma GroupAfterOverlong(r: Rx, b: bv8, max: nat)
    requires Overlong(r, max)
    ensures Overlong(Feed(r, Avail(Escape(b)), max), max) && Outside(r, Avail(Escape(b)), max) == 0
  {
    hide Step, Overruns, Overlong;
    if b == FEND || b == FESC {
      var e := if b == FEND then TFEND else TFESC;
      assert Escape(b) == [FESC] + [e];
      AvailConcat([FESC], [e]);
      OutsideConcat(r, Avail([FESC]), Avail([e]), max);
      FeedConcat(r, Avail([FESC]), Avail([e]), max);
      FeedOne(r, FESC, max);
      OverlongStays(r, FESC, max);
      FeedOne(Step(r, Input(FESC, true), max), e, max);
      OverlongStays(Step(r, Input(FESC, true), max), e, max);
    } else {
      FeedOne(r, b, max);
      OverlongStays(r, b, max);
    }
  }

  /** The inside of a frame writes one byte behind the buffer exactly when it is longer than the buffer. */
  lemma {:induction false} BodyOutside(r: Rx, s: seq<bv8>, max: nat)
    requires r.mode == Started && !r.first && r.length == 0
    ensures Outside(r, Avail(EscapeAll(s)), max) == if |s| > max then 1 else 0
    ensures |s| > max ==> Overlong(Feed(r, Avail(EscapeAll(s)), max), max)
    decreases |s|
  {
    hide Step, Feed, Escape, Outside;
    if s == [] {
      OutsideNothing(r, max);
    } else {
      var init, b := s[..|s| - 1], s[|s| - 1];
      BodyOutside(r, init, max);
      AvailConcat(EscapeAll(init), Escape(b));
      OutsideConcat(r, Avail(EscapeAll(init)), Avail(Escape(b)), max);
      FeedConcat(r, Avail(EscapeAll(init)), Avail(Escape(b)), max);
      var r1 := Feed(r, Avail(EscapeAll(init)), max);
      if |init| <= max {
        UnescapeAll(r, init, max);
        GroupOutside(r1, b, max);
        GroupStores(r1, b, max);
      } else {
        GroupAfterOverlong(r1, b, max);
      }
    }
  }

  /** The length limit is really exceeded: from the initial state, by any frame of max_rx_length + 1 bytes. */
  lemma LengthIsExceeded(s: seq<bv8>, max: nat)
    requires |s| == max + 1
    ensures Feed(INITIAL, Avail([FEND, TNC_DATA] + EscapeAll(s)), max).length == max + 1
    ensures Outside(INITIAL, Avail([FEND, TNC_DATA] + EscapeAll(s)), max) == 1
  {
    hide Feed, EscapeAll, Outside;
    FrameOpens(INITIAL, max);
    var r2 := Step(Step(INITIAL, Input(FEND, true), max), Input(TNC_DATA, true), max);
    AvailConcat([FEND, TNC_DATA], EscapeAll(s));
    FeedConcat(INITIAL, Avail([FEND, TNC_DATA]), Avail(EscapeAll(s)), max);
    OutsideConcat(INITIAL, Avail([FEND, TNC_DATA]), Avail(EscapeAll(s)), max);
    BodyOutside(r2, s, max);
    UnescapeAll(r2, s, max);
  }

  /** The two bytes that open a frame write nothing. */
  lemma FrameOpens(r: Rx, max: nat)
    requires RxOk(r, max) && Ready(r, max)
    ensures var r2 := Step(Step(r, Input(FEND, true), max), Input(TNC_DATA, true), max);
            && Feed(r, Avail([FEND, TNC_DATA]), max) == r2
            && r2.mode == Started && !r2.first && r2.length == 0
            && Outside(r, Avail([FEND, TNC_DATA]), max) == 0
  {
    hide Feed, Outside, GoodCrc, ReadBe32;
    ReadyOpens(r, max);
    assert [FEND, TNC_DATA] == [FEND] + [TNC_DATA];
    AvailConcat([FEND], [TNC_DATA]);
    FeedConcat(r, Avail([FEND]), Avail([TNC_DATA]), max);
    OutsideConcat(r, Avail([FEND]), Avail([TNC_DATA]), max);
    FeedOne(r, FEND, max);
    OutsideOne(r, FEND, max);
    FeedOne(Step(r, Input(FEND, true), max), TNC_DATA, max);
    OutsideOne(Step(r, Input(FEND, true), max), TNC_DATA, max);
  }

  /**
   A frame that finds the receiver ready writes a single byte behind the buffer exactly when what is between its
   delimiters, unescaped, is longer than the buffer, and otherwise none.
   */
  lemma FrameOutside(r: Rx, s: seq<bv8>, max: nat)
    requires RxOk(r, max) && Ready(r, max)
    ensures Outside(r, Avail([FEND, TNC_DATA] + EscapeAll(s) + [FEND]), max) == if |s| > max then 1 else 0
  {
    hide Feed, EscapeAll, Outside, RxOk, Ready, Step;
    FrameOpens(r, max);
    var r2 := Step(Step(r, Input(FEND, true), max), Input(TNC_DATA, true), max);
    AvailConcat([FEND, TNC_DATA] + EscapeAll(s), [FEND]);
    AvailConcat([FEND, TNC_DATA], EscapeAll(s));
    OutsideConcat(r, Avail([FEND, TNC_DATA] + EscapeAll(s)), Avail([FEND]), max);
    OutsideConcat(r, Avail([FEND, TNC_DATA]), Avail(EscapeAll(s)), max);
    BodyOutside(r2, s, max);
    OutsideOne(Feed(r, Avail([FEND, TNC_DATA] + EscapeAll(s)), max), FEND, max);
  }

  /** So csp_kiss_tx's own frames never do. */
  lemma OwnFramesStayInside(r: Rx, p: Pkt, size: nat)
    requires RxOk(r, 4 + size) && Ready(r, 4 + size) && |p.data| <= size
    ensures Outside(r, Avail(Frame(p, size)), 4 + size) == 0
  {
    hide Outside, RxOk, Ready, CrcTag, EscapeAll, Be32;
    FrameOutside(r, Body(p, size), 4 + size);
  }
}
