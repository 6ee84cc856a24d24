/** What RDP answers with: the segments each event puts on the wire, and what the timeouts do. */
module RdpWire {
  import opened Words
  import opened RdpSpec
  import opened RdpQueues

  /** The control segments, field by field: SYN, ACK, EACK, RST, own number, acknowledged number, body. */
  function Rst(c: Conn, ack: bool): Segment {
    Segment(false, ack, false, true, c.rdp.sndNxt, c.rdp.rcvCur, [])
  }

  // Closing

  /** Whoever closes first tells the peer, by exactly one RST; in CLOSE-WAIT nothing more is sent. */
  lemma ClosingSendsRst(c: Conn, who: set<Party>, cfg: Config, env: Env)
    requires c.open && c.frdp && c.rdp.state != Closed
    ensures ConnClose(c, who, cfg, env).out == if c.rdp.state == CloseWait then c.out else c.out + [Rst(c, true)]
  {
  }

  lemma DiscardSends(c: Conn, who: set<Party>, cfg: Config, env: Env)
    requires c.open && c.frdp
    ensures DiscardClose(c, who, cfg, env).out ==
            if c.rdp.state in {Closed, CloseWait} then c.out else c.out + [Rst(c, true)]
  {
    hide ConnClose;
    if c.rdp.state != Closed {
      ClosingSendsRst(c, who, cfg, env);
      ClosingSendsRst(c, who + {Userspace}, cfg, env);
    } else {
      ClosedSendsNothing(c, who, cfg, env);
      ClosedSendsNothing(c, who + {Userspace}, cfg, env);
    }
  }

  lemma ClosedSendsNothing(c: Conn, who: set<Party>, cfg: Config, env: Env)
    requires c.rdp.state == Closed
    ensures ConnClose(c, who, cfg, env).out == c.out && !ConnClose(c, who, cfg, env).open
  {
  }

  /** A reader that waits is woken up by a null packet when the protocol closes a connection it holds. */
  lemma ReaderIsWoken(c: Conn, who: set<Party>, cfg: Config, env: Env)
    requires c.open && c.frdp && !c.socket && c.rdp.state !in {Closed, CloseWait} && who != ALL_PARTIES
    requires c.rdp.closedBy == {} && |c.rxq| < cfg.queueLength
    ensures DiscardClose(c, who, cfg, env).rxq == c.rxq + [Wake]
  {
    assert c.rdp.closedBy + who == who;
  }

  // Resets

  /** A reset in sequence is answered with a reset, one in CLOSE-WAIT or out of sequence with nothing. */
  lemma ResetIsAnswered(c: Conn, seg: Segment, cfg: Config, env: Env)
    requires c.open && c.frdp && seg.rst && c.rdp.state != Closed
    ensures NewPacket(c, seg, cfg, env).0.out ==
            if c.rdp.state != CloseWait && seg.seqNr == c.rdp.rcvCur + 1 then c.out + [Rst(c, true)] else c.out
    ensures !NewPacket(c, seg, cfg, env).1
  {
    hide DiscardClose;
    var c1 := if seg.ack then c.(rdp := c.rdp.(sndUna := U16(seg.ackNr + 1))) else c;
    DiscardSends(c1, ClosedByPeer(seg, cfg), cfg, env);
    var c2 := SendRst(c1.(timestamp := env.now, rdp := c1.rdp.(state := CloseWait)), true, cfg, env);
    DiscardSends(c2, {Protocol} + if cfg.fastClose then {Timeout} else {}, cfg, env);
  }

  /** Who has closed after a reset: the protocol, with fast close the timeout, and for a half-open entry user space. */
  lemma ResetCounts(c: Conn, seg: Segment, cfg: Config, env: Env)
    requires c.open && c.frdp && seg.rst && c.rdp.state != Closed
    requires c.rdp.state == CloseWait || seg.seqNr == c.rdp.rcvCur + 1
    ensures var c' := NewPacket(c, seg, cfg, env).0;
            var fast := cfg.fastClose && (c.rdp.state != CloseWait || seg.ack);
            var parties := c.rdp.closedBy + {Protocol} + (if fast then {Timeout} else {})
                                          + (if c.socket then {Userspace} else {});
            if parties == ALL_PARTIES then !c'.open && c'.rdp.state == Closed
            else c'.open && c'.rdp.state == CloseWait && c'.rdp.closedBy == parties
  {
    hide DiscardClose;
    var c1 := if seg.ack then c.(rdp := c.rdp.(sndUna := U16(seg.ackNr + 1))) else c;
    if c.rdp.state == CloseWait {
      DiscardCounts(c1, ClosedByPeer(seg, cfg), cfg, env);
    } else {
      var c2 := SendRst(c1.(timestamp := env.now, rdp := c1.rdp.(state := CloseWait)), true, cfg, env);
      DiscardCounts(c2, {Protocol} + if cfg.fastClose then {Timeout} else {}, cfg, env);
    }
  }

  /** A reset in CLOSED changes no more than snd_una, and closes an entry that user space never got. */
  lemma ResetInClosed(c: Conn, seg: Segment, cfg: Config, env: Env)
    requires seg.rst && c.rdp.state == Closed
    ensures var (c', close) := NewPacket(c, seg, cfg, env);
            (close <==> c.socket) && c'.out == c.out && c'.open == c.open && c'.rdp.state == Closed && c'.rxq == c.rxq
  {
  }

  lemma DiscardCounts(c: Conn, who: set<Party>, cfg: Config, env: Env)
    requires c.open && c.frdp && c.rdp.state == CloseWait
    ensures var c' := DiscardClose(c, who, cfg, env);
            var parties := c.rdp.closedBy + who + (if c.socket then {Userspace} else {});
            if parties == ALL_PARTIES then !c'.open && c'.rdp.state == Closed
            else c'.open && c'.rdp.state == CloseWait && c'.rdp.closedBy == parties
  {
    assert c.rdp.closedBy + who + {} == c.rdp.closedBy + who;
    assert c.rdp.closedBy + (who + {Userspace}) == c.rdp.closedBy + who + {Userspace};
  }

  // Opening

  /** In CLOSED a SYN is answered with a SYN/ACK under a new number, anything else with a reset, and closed. */
  lemma ClosedAnswers(c: Conn, seg: Segment, cfg: Config, env: Env)
    requires c.open && c.frdp && !seg.rst && c.rdp.state == Closed
    ensures var c' := NewPacket(c, seg, cfg, env).0;
            var answer := Segment(true, true, false, false, env.random, seg.seqNr, []);
            if seg.syn
            then && c'.out == c.out + [answer]
                 && c'.rdp.tx == c.rdp.tx +
                      (if |c.rdp.tx| < cfg.maxWindow then [TxElem(answer, env.now, env.junk)] else [])
                 && c'.rdp.state == SynRcvd && c'.rdp.sndNxt == U16(env.random + 1) && c'.rdp.rcvCur == seg.seqNr
            else c'.out == c.out + [Rst(c, false)] && !c'.open
  {
    hide DiscardClose, ReadOptions;
    DiscardSends(SendRst(c, false, cfg, env), {Protocol}, cfg, env);
    DiscardCloses(SendRst(c, false, cfg, env), {Protocol}, cfg, env);
  }

  /** A segment for a connection that was never opened is answered with a reset under the numbers 0. */
  lemma StrayIsReset(seg: Segment, cfg: Config, env: Env)
    requires !seg.rst && !seg.syn
    ensures var c := Fresh(cfg).(open := true, frdp := true, socket := true);
            NewPacket(c, seg, cfg, env).0.out == [Segment(false, false, false, true, 0, 0, [])]
  {
    hide NewPacket;
    ClosedAnswers(Fresh(cfg).(open := true, frdp := true, socket := true), seg, cfg, env);
  }

  lemma DiscardCloses(c: Conn, who: set<Party>, cfg: Config, env: Env)
    requires c.open && c.rdp.state == Closed
    ensures !DiscardClose(c, who, cfg, env).open
  {
  }

  /** In SYN-SENT a SYN/ACK is acknowledged, a bare ACK reset without an acknowledgement, anything else closed. */
  lemma SynSentAnswers(c: Conn, seg: Segment, cfg: Config, env: Env)
    requires c.open && c.frdp && !seg.rst && c.rdp.state == SynSent
    ensures var c' := NewPacket(c, seg, cfg, env).0;
            if seg.syn && seg.ack
            then && c'.out == c.out + [Segment(false, true, false, false, c.rdp.sndNxt, seg.seqNr, [])]
                 && c'.rdp.state == Open && c'.rdp.rcvCur == seg.seqNr == c'.rdp.rcvIrs
            else if seg.ack then c' == c.(out := c.out + [Rst(c, false)])
            else c'.out == c.out + [Rst(c, true)] && c'.rdp.state != SynSent
  {
    hide DiscardClose;
    DiscardSends(c, {Protocol}, cfg, env);
    DiscardLeaves(c, {Protocol}, cfg, env);
  }

  lemma DiscardLeaves(c: Conn, who: set<Party>, cfg: Config, env: Env)
    requires c.open && c.frdp
    ensures DiscardClose(c, who, cfg, env).rdp.state in {Closed, CloseWait}
  {
  }

  /** csp_rdp_connect sends one SYN with the configured options under a new number, also when it tries again. */
  lemma ConnectSends(c: Conn, cfg: Config, env: Env)
    requires c.rdp.state != Open
    ensures var c' := ConnectStart(c, cfg, env);
            && c'.out == c.out + [Segment(true, false, false, false, env.random, 0, OptionBytes(cfg.defaults))]
            && c'.rdp.state == SynSent && c'.rdp.sndIss == c'.rdp.sndUna == env.random
            && c'.rdp.sndNxt == U16(env.random + 1) && c'.rdp.opt == cfg.defaults
    ensures var c' := ConnectRetry(c, cfg, env);
            if c.rdp.state != SynSent then c' == c
            else && c'.out == c.out + [Segment(true, false, false, false, env.random, 0, OptionBytes(cfg.defaults))]
                 && c'.rdp.rx == [] && c'.rdp.sndNxt == U16(env.random + 1)
                 && (cfg.maxWindow > 0 ==> |c'.rdp.tx| == 1 && c'.rdp.tx[0].seg.syn)
  {
    hide OptionBytes;
  }

  /** A connection attempt that is given up closes the entry, without a reset, once user space has closed, too. */
  lemma GivingUpIsSilent(c: Conn, cfg: Config, env: Env)
    requires c.open && c.frdp
    ensures ConnectFail(c, cfg, env).out == c.out
  {
  }

  // In OPEN and SYN-RCVD

  /** A stray SYN, or a segment without ACK, closes the connection unless it repeats the number of the peer's SYN. */
  lemma StraySynCloses(c: Conn, seg: Segment, cfg: Config, env: Env)
    requires c.open && c.frdp && !seg.rst && c.rdp.state in {SynRcvd, Open} && (seg.syn || !seg.ack)
    ensures var c' := NewPacket(c, seg, cfg, env).0;
            if seg.seqNr == c.rdp.rcvIrs then c' == c
            else c'.out == c.out + [Rst(c, true)] && c'.rdp.state in {Closed, CloseWait}
  {
    hide DiscardClose;
    DiscardSends(c, {Protocol}, cfg, env);
    DiscardLeaves(c, {Protocol}, cfg, env);
  }

  /** A segment outside the window is answered with SYN/ACK before the connection is open, with an EACK after. */
  lemma OutsideWindowAnswers(c: Conn, seg: Segment, cfg: Config, env: Env)
    requires !seg.rst && !seg.syn && seg.ack && c.rdp.state in {SynRcvd, Open}
    requires Off(seg.seqNr, c.rdp.rcvCur) == 0 || Off(seg.seqNr, c.rdp.rcvCur) > U16(2 * c.rdp.opt.window)
    requires !LetsAllPass(c.rdp.opt.window)
    ensures NewPacket(c, seg, cfg, env).0.out == c.out +
            [if c.rdp.state == SynRcvd then Segment(true, true, false, false, c.rdp.sndIss, c.rdp.rcvIrs, [])
             else Segment(false, true, true, false, c.rdp.sndNxt, c.rdp.rcvCur, SeqBytes(c.rdp.rx))]
  {
    InWindowOffset(seg.seqNr, c.rdp.rcvCur, c.rdp.opt.window);
    hide SeqBetween, U16, NewInWindow, SeqBytes;
  }

  /** An acknowledgement out of range changes nothing; one in range moves snd_una behind what it acknowledges. */
  lemma AcknowledgementCounts(c: Conn, seg: Segment, cfg: Config, env: Env)
    requires !seg.rst && !seg.syn && seg.ack && c.rdp.state == Open && !seg.eak && seg.body == []
    requires 1 <= Off(seg.seqNr, c.rdp.rcvCur) <= U16(2 * c.rdp.opt.window)
    ensures NewPacket(c, seg, cfg, env).0 ==
            if AckInRange(c, seg) then c.(rdp := c.rdp.(sndUna := U16(seg.ackNr + 1))) else c
  {
    InWindowOffset(seg.seqNr, c.rdp.rcvCur, c.rdp.opt.window);
    hide SeqBetween, U16, AckInRange, NewData;
  }

  /** A range that is not wider than the circle holds the numbers snd_una - 1 - 2W to snd_nxt - 1. */
  lemma AckRange(c: Conn, seg: Segment, una: int, n: int)
    requires c.rdp.sndUna == U16(una) && c.rdp.sndNxt == U16(n) && una <= n
    requires n - una + 2 * c.rdp.opt.window < 0x1_0000
    requires una - 1 - 2 * c.rdp.opt.window <= seg.ackNr < una - 1 - 2 * c.rdp.opt.window + 0x1_0000
    ensures AckInRange(c, seg) <==> seg.ackNr <= n - 1
  {
    var w: int := c.rdp.opt.window;
    var lo, hi := una - 1 - 2 * w, n - 1;
    BetweenIsInterval(seg.ackNr, lo, hi);
    AddMod(una, -1 - 2 * w);
    AddMod(n, -1);
    hide U16, SeqBetween;
    BetweenMod(seg.ackNr, seg.ackNr, c.rdp.sndUna - 1 - w * 2, lo, c.rdp.sndNxt - 1, hi);
  }

  /** New data out of sequence is queued and answered with an EACK that lists it last. */
  lemma OutOfOrderAnswers(c: Conn, seg: Segment, cfg: Config, env: Env)
    requires c.rdp.state == Open && !seg.rst && !seg.syn && seg.ack && !seg.eak && seg.body != []
    requires 2 <= Off(seg.seqNr, c.rdp.rcvCur) <= U16(2 * c.rdp.opt.window) && AckInRange(c, seg)
    requires |c.rdp.rx| < 2 * cfg.maxWindow && forall e | e in c.rdp.rx :: e.seqNr != seg.seqNr
    ensures var c' := NewPacket(c, seg, cfg, env).0;
            && c'.rdp.rx == c.rdp.rx + [seg] && c'.rxq == c.rxq && c'.rdp.rcvCur == c.rdp.rcvCur
            && c'.out == c.out + [Segment(false, true, true, false, c.rdp.sndNxt, c.rdp.rcvCur,
                                          SeqBytes(c.rdp.rx) + Be16(seg.seqNr))]
  {
    OutOfOrderPasses(c, seg, cfg, env);
    NotFound(c.rdp.rx, seg.seqNr);
    SeqBytesLast(c.rdp.rx, seg);
    hide NewPacket, U16, AckInRange, SeqBytes, Find;
  }

  lemma SeqBytesLast(rx: seq<Segment>, seg: Segment)
    ensures SeqBytes(rx + [seg]) == SeqBytes(rx) + Be16(seg.seqNr)
  {
    assert (rx + [seg])[..|rx|] == rx;
  }

  lemma NotFound(rx: seq<Segment>, seqNr: uint16)
    requires forall e | e in rx :: e.seqNr != seqNr
    ensures Find(rx, seqNr) == |rx|
  {
    if Find(rx, seqNr) < |rx| {
      assert rx[Find(rx, seqNr)] in rx;
    }
  }

  /** In CLOSE-WAIT an acknowledgement in range is answered with a reset, everything else with nothing. */
  lemma CloseWaitAnswers(c: Conn, seg: Segment, cfg: Config, env: Env)
    requires !seg.rst && c.rdp.state == CloseWait
    ensures var c' := NewPacket(c, seg, cfg, env).0;
            if !seg.syn && seg.ack && AckInRange(c, seg)
            then && c'.out == c.out + [Rst(c, true)] && c'.rdp.state == CloseWait
                 && c'.rdp.sndUna == U16(seg.ackNr + 1)
            else c' == c
  {
    hide AckInRange;
  }

  // Sending

  /** What csp_rdp_send accepts is sent at once, with the next number, and kept for sending again. */
  lemma SendSends(c: Conn, payload: seq<byte>, cfg: Config, env: Env)
    requires Send(c, payload, cfg, env).0 == SendResult.Sent
    ensures var c' := Send(c, payload, cfg, env).1;
            var seg := Segment(false, true, false, false, c.rdp.sndNxt, c.rdp.rcvCur, payload);
            && c'.out == c.out + [seg] && c'.rdp.sndNxt == U16(c.rdp.sndNxt + 1)
            && |c'.rdp.tx| == |c.rdp.tx| + 1 && c'.rdp.tx[|c.rdp.tx|] == TxElem(seg, env.now, 0)
  {
    hide ReadyForTx;
  }

  // Timeouts

  /** The time tests on the circle of 32-bit milliseconds. */
  lemma TimeAfterIsLater(time: int, cmp: int)
    requires -0x8000_0000 < time - cmp < 0x8000_0000
    ensures TimeAfter(time, cmp) <==> time > cmp
    ensures TimeBefore(time, cmp) <==> time < cmp
  {
    Sub32(cmp, time);
    Sub32(time, cmp);
  }

  lemma Sub32(x: int, y: int)
    ensures U32(U32(x) - U32(y)) == U32(x - y)
  {
  }

  /** A half-open connection that user space never got is closed when the connection timeout is over. */
  lemma HalfOpenTimesOut(c: Conn, cfg: Config, env: Env)
    requires c.open && c.frdp && c.socket && c.rdp.state != Closed
    ensures TimeAfter(env.now, c.timestamp + c.rdp.opt.connTimeout) ==>
              var c' := CheckTimeouts(c, cfg, env);
              !c'.open && c'.rdp.state == Closed && c'.rdp.tx == [] && c'.rxq == []
  {
    hide TimeAfter;
    assert forall p: Party :: p in ALL_PARTIES by {
      forall p: Party ensures p in ALL_PARTIES {
        match p case Userspace => case Protocol => case Timeout =>
      }
    }
    assert c.rdp.closedBy + ALL_PARTIES == ALL_PARTIES;
  }

  /** While it is not, a timeout check closes nothing. */
  lemma NothingTimesOut(c: Conn, cfg: Config, env: Env)
    requires !TimeAfter(env.now, c.timestamp + c.rdp.opt.connTimeout)
    ensures var c' := CheckTimeouts(c, cfg, env);
            c'.open == c.open && c'.rdp.state == c.rdp.state && c'.rdp.closedBy == c.rdp.closedBy && c'.rxq == c.rxq
  {
    hide TimeAfter, SweepTx, SweepOut, CheckAck;
    AcksTouchLittle(c.(out := c.out + SweepOut(c.rdp.tx, c.rdp, env.now),
                       rdp := c.rdp.(tx := SweepTx(c.rdp.tx, c.rdp, env.now))), cfg, env);
  }

  /** Sent again is exactly what is neither acknowledged nor younger than the packet timeout, with a new ACK number. */
  lemma {:induction false} SentAgainIff(tx: seq<TxElem>, r: Rdp, now: uint32, seg: Segment)
    ensures seg in SweepOut(tx, r, now) <==>
            exists e :: e in tx && !SeqBefore(e.seg.seqNr, r.sndUna)
                        && TimeAfter(now, e.timestamp + r.opt.packetTimeout) && seg == e.seg.(ackNr := r.rcvCur)
    decreases |tx|
  {
    hide SeqBefore, TimeAfter;
    if tx != [] {
      var init, last := tx[..|tx| - 1], tx[|tx| - 1];
      assert tx == init + [last];
      SentAgainIff(init, r, now, seg);
    }
  }

  /** And its age starts again. */
  lemma {:induction false} AgesStartAgain(tx: seq<TxElem>, r: Rdp, now: uint32, e: TxElem)
    requires e in tx && !SeqBefore(e.seg.seqNr, r.sndUna)
    ensures var kept := if TimeAfter(now, e.timestamp + r.opt.packetTimeout)
                        then e.(seg := e.seg.(ackNr := r.rcvCur), timestamp := now) else e;
            kept in SweepTx(tx, r, now)
    decreases |tx|
  {
    hide SeqBefore, TimeAfter;
    var init, last := tx[..|tx| - 1], tx[|tx| - 1];
    assert tx == init + [last];
    if e in init {
      AgesStartAgain(init, r, now, e);
    }
  }

  // Selective acknowledgements

  /** An EACK frees exactly what it lists; everything else stays, as `Touch` leaves it. */
  lemma {:induction false} EackFrees(tx: seq<TxElem>, words: seq<uint16>, packetTimeout: uint32, now: uint32, e: TxElem)
    ensures e in FlushEack(tx, words, packetTimeout, now) <==>
            exists e0 :: e0 in tx && e0.seg.seqNr !in words && e == Touch(e0, words, packetTimeout, now)
    decreases |tx|
  {
    hide Touch;
    if tx != [] {
      var init, last := tx[..|tx| - 1], tx[|tx| - 1];
      assert tx == init + [last];
      EackFrees(init, words, packetTimeout, now, e);
    }
  }

  lemma {:induction false} OvertakenIff(words: seq<uint16>, seqNr: uint16)
    ensures Overtaken(words, seqNr) <==> exists w :: w in words && w > seqNr
    decreases |words|
  {
    if words != [] {
      var init, last := words[..|words| - 1], words[|words| - 1];
      assert words == init + [last];
      assert last in words && (forall w | w in words :: w in init || w == last) && forall w | w in init :: w in words;
      OvertakenIff(init, seqNr);
    }
  }

  /**
   An element that an EACK passes over while it lists a larger number, and that is out of its quarantine, has expired
   afterwards, so that the next sweep sends it again, and is in quarantine for half the packet timeout.
   */
  lemma OvertakenExpires(e: TxElem, words: seq<uint16>, packetTimeout: uint32, now: uint32, w: uint16)
    requires w in words && w > e.seg.seqNr && TimeAfter(now, e.quarantine)
    ensures var e' := Touch(e, words, packetTimeout, now);
            && e'.seg == e.seg && Expired(e', packetTimeout, now)
            && e'.quarantine == U32(now + packetTimeout / 2)
  {
    OvertakenIff(words, e.seg.seqNr);
    TouchedTime(now, packetTimeout);
    hide TimeAfter, Overtaken;
    assert Touch(e, words, packetTimeout, now).timestamp == U32(now - packetTimeout - 1);
  }

  lemma TouchedTime(now: uint32, packetTimeout: uint32)
    ensures TimeAfter(now, U32(now - packetTimeout - 1) + packetTimeout)
  {
    Sub32(U32(now - packetTimeout - 1) + packetTimeout, now);
  }

  /** Everything else stays as it is. */
  lemma OthersStay(e: TxElem, words: seq<uint16>, packetTimeout: uint32, now: uint32)
    requires (forall w | w in words :: w <= e.seg.seqNr) || !TimeAfter(now, e.quarantine)
    ensures Touch(e, words, packetTimeout, now) == e
  {
    OvertakenIff(words, e.seg.seqNr);
  }
}
