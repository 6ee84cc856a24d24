/** When acknowledgements must be sent, and how many segments can stay unacknowledged. */
module RdpAcks {
  import opened Words
  import opened RdpSpec
  import opened RdpQueues
  import opened RdpLife

  /** How many numbers have been received in sequence since the last acknowledgement. */
  function Lag(c: Conn): uint16 {
    U16(c.rdp.rcvCur - c.rdp.rcvLsa)
  }

  /** More than so many milliseconds, and at most 2^31 more, have passed since the last acknowledgement. */
  predicate Passed(last: uint32, timeout: uint32, now: uint32) {
    1 <= U32(now - last - timeout) <= 0x8000_0000
  }

  /** More than so many numbers wait for their acknowledgement, on the circle of 16-bit numbers. */
  predicate Many(last: uint16, count: uint32, cur: uint16) {
    1 <= U16(cur - last - count) <= 0x8000
  }

  /** An acknowledgement of everything up to cur is due. */
  predicate Due(c: Conn, cur: uint16, now: uint32) {
    || c.rdp.opt.delayedAcks == 0
    || Passed(c.rdp.ackTimestamp, c.rdp.opt.ackTimeout, now)
    || Many(c.rdp.rcvLsa, c.rdp.opt.ackDelayCount, cur)
  }

  /** With small numbers that is a comparison of counts. */
  lemma ManyIsCount(c: Conn)
    requires c.rdp.opt.ackDelayCount < 0x8000 && Lag(c) <= 0x8000
    ensures Many(c.rdp.rcvLsa, c.rdp.opt.ackDelayCount, c.rdp.rcvCur) <==> Lag(c) > c.rdp.opt.ackDelayCount
  {
    var n: int, lag: int := c.rdp.opt.ackDelayCount, Lag(c);
    SubMod(c.rdp.rcvCur - c.rdp.rcvLsa, n);
    LagLess(lag, n);
    assert c.rdp.rcvCur - c.rdp.rcvLsa - n == (c.rdp.rcvCur - c.rdp.rcvLsa) - n;
    AddMod(c.rdp.rcvCur - c.rdp.rcvLsa, -n);
  }

  lemma LagLess(lag: int, n: int)
    requires 0 <= n < 0x8000 && 0 <= lag <= 0x8000
    ensures 1 <= U16(lag - n) <= 0x8000 <==> lag > n
  {
  }

  lemma AfterIsPassed(time: int, cmp: int)
    ensures TimeAfter(time, cmp) <==> 1 <= U32(time - cmp) <= 0x8000_0000
  {
    SubMod32(cmp, time);
    NegMod32(time - cmp);
  }

  lemma SubMod32(x: int, y: int)
    ensures U32(U32(x) - U32(y)) == U32(x - y)
  {
  }

  lemma NegMod32(x: int)
    ensures U32(-x) == if U32(x) == 0 then 0 else 0x1_0000_0000 - U32(x)
  {
  }

  lemma AfterIsMany(s: int, cmp: int)
    ensures SeqAfter(s, cmp) <==> 1 <= U16(s - cmp) <= 0x8000
  {
    SubMod(cmp, s);
    NegMod(s - cmp);
  }

  lemma NegMod(x: int)
    ensures U16(-x) == if U16(x) == 0 then 0 else 0x1_0000 - U16(x)
  {
  }

  /** More than twice the window is free in the application queue. */
  predicate Roomy(c: Conn, cfg: Config) {
    cfg.queueLength - |c.rxq| > 2 * Int32(c.rdp.opt.window)
  }

  /** The window is compared as a signed number: one from 2^31 on is negative, and then there is always room. */
  lemma RoomyIff(c: Conn, cfg: Config)
    ensures c.rdp.opt.window < 0x8000_0000 ==> (Roomy(c, cfg) <==> |c.rxq| + 2 * c.rdp.opt.window < cfg.queueLength)
    ensures c.rdp.opt.window >= 0x8000_0000 ==>
              (Roomy(c, cfg) <==> |c.rxq| < cfg.queueLength + 2 * (0x1_0000_0000 - c.rdp.opt.window))
  {
  }

  /** The acknowledgement of everything received in sequence. */
  function Ack(c: Conn): Segment {
    Segment(false, true, false, false, c.rdp.sndNxt, c.rdp.rcvCur, [])
  }

  /** c' is c after exactly one acknowledgement has been sent and noted. */
  predicate Acked(c: Conn, c': Conn, now: uint32) {
    c' == c.(out := c.out + [Ack(c)], rdp := c.rdp.(rcvLsa := c.rdp.rcvCur, ackTimestamp := now))
  }

  /** The acknowledgement is sent exactly when it is due and there is room. */
  lemma AckWhenDue(c: Conn, cfg: Config, env: Env)
    ensures if Roomy(c, cfg) && Due(c, c.rdp.rcvCur, env.now)
            then Acked(c, CheckAck(c, cfg, env), env.now) else CheckAck(c, cfg, env) == c
  {
    hide TimeAfter, SeqAfter, U16, U32;
    AfterIsPassed(env.now, c.rdp.ackTimestamp + c.rdp.opt.ackTimeout);
    AfterIsMany(c.rdp.rcvCur, c.rdp.rcvLsa + c.rdp.opt.ackDelayCount);
    assert env.now - (c.rdp.ackTimestamp + c.rdp.opt.ackTimeout) == env.now - c.rdp.ackTimestamp - c.rdp.opt.ackTimeout;
    assert c.rdp.rcvCur - (c.rdp.rcvLsa + c.rdp.opt.ackDelayCount) ==
           c.rdp.rcvCur - c.rdp.rcvLsa - c.rdp.opt.ackDelayCount;
  }

  // A segment in sequence

  /** An acceptable data segment with the next number, and a place for it in the application queue. */
  predicate Expected(c: Conn, seg: Segment, cfg: Config) {
    && c.rdp.state == Open && Plain(seg) && !seg.eak && seg.body != []
    && seg.seqNr == U16(c.rdp.rcvCur + 1) && AckInRange(c, seg) && |c.rxq| < cfg.queueLength
  }

  lemma NextPasses(c: Conn, seg: Segment)
    requires seg.seqNr == U16(c.rdp.rcvCur + 1)
    ensures SeqBetween(seg.seqNr, c.rdp.rcvCur + 1, c.rdp.rcvCur + c.rdp.opt.window * 2)
  {
    hide SeqBetween;
    InWindowOffset(seg.seqNr, c.rdp.rcvCur, c.rdp.opt.window);
    OffNext(seg.seqNr, c.rdp.rcvCur);
    TwiceWindow(c.rdp.opt.window);
  }

  /**
   The next segment arrives: it is acknowledged by exactly one ACK when that is due and more than twice the window stays
   free, and otherwise nothing is sent.
   */
  lemma ExpectedIsAcked(c: Conn, seg: Segment, cfg: Config, env: Env)
    requires Expected(c, seg, cfg)
    ensures var c' := NewPacket(c, seg, cfg, env).0;
            var ack := Segment(false, true, false, false, c.rdp.sndNxt, seg.seqNr, []);
            if cfg.queueLength - |c.rxq| - 1 > 2 * Int32(c.rdp.opt.window) && Due(c, seg.seqNr, env.now)
            then c'.out == c.out + [ack] && c'.rdp.rcvLsa == seg.seqNr && c'.rdp.ackTimestamp == env.now
            else c'.out == c.out && c'.rdp.rcvLsa == c.rdp.rcvLsa && c'.rdp.ackTimestamp == c.rdp.ackTimestamp
  {
    var c1 := c.(rxq := c.rxq + [Data(seg.body)], rdp := c.rdp.(rcvCur := seg.seqNr, sndUna := U16(seg.ackNr + 1)));
    AckWhenDue(c1, cfg, env);
    ExpectedShape(c, seg, cfg, env);
    hide CheckAck, Flush, SeqBetween, AckInRange, Passed, Many, NewPacket;
  }

  lemma ExpectedShape(c: Conn, seg: Segment, cfg: Config, env: Env)
    requires Expected(c, seg, cfg)
    ensures var c1 := c.(rxq := c.rxq + [Data(seg.body)],
                         rdp := c.rdp.(rcvCur := seg.seqNr, sndUna := U16(seg.ackNr + 1)));
            NewPacket(c, seg, cfg, env).0 == RxQueueFlush(CheckAck(c1, cfg, env), cfg)
  {
    ExpectedPasses(c, seg, cfg, env);
    hide CheckAck, RxQueueFlush, NewOutOfOrder, FlushEack, Words16, NewPacket, AckInRange;
  }

  lemma ExpectedPasses(c: Conn, seg: Segment, cfg: Config, env: Env)
    requires Expected(c, seg, cfg)
    ensures NewPacket(c, seg, cfg, env).0 == NewAcked(c, seg, cfg, env)
  {
    NextPasses(c, seg);
    hide NewAcked, SeqBetween, AckInRange, DiscardClose, SendEack, SendSynAck;
  }

  // A segment that is queued already

  lemma Refused(rx: seq<Segment>, seg: Segment, cfg: Config)
    requires (exists e :: e in rx && e.seqNr == seg.seqNr) || |rx| >= 2 * cfg.maxWindow
    ensures !RxAdd(rx, seg, cfg).0
  {
    SearchKeeps(rx, seg.seqNr);
    hide Search;
  }

  /** A segment that waits in the reorder queue already, or finds it full, brings an ACK under the same conditions. */
  lemma RepeatedIsAcked(c: Conn, seg: Segment, cfg: Config, env: Env)
    requires c.rdp.state == Open && Plain(seg) && !seg.eak && seg.body != [] && AckInRange(c, seg)
    requires 2 <= Off(seg.seqNr, c.rdp.rcvCur) <= U16(2 * c.rdp.opt.window)
    requires (exists e :: e in c.rdp.rx && e.seqNr == seg.seqNr) || |c.rdp.rx| >= 2 * cfg.maxWindow
    ensures var c' := NewPacket(c, seg, cfg, env).0;
            if Roomy(c, cfg) && Due(c, c.rdp.rcvCur, env.now)
            then c'.out == c.out + [Ack(c)] && c'.rdp.rcvLsa == c.rdp.rcvCur && c'.rdp.ackTimestamp == env.now
            else c'.out == c.out && c'.rdp.rcvLsa == c.rdp.rcvLsa && c'.rdp.ackTimestamp == c.rdp.ackTimestamp
  {
    OutOfOrderPasses(c, seg, cfg, env);
    Refused(c.rdp.rx, seg, cfg);
    var c1 := c.(rdp := c.rdp.(sndUna := U16(seg.ackNr + 1), rx := RxAdd(c.rdp.rx, seg, cfg).1));
    AckWhenDue(c1, cfg, env);
    hide U16, AckInRange, RxAdd, NewPacket, CheckAck, Passed, Many, Int32;
  }

  // Timeout checks and reads

  /**
   A timeout check that closes nothing sends an ACK, behind the segments it sends again, when the connection is open
   with delayed acknowledgements and one is due.
   */
  lemma TimeoutCheckAcks(c: Conn, cfg: Config, env: Env)
    requires c.rdp.state != CloseWait && (c.socket ==> !Passed(c.timestamp, c.rdp.opt.connTimeout, env.now))
    ensures var c' := CheckTimeouts(c, cfg, env);
            var out := c.out + SweepOut(c.rdp.tx, c.rdp, env.now);
            if c.rdp.state == Open && c.rdp.opt.delayedAcks != 0 && Roomy(c, cfg) && Due(c, c.rdp.rcvCur, env.now)
            then c'.out == out + [Ack(c)] && c'.rdp.rcvLsa == c.rdp.rcvCur && c'.rdp.ackTimestamp == env.now
            else c'.out == out && c'.rdp.rcvLsa == c.rdp.rcvLsa && c'.rdp.ackTimestamp == c.rdp.ackTimestamp
  {
    var c1 := c.(out := c.out + SweepOut(c.rdp.tx, c.rdp, env.now),
                 rdp := c.rdp.(tx := SweepTx(c.rdp.tx, c.rdp, env.now)));
    AckWhenDue(c1, cfg, env);
    AfterIsPassed(env.now, c.timestamp + c.rdp.opt.connTimeout);
    assert env.now - (c.timestamp + c.rdp.opt.connTimeout) == env.now - c.timestamp - c.rdp.opt.connTimeout;
    hide CheckAck, SweepOut, SweepTx, TimeAfter, Many, U32;
  }

  /** So does reading a packet. */
  lemma ReadAcks(c: Conn, cfg: Config, env: Env)
    requires c.open && c.frdp && c.rxq != [] && c.rdp.opt.delayedAcks != 0
    ensures var c' := Read(c, cfg, env);
            && c'.rxq == c.rxq[1..]
            && if cfg.queueLength - |c.rxq| + 1 > 2 * Int32(c.rdp.opt.window) && Due(c, c.rdp.rcvCur, env.now)
               then c'.out == c.out + [Ack(c)] && c'.rdp.rcvLsa == c.rdp.rcvCur && c'.rdp.ackTimestamp == env.now
               else c'.out == c.out && c'.rdp.rcvLsa == c.rdp.rcvLsa && c'.rdp.ackTimestamp == c.rdp.ackTimestamp
  {
    AckWhenDue(c.(rxq := c.rxq[1..]), cfg, env);
    hide CheckAck, Passed, Many;
  }

  /** Without RDP, or without delayed acknowledgements, reading only takes the packet out. */
  lemma ReadOnlyTakes(c: Conn, cfg: Config, env: Env)
    requires c.open && c.rxq != [] && (!c.frdp || c.rdp.opt.delayedAcks == 0)
    ensures Read(c, cfg, env) == c.(rxq := c.rxq[1..])
  {
  }

  /** After either of them, with room, no more than ackDelayCount segments wait. */
  lemma CaughtUp(c: Conn, c': Conn, env: Env)
    requires c'.rdp.rcvCur == c.rdp.rcvCur && c'.rdp.opt == c.rdp.opt
    requires if Due(c, c.rdp.rcvCur, env.now) then c'.rdp.rcvLsa == c.rdp.rcvCur else c'.rdp.rcvLsa == c.rdp.rcvLsa
    requires c.rdp.opt.ackDelayCount < 0x8000 && Lag(c) <= 0x8000
    ensures Lag(c') <= c.rdp.opt.ackDelayCount
  {
    ManyIsCount(c);
  }

  // How far acknowledgements can fall behind

  /** Counts that cannot be confused on the circle of 16-bit numbers. */
  predicate SmallTerms(o: Options) {
    1 <= o.window && o.ackDelayCount + 2 * o.window < 0x8000
  }

  /** One segment more than the delay allows brings an acknowledgement, and then a flush may add a full queue. */
  function Bound(o: Options): int {
    o.ackDelayCount + 2 * o.window - 1
  }

  predicate LagOk(c: Conn) {
    && (c.rdp.state == SynRcvd ==> c.rdp.rcvCur == c.rdp.rcvLsa == c.rdp.rcvIrs)
    && (c.rdp.state == Open && SmallTerms(c.rdp.opt) ==> Lag(c) <= Bound(c.rdp.opt))
  }

  /**
   The application reads in time: a packet finds, besides its own place, more than twice the window free; and no
   csp_rdp_connect changes the terms of an open connection.
   */
  predicate Prompt(c: Conn, e: Event, cfg: Config) {
    && (e.Packet? && c.rdp.state in {SynRcvd, Open} && SmallTerms(c.rdp.opt) ==>
          cfg.queueLength - |c.rxq| - 1 > 2 * c.rdp.opt.window)
    && (e.Connect? ==> c.rdp.state != Open)
  }

  lemma RunFits(rx: seq<Segment>, cur: uint16, at: uint16, window: int, cfg: Config)
    requires Distinct(rx) && InWindow(rx, cur, 2, window) && 1 <= window && 2 * window < 0x1_0000
    ensures |Run(rx, at)| <= 2 * window - 1
  {
    hide Run, Flush;
    RunTakesOut(Flushed(rx, at, []), cfg);
    assert |multiset(Run(rx, at))| <= |multiset(rx)|;
    Pigeonhole(rx, cur, 2 * window);
  }

  lemma LagGrows(cur: uint16, last: uint16, n: int)
    requires n >= 0 && U16(cur - last) + n < 0x1_0000
    ensures U16(U16(cur + n) - last) == U16(cur - last) + n
  {
    var l: int := last;
    AddMod(cur + n, -l);
    AddMod(cur - l, n);
  }

  /** After a segment in sequence and what it flushes, the bound holds. */
  lemma InOrderLag(c: Conn, seg: Segment, cfg: Config, env: Env)
    requires RxOk(c) && SmallTerms(c.rdp.opt) && Lag(c) <= Bound(c.rdp.opt)
    requires seg.seqNr == U16(c.rdp.rcvCur + 1) && cfg.queueLength - |c.rxq| - 1 > 2 * c.rdp.opt.window
    ensures Lag(NewInOrder(c, seg, cfg, env)) <= Bound(c.rdp.opt)
  {
    hide U16, CheckAck, Flush, RxOk, Run, Due, Many, Passed;
    var c1 := c.(rxq := c.rxq + [Data(seg.body)], rdp := c.rdp.(rcvCur := seg.seqNr));
    AckWhenDue(c1, cfg, env);
    LagGrows(c.rdp.rcvCur, c.rdp.rcvLsa, 1);
    CaughtUp(c1, CheckAck(c1, cfg, env), env);
    var c2 := CheckAck(c1, cfg, env);
    assert Lag(c2) <= c.rdp.opt.ackDelayCount;
    var f := Flushed(c2.rdp.rx, c2.rdp.rcvCur, c2.rxq);
    RunNumbers(f, cfg);
    RxOkMeans(c);
    RunFits(c.rdp.rx, c.rdp.rcvCur, c2.rdp.rcvCur, c.rdp.opt.window, cfg);
    LagGrows(c2.rdp.rcvCur, c2.rdp.rcvLsa, |Run(f.rx, f.rcvCur)|);
  }

  lemma RxOkMeans(c: Conn)
    requires RxOk(c)
    ensures Distinct(c.rdp.rx) && InWindow(c.rdp.rx, c.rdp.rcvCur, 2, c.rdp.opt.window)
  {
  }

  lemma OutOfOrderLag(c: Conn, seg: Segment, cfg: Config, env: Env)
    ensures Lag(NewOutOfOrder(c, seg, cfg, env)) <= Lag(c)
  {
    hide RxAdd, Due, CheckAck, SeqBytes;
    var c1 := c.(rdp := c.rdp.(rx := RxAdd(c.rdp.rx, seg, cfg).1));
    AckWhenDue(c1, cfg, env);
  }

  lemma AckedLag(c: Conn, seg: Segment, cfg: Config, env: Env)
    requires RxOk(c) && SmallTerms(c.rdp.opt) && Lag(c) <= Bound(c.rdp.opt)
    requires cfg.queueLength - |c.rxq| - 1 > 2 * c.rdp.opt.window
    ensures Lag(NewAcked(c, seg, cfg, env)) <= Bound(c.rdp.opt)
  {
    hide U16, NewInOrder, NewOutOfOrder, FlushEack, Words16, RxOk;
    var c1 := c.(rdp := c.rdp.(sndUna := U16(seg.ackNr + 1)));
    SameQueue(c, c1);
    if seg.seqNr == U16(c1.rdp.rcvCur + 1) {
      InOrderLag(c1, seg, cfg, env);
    } else {
      OutOfOrderLag(c1, seg, cfg, env);
    }
  }

  lemma SameQueue(c: Conn, c1: Conn)
    requires RxOk(c) && c1.rdp.rx == c.rdp.rx && c1.rdp.rcvCur == c.rdp.rcvCur && c1.rdp.opt == c.rdp.opt
    ensures RxOk(c1)
  {
  }

  lemma ZeroLag(c: Conn)
    requires c.rdp.rcvCur == c.rdp.rcvLsa
    ensures Lag(c) == 0
  {
  }

  lemma OpenLag(c: Conn, seg: Segment, cfg: Config, env: Env)
    requires LagOk(c) && RxOk(c) && c.open && c.frdp && c.rdp.state in {SynRcvd, Open}
    requires SmallTerms(c.rdp.opt) ==> cfg.queueLength - |c.rxq| - 1 > 2 * c.rdp.opt.window
    ensures LagOk(NewInOpen(c, seg, cfg, env))
  {
    hide NewAcked, DiscardClose, SeqBetween, AckInRange, RxOk, Lag, SeqBytes;
    var c1 := c.(rdp := c.rdp.(state := Open));
    var c2 := c1.(socket := false);
    DiscardEnds(c, {Protocol}, cfg, env);
    DiscardEnds(c1, {Protocol}, cfg, env);
    SameQueue(c, c2);
    LagSame(c, c2);
    ZeroLag(SendEack(c, cfg, env));
    if c.rdp.state == SynRcvd { ZeroLag(c); }
    if SmallTerms(c.rdp.opt) {
      AckedLag(c, seg, cfg, env);
      AckedLag(c2, seg, cfg, env);
    }
    AckedTerms(c, seg, cfg, env);
    AckedTerms(c2, seg, cfg, env);
  }

  lemma LagSame(c: Conn, c1: Conn)
    requires c1.rdp.rcvCur == c.rdp.rcvCur && c1.rdp.rcvLsa == c.rdp.rcvLsa
    ensures Lag(c1) == Lag(c)
  {
  }

  lemma AckedTerms(c: Conn, seg: Segment, cfg: Config, env: Env)
    ensures NewAcked(c, seg, cfg, env).rdp.opt == c.rdp.opt && NewAcked(c, seg, cfg, env).rdp.state == c.rdp.state
  {
    hide NewAcked;
    AckedKeepsState(c, seg, cfg, env);
    AckedKeepsOptions(c, seg, cfg, env);
  }

  lemma RstLag(c: Conn, seg: Segment, cfg: Config, env: Env)
    requires LagOk(c) && Life(c) && c.open && c.frdp && seg.rst
    ensures LagOk(Happen(c, Packet(seg), cfg, env))
  {
    hide LagOk;
    RstIgnored(c, seg, cfg, env);
    var c' := Happen(c, Packet(seg), cfg, env);
    hide Happen;
    if c'.rdp.state in {Closed, CloseWait} {
      ClosedLag(c');
    } else {
      AckLag(c, c');
    }
  }

  /** A reset closes, or leaves the numbers of the connection alone. */
  lemma RstIgnored(c: Conn, seg: Segment, cfg: Config, env: Env)
    requires Life(c) && c.open && c.frdp && seg.rst
    ensures var c' := Happen(c, Packet(seg), cfg, env);
            c'.rdp.state in {Closed, CloseWait} || c' == c || c' == c.(rdp := c.rdp.(sndUna := U16(seg.ackNr + 1)))
  {
    hide DiscardClose, U16;
    var c1 := if seg.ack then c.(rdp := c.rdp.(sndUna := U16(seg.ackNr + 1))) else c;
    DiscardEnds(c1, ClosedByPeer(seg, cfg), cfg, env);
    var c2 := SendRst(c1.(timestamp := env.now, rdp := c1.rdp.(state := CloseWait)), true, cfg, env);
    DiscardEnds(c2, {Protocol} + if cfg.fastClose then {Timeout} else {}, cfg, env);
    CloseTerms(c1, {Userspace}, cfg, env);
    hide ConnClose;
  }

  lemma OpeningLag(c: Conn, seg: Segment, cfg: Config, env: Env)
    requires LagOk(c) && c.open && c.frdp && !seg.rst && c.rdp.state !in {SynRcvd, Open}
    ensures LagOk(NewPacket(c, seg, cfg, env).0)
  {
    hide DiscardClose, Lag, ReadOptions, AckInRange;
    DiscardEnds(c, {Protocol}, cfg, env);
    DiscardEnds(SendRst(c, false, cfg, env), {Protocol}, cfg, env);
    ZeroLag(SendAck(AcceptSynAck(c, seg, env), cfg, env));
  }

  lemma PacketLag(c: Conn, seg: Segment, cfg: Config, env: Env)
    requires Kept(c) && LagOk(c) && c.open && c.frdp && Prompt(c, Packet(seg), cfg)
    ensures LagOk(Happen(c, Packet(seg), cfg, env))
  {
    hide LagOk, RxOk, Life, NewInOpen, NewInClosed, NewInSynSent, NewInCloseWait, NewRst;
    if seg.rst {
      RstLag(c, seg, cfg, env);
    } else if c.rdp.state in {SynRcvd, Open} {
      OpenLag(c, seg, cfg, env);
    } else {
      OpeningLag(c, seg, cfg, env);
    }
  }

  lemma ClosedLag(c: Conn)
    requires c.rdp.state in {Closed, SynSent, CloseWait}
    ensures LagOk(c)
  {
  }

  /** c' sends at most acknowledgements and keeps the terms. */
  lemma AckLag(c: Conn, c': Conn)
    requires LagOk(c) && SameTerms(c, c') && c'.rdp.rcvIrs == c.rdp.rcvIrs && c'.rdp.rcvCur == c.rdp.rcvCur
    requires c'.rdp.rcvLsa == c.rdp.rcvLsa || c'.rdp.rcvLsa == c.rdp.rcvCur
    ensures LagOk(c')
  {
    if c'.rdp.rcvLsa == c.rdp.rcvCur { ZeroLag(c'); }
  }

  lemma CloseLag(c: Conn, who: set<Party>, cfg: Config, env: Env)
    requires LagOk(c)
    ensures LagOk(ConnClose(c, who, cfg, env))
  {
  }

  lemma TimeoutsLag(c: Conn, cfg: Config, env: Env)
    requires LagOk(c)
    ensures LagOk(CheckTimeouts(c, cfg, env))
  {
    hide ConnClose, TimeAfter, SweepTx, SweepOut, CheckAck, LagOk, Due;
    CloseLag(c, ALL_PARTIES, cfg, env);
    CloseLag(c, {Protocol, Timeout}, cfg, env);
    var c1 := c.(out := c.out + SweepOut(c.rdp.tx, c.rdp, env.now),
                 rdp := c.rdp.(tx := SweepTx(c.rdp.tx, c.rdp, env.now)));
    AckWhenDue(c1, cfg, env);
    AckLag(c, c1);
    AckLag(c1, CheckAck(c1, cfg, env));
  }

  lemma ReadLag(c: Conn, cfg: Config, env: Env)
    requires LagOk(c)
    ensures LagOk(Read(c, cfg, env))
  {
    hide CheckAck, LagOk, Due;
    if c.open && c.rxq != [] {
      var c1 := c.(rxq := c.rxq[1..]);
      AckWhenDue(c1, cfg, env);
      AckLag(c, c1);
      AckLag(c1, CheckAck(c1, cfg, env));
    }
  }

  lemma DatagramLag(c: Conn, bytes: seq<byte>, cfg: Config, env: Env)
    requires LagOk(c)
    ensures LagOk(NewDatagram(c, bytes, cfg, env))
  {
    hide ConnClose;
    CloseLag(c.(rxq := c.rxq + [Data(bytes)]), {Userspace}, cfg, env);
  }

  lemma GiveUpLag(c: Conn, cfg: Config, env: Env)
    requires LagOk(c)
    ensures LagOk(ConnectFail(c, cfg, env))
  {
    hide ConnClose;
    CloseLag(CloseInternal(c, {Protocol}, false, cfg, env).1, {Userspace}, cfg, env);
  }

  lemma ConnectLag(c: Conn, cfg: Config, env: Env)
    requires c.rdp.state != Open
    ensures LagOk(ConnectStart(c, cfg, env))
    ensures LagOk(c) ==> LagOk(ConnectRetry(c, cfg, env))
  {
    hide OptionBytes;
  }

  lemma HappenLag(c: Conn, e: Event, cfg: Config, env: Env)
    requires Kept(c) && LagOk(c) && Enabled(c, e) && Prompt(c, e, cfg)
    ensures LagOk(Happen(c, e, cfg, env))
  {
    hide LagOk, NewPacket, ConnClose, CheckTimeouts, Read, ConnectFail, ConnectStart, ConnectRetry, NewDatagram, RxOk;
    match e
    case Packet(seg) => PacketLag(c, seg, cfg, env);
    case Connect => ConnectLag(c, cfg, env);
    case Retry => RetryLag(c, cfg, env);
    case Timeouts => TimeoutsLag(c, cfg, env);
    case UserClose => CloseLag(c, {Userspace}, cfg, env);
    case GiveUp => GiveUpLag(c, cfg, env);
    case UserRead => ReadLag(c, cfg, env);
    case Datagram(bytes) => DatagramLag(c, bytes, cfg, env);
    case UserSend(payload) => SendLag(c, payload, cfg, env);
    case Allocate(passive, rdp) =>
      AckLag(c, c.(open := true, frdp := rdp, socket := passive, timestamp := env.now, rxq := []));
  }

  lemma RetryLag(c: Conn, cfg: Config, env: Env)
    requires LagOk(c)
    ensures LagOk(ConnectRetry(c, cfg, env))
  {
    if c.rdp.state == SynSent { ConnectLag(c, cfg, env); }
  }

  lemma SendLag(c: Conn, payload: seq<byte>, cfg: Config, env: Env)
    requires LagOk(c)
    ensures LagOk(Send(c, payload, cfg, env).1)
  {
    hide ReadyForTx;
    AckLag(c, Send(c, payload, cfg, env).1);
  }

  ghost predicate AllPrompt(run: seq<Conn>, hs: seq<Happening>, cfg: Config)
    requires |run| == |hs| + 1
  {
    forall i | 0 <= i < |hs| :: Prompt(run[i], hs[i].e, SettingsAt(cfg, hs[i]))
  }

  lemma FreshLag(cfg: Config)
    ensures LagOk(Fresh(cfg))
  {
  }

  lemma {:induction false} LagOkInTrace(run: seq<Conn>, hs: seq<Happening>, i: nat, cfg: Config)
    requires IsTrace(run, hs, cfg) && AllOrderly(run, hs, cfg) && AllPrompt(run, hs, cfg) && i < |run|
    ensures LagOk(run[i])
  {
    hide Happen, Kept, LagOk, Orderly, Prompt, Enabled, SettingsAt;
    if i > 0 {
      LagOkInTrace(run, hs, i - 1, cfg);
      KeptInTrace(run, hs, i - 1, cfg);
      assert IsStep(run[i - 1], hs[i - 1], run[i - 1 + 1], cfg);
      HappenLag(run[i - 1], hs[i - 1].e, SettingsAt(cfg, hs[i - 1]), hs[i - 1].env);
    } else {
      FreshLag(cfg);
    }
  }

  /**
   In every run, against any peer, whose application reads in time: never do more segments than ackDelayCount and a full
   reorder queue wait for their acknowledgement.
   */
  lemma LagInTrace(run: seq<Conn>, hs: seq<Happening>, i: nat, cfg: Config)
    requires IsTrace(run, hs, cfg) && AllOrderly(run, hs, cfg) && AllPrompt(run, hs, cfg) && i < |run|
    requires run[i].rdp.state == Open && SmallTerms(run[i].rdp.opt)
    ensures Lag(run[i]) <= run[i].rdp.opt.ackDelayCount + 2 * run[i].rdp.opt.window - 1
  {
    hide AllOrderly, AllPrompt, IsTrace, Lag;
    LagOkInTrace(run, hs, i, cfg);
  }
}
