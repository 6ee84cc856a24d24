/** The theorems about runs of two open RDP endpoints. */
module RdpRuns {
  import opened Words
  import opened RdpSpec
  import opened RdpQueues
  import opened RdpNetwork
  import opened RdpDelivery

  /** An acknowledgement sent on top of a good state. */
  lemma ReplyKeeps(m: Net, s1: Side, s2: Side, window: uint32)
    requires SaneWindow(window) && Established(m.b.c, window) && Established(s1.c.(out := []), window)
    requires Half(ViewOf(s1), ViewOf(m.b), m.ab, m.ba) && Half(ViewOf(m.b), ViewOf(s1), m.ba, m.ab)
    requires AckOnly(s1.c, s2.c) && s2.accepted == s1.accepted && s2.delivered == s1.delivered
    requires forall seg | seg in s2.c.out :: OutOk(ViewOf(s1), ViewOf(m.b), seg)
    ensures Inv(Settle(m, s2), window)
  {
    hide Half;
    HalfDepends(ViewOf(s1), ViewOf(s2), ViewOf(m.b), ViewOf(m.b), m.ab, m.ba);
    HalfDepends(ViewOf(m.b), ViewOf(m.b), ViewOf(s1), ViewOf(s2), m.ba, m.ab);
    forall seg | seg in s2.c.out ensures OutOk(ViewOf(s2), ViewOf(m.b), seg) {
      OutOkDepends(ViewOf(s1), ViewOf(s2), ViewOf(m.b), seg);
    }
    SettleKeeps(m, s2, window);
  }

  lemma OutOkDepends(x: View, x': View, y: View, seg: Segment)
    requires OutOk(x, y, seg) && SameSender(x, x') && SameReceiver(x, x')
    ensures OutOk(x', y, seg)
  {
    hide U16, EackOk;
    assert TagOf(x', seg) == TagOf(x, seg);
    assert forall k :: InRx(y, x, k) ==> InRx(y, x', k);
    AckSegStable(y, x, y, x', TagOf(x, seg));
  }

  lemma SendKeeps(n: Net, p: Payload, cfg: Config, env: Env, window: uint32)
    requires Inv(n, window)
    ensures Inv(Settle(n, SendSide(n.a, p, cfg, env)), window)
    ensures TxFresh(ViewOf(n.a)) ==> TxFresh(ViewOf(Settle(n, SendSide(n.a, p, cfg, env)).a))
  {
    hide U16, Half, SeqAfter;
    var v, w, s := ViewOf(n.a), ViewOf(n.b), SendSide(n.a, p, cfg, env);
    var (r, c) := Send(n.a.c, p, cfg, env);
    if r == SendResult.Sent {
      var seg := Segment(false, true, false, false, v.rdp.sndNxt, v.rdp.rcvCur, p);
      assert c.out == [seg];
      HalfMeans(v, w, n.ab, n.ba);
      HalfMeans(w, v, n.ba, n.ab);
      ReadyIsRoom(v, w, window);
      AcceptKeeps(v, ViewOf(s), w, TxElem(seg, env.now, 0), n.ab, n.ba);
      HalfMeans(ViewOf(s), w, n.ab, n.ba);
      HalfDepends(w, w, v, ViewOf(s), n.ba, n.ab);
      DataOutOk(ViewOf(s), w, seg, |v.accepted|);
    }
    SettleKeeps(n, s, window);
  }

  lemma HalfMeans(s: View, r: View, data: set<Tagged>, acks: set<Tagged>)
    requires Half(s, r, data, acks)
    ensures Counters(s, r) && Prefix(s, r) && TxOk(s) && RxView(s, r) && DataOk(s, data) && AcksOk(s, r, acks) &&
            NothingLost(s, r)
  {
  }

  lemma AckOk(n: Net, c: Conn, v: View, window: uint32)
    requires Half(v, ViewOf(n.b), n.ab, n.ba) && Half(ViewOf(n.b), v, n.ba, n.ab) && v.rdp == c.rdp
    ensures OutOk(v, ViewOf(n.b), AckSegment(c)) && OutOk(v, ViewOf(n.b), EackSegment(c))
  {
    hide U16, SeqBytes, OutOk, TxOk, DataOk, AcksOk, Prefix, NothingLost;
    ControlOk(v, ViewOf(n.b), AckSegment(c), |v.delivered|);
    EackOutOk(v, ViewOf(n.b), EackSegment(c));
  }

  lemma ReadKeeps(n: Net, cfg: Config, env: Env, window: uint32)
    requires Inv(n, window)
    ensures Inv(Settle(n, ReadSide(n.a, cfg, env)), window)
    ensures TxFresh(ViewOf(n.a)) ==> TxFresh(ViewOf(Settle(n, ReadSide(n.a, cfg, env)).a))
  {
    hide Half, CheckAck, OutOk;
    if n.a.c.rxq != [] {
      var s1 := n.a.(c := n.a.c.(rxq := n.a.c.rxq[1..]));
      AcksTouchLittle(s1.c, cfg, env);
      AckOk(n, s1.c, ViewOf(s1), window);
      ReplyKeeps(n, s1, ReadSide(n.a, cfg, env), window);
    } else {
      SettleKeeps(n, n.a, window);
    }
  }

  /** What the timeout check does to an open connection that user space has accepted. */
  lemma CheckShape(c: Conn, cfg: Config, env: Env)
    requires c.open && !c.socket && c.rdp.state == Open && c.out == []
    ensures var c1 := c.(rdp := c.rdp.(tx := SweepTx(c.rdp.tx, c.rdp, env.now)));
            var out := SweepOut(c.rdp.tx, c.rdp, env.now);
            && AckOnly(c1, CheckTimeouts(c, cfg, env))
            && (CheckTimeouts(c, cfg, env).out == out || CheckTimeouts(c, cfg, env).out == out + [AckSegment(c1)])
  {
    hide SweepTx, SweepOut, CheckAck, TimeAfter;
    var c1 := c.(out := c.out + SweepOut(c.rdp.tx, c.rdp, env.now),
                 rdp := c.rdp.(tx := SweepTx(c.rdp.tx, c.rdp, env.now)));
    AcksTouchLittle(c1, cfg, env);
    assert c.out + SweepOut(c.rdp.tx, c.rdp, env.now) == SweepOut(c.rdp.tx, c.rdp, env.now);
  }

  /** Everything the sweep sends again is an accepted payload under its own number. */
  lemma ResendOk(s: View, s': View, r: View, now: uint32, seg: Segment)
    requires Counters(s, r) && Counters(r, s) && TxOk(s)
    requires s' == s.(rdp := s.rdp.(tx := s'.rdp.tx)) && seg in SweepOut(s.rdp.tx, s.rdp, now)
    ensures OutOk(s', r, seg)
  {
    hide U16, SweepOut, SeqBefore;
    SweepSendsOld(s.rdp.tx, s.rdp, now, seg);
    var e :| e in s.rdp.tx && !SeqBefore(e.seg.seqNr, s.rdp.sndUna) && seg == e.seg.(ackNr := s.rdp.rcvCur);
    assert TxElemOk(s, e);
    SweptIsAcked(s, r, e);
    TxWire(s, e);
    DataOutOk(s', r, seg, TxIndex(s, e));
  }

  lemma CheckKeeps(n: Net, cfg: Config, env: Env, window: uint32)
    requires Inv(n, window)
    ensures Inv(Settle(n, CheckSide(n.a, cfg, env)), window)
    ensures TxFresh(ViewOf(Settle(n, CheckSide(n.a, cfg, env)).a))
  {
    hide U16, Half, OutOk, CheckTimeouts, SweepTx, SweepOut, TxOk;
    var v, w, s := ViewOf(n.a), ViewOf(n.b), CheckSide(n.a, cfg, env);
    var c1 := n.a.c.(rdp := n.a.c.rdp.(tx := SweepTx(n.a.c.rdp.tx, n.a.c.rdp, env.now)));
    var s1 := n.a.(c := c1);
    CheckShape(n.a.c, cfg, env);
    HalfMeans(v, w, n.ab, n.ba);
    HalfMeans(w, v, n.ba, n.ab);
    SweepKeeps(v, ViewOf(s1), w, env.now, n.ab, n.ba);
    HalfDepends(w, w, v, ViewOf(s1), n.ba, n.ab);
    AckOk(n, c1, ViewOf(s1), window);
    forall seg | seg in s.c.out ensures OutOk(ViewOf(s1), w, seg) {
      if seg in SweepOut(n.a.c.rdp.tx, n.a.c.rdp, env.now) {
        ResendOk(v, ViewOf(s1), w, env.now, seg);
      }
    }
    ReplyKeeps(n, s1, s, window);
    assert TxFresh(ViewOf(s1)) && SameSender(ViewOf(s1), ViewOf(s));
  }

  // Arriving segments

  /** Side s1 has processed part of an arriving segment and has sent nothing so far. */
  ghost predicate Good(m: Net, s1: Side, window: uint32) {
    && Established(s1.c, window)
    && Half(ViewOf(s1), ViewOf(m.b), m.ab, m.ba) && Half(ViewOf(m.b), ViewOf(s1), m.ba, m.ab)
  }

  lemma UnchangedKeeps(m: Net, s1: Side, window: uint32)
    requires SaneWindow(window) && Established(m.b.c, window) && Good(m, s1, window)
    ensures Inv(Settle(m, s1), window)
  {
    hide Half, OutOk;
    SettleKeeps(m, s1, window);
  }

  lemma ReplyAckKeeps(m: Net, s1: Side, s2: Side, window: uint32)
    requires SaneWindow(window) && Established(m.b.c, window) && Good(m, s1, window)
    requires AckOnly(s1.c, s2.c) && s2.accepted == s1.accepted && s2.delivered == s1.delivered
    requires s2.c.out == [] || s2.c.out == [AckSegment(s1.c)] || s2.c.out == [EackSegment(s1.c)]
    ensures Inv(Settle(m, s2), window)
  {
    hide Half, OutOk;
    AckOk(m, s1.c, ViewOf(s1), window);
    ReplyKeeps(m, s1, s2, window);
  }

  lemma OutOfOrderKeeps(m: Net, s1: Side, x: Tagged, cfg: Config, env: Env, window: uint32)
    requires SaneWindow(window) && Established(m.b.c, window) && Good(m, s1, window)
    requires DataSegOk(ViewOf(m.b), x) && !x.seg.syn && !x.seg.eak && x.seg.body != [] && Young(s1, x)
    requires 2 <= Off(x.seg.seqNr, s1.c.rdp.rcvCur) <= 2 * window
    ensures Inv(Settle(m, s1.(c := NewOutOfOrder(s1.c, x.seg, cfg, env))), window)
  {
    hide U16, Half, RxAdd, DataSegOk, CheckAck, SendEack;
    var c2 := s1.c.(rdp := s1.c.rdp.(rx := RxAdd(s1.c.rdp.rx, x.seg, cfg).1));
    var s2 := s1.(c := c2);
    QueueKeeps(ViewOf(m.b), ViewOf(s1), ViewOf(s2), x, cfg, m.ba, m.ab);
    HalfDepends(ViewOf(s1), ViewOf(s2), ViewOf(m.b), ViewOf(m.b), m.ab, m.ba);
    AcksTouchLittle(c2, cfg, env);
    ReplyAckKeeps(m, s2, s1.(c := NewOutOfOrder(s1.c, x.seg, cfg, env)), window);
  }

  /** The acknowledgement of a segment in sequence leaves before the flush. */
  lemma InOrderOut(c: Conn, seg: Segment, cfg: Config, env: Env)
    requires |c.rxq| < cfg.queueLength
    ensures var out := NewInOrder(c, seg, cfg, env).out;
            out == c.out || out == c.out + [Segment(false, true, false, false, c.rdp.sndNxt, seg.seqNr, [])]
  {
    hide Flush;
    AcksTouchLittle(c.(rxq := c.rxq + [Data(seg.body)], rdp := c.rdp.(rcvCur := seg.seqNr)), cfg, env);
  }

  lemma AppendedRun(q: seq<Item>, body: Payload, run: seq<Segment>)
    ensures Appended(q, q + [Data(body)] + Bodies(run)) == [body] + RunPayloads(run)
  {
    var q' := q + [Data(body)] + Bodies(run);
    assert q <= q';
    assert q'[|q|..] == [Data(body)] + Bodies(run);
  }

  lemma InOrderKeeps(m: Net, s1: Side, x: Tagged, cfg: Config, env: Env, window: uint32)
    requires SaneWindow(window) && Established(m.b.c, window) && Good(m, s1, window)
    requires DataSegOk(ViewOf(m.b), x) && !x.seg.syn && !x.seg.eak && x.seg.body != [] && Young(s1, x)
    requires Off(x.seg.seqNr, s1.c.rdp.rcvCur) == 1
    requires |s1.c.rxq| < cfg.queueLength && |s1.c.rxq| + 1 + |Run(s1.c.rdp.rx, x.seg.seqNr)| <= cfg.queueLength
    ensures var c2 := NewInOrder(s1.c, x.seg, cfg, env);
            Inv(Settle(m, Side(c2, s1.accepted, s1.delivered + Appended(s1.c.rxq, c2.rxq), false)), window)
  {
    hide U16, Half, DataSegOk, NewInOrder, Run, Flush, OutOk, Bodies, Appended;
    var v, w := ViewOf(s1), ViewOf(m.b);
    var f0 := Flushed(s1.c.rdp.rx, x.seg.seqNr, s1.c.rxq + [Data(x.seg.body)]);
    var f, run := Flush(f0, cfg), Run(f0.rx, f0.rcvCur);
    InOrderShape(s1.c, x.seg, cfg, env);
    InOrderOut(s1.c, x.seg, cfg, env);
    FlushFits(f0, run, cfg);
    AppendedRun(s1.c.rxq, x.seg.body, run);
    HalfMeans(w, v, m.ba, m.ab);
    InOrderIndex(w, v, x, window);
    FlushTakesOut(f0, cfg);
    AdvanceWindow(w, v, x.seg.seqNr, f0, window, cfg);
    var s2 := Side(s1.c.(rxq := f.rxq, rdp := s1.c.rdp.(rx := f.rx, rcvCur := f.rcvCur)), s1.accepted,
                   s1.delivered + [x.seg.body] + RunPayloads(run), false);
    DeliverKeeps(w, v, ViewOf(s2), x, f, run, m.ba, m.ab);
    HalfDepends(v, ViewOf(s2), w, w, m.ab, m.ba);
    var c3 := NewInOrder(s1.c, x.seg, cfg, env);
    var s3 := Side(c3, s1.accepted, s1.delivered + Appended(s1.c.rxq, c3.rxq), false);
    assert s3.delivered == s2.delivered;
    InOrderOutOk(m, v, s2, x, run, window);
    ReplyKeeps(m, s2, s3, window);
  }

  lemma FlushFits(f0: Flushed, run: seq<Segment>, cfg: Config)
    requires run == Run(f0.rx, f0.rcvCur) && |f0.rxq| + |run| <= cfg.queueLength
    ensures Flush(f0, cfg).rxq == f0.rxq + Bodies(run)
  {
    hide Run, Flush;
    FlushIsExact(f0, cfg);
    assert Bodies(run)[..|run|] == Bodies(run);
  }

  lemma InOrderIndex(s: View, r: View, x: Tagged, window: int)
    requires Counters(s, r) && DataSegOk(s, x) && !x.seg.syn && window == s.rdp.opt.window && 1 <= window &&
             2 * window < 0x8000
    requires |r.delivered| - x.k < 0x8000 && Off(x.seg.seqNr, r.rdp.rcvCur) == 1
    ensures x.k == |r.delivered|
  {
    hide U16;
    ArrivalIndex(s, r, x, window);
  }

  lemma AdvanceWindow(s: View, r: View, seqNr: uint16, f0: Flushed, window: int, cfg: Config)
    requires RxView(s, r) && window == s.rdp.opt.window && 1 <= window && 2 * window < 0x8000
    requires Off(seqNr, r.rdp.rcvCur) == 1 && f0.rx == r.rdp.rx && f0.rcvCur == seqNr
    ensures Distinct(Flush(f0, cfg).rx) && InWindow(Flush(f0, cfg).rx, Flush(f0, cfg).rcvCur, 2, window)
    ensures |f0.rx| <= 0x8000
  {
    hide U16, Flush, RxElemOk;
    OffNext(seqNr, r.rdp.rcvCur);
    forall e | e in f0.rx ensures 1 <= Off(e.seqNr, seqNr) <= 2 * window {
      OffNext(e.seqNr, r.rdp.rcvCur);
    }
    FlushKeepsDistinct(f0, window, cfg);
    Pigeonhole(r.rdp.rx, r.rdp.rcvCur, 2 * window);
  }

  lemma InOrderOutOk(m: Net, v: View, s2: Side, x: Tagged, run: seq<Segment>, window: uint32)
    requires Half(ViewOf(s2), ViewOf(m.b), m.ab, m.ba) && Half(ViewOf(m.b), ViewOf(s2), m.ba, m.ab)
    requires DataSegOk(ViewOf(m.b), x) && !x.seg.syn && x.k == |v.delivered|
    requires |s2.delivered| == |v.delivered| + 1 + |run| && |run| <= 0x8000
    ensures OutOk(ViewOf(s2), ViewOf(m.b), Segment(false, true, false, false, s2.c.rdp.sndNxt, x.seg.seqNr, []))
  {
    hide U16, OutOk, TxOk, DataOk, AcksOk, Prefix, NothingLost, RxView;
    ControlOk(ViewOf(s2), ViewOf(m.b), Segment(false, true, false, false, s2.c.rdp.sndNxt, x.seg.seqNr, []),
      |v.delivered| + 1);
  }

  /** A segment that passed both window tests, from storing its acknowledgement on. */
  lemma AckedKeeps(m: Net, x: Tagged, cfg: Config, env: Env, window: uint32)
    requires Inv(m, window) && TxFresh(ViewOf(m.a)) && x in m.ba && Young(m.a, x) && RoomFor(m.a.c, x.seg, cfg)
    requires Plain(x.seg) && 1 <= Off(x.seg.seqNr, m.a.c.rdp.rcvCur) <= 2 * window
    ensures var c2 := NewAcked(m.a.c, x.seg, cfg, env);
            Inv(Settle(m, Side(c2, m.a.accepted, m.a.delivered + Appended(m.a.c.rxq, c2.rxq), false)), window)
  {
    hide U16, Half, DataSegOk, AckSegOk, Run, NewOutOfOrder, NewInOrder, Words16, TxFresh, FlushEack;
    var v, w := ViewOf(m.a), ViewOf(m.b);
    HalfMeans(w, v, m.ba, m.ab);
    HalfMeans(v, w, m.ab, m.ba);
    var c1 := m.a.c.(rdp := m.a.c.rdp.(sndUna := U16(x.seg.ackNr + 1)));
    var s1 := m.a.(c := c1, checked := false);
    StoreAckKeeps(v, ViewOf(s1), w, x, m.ab, m.ba);
    HalfDepends(w, w, v, ViewOf(s1), m.ba, m.ab);
    AppendedNothing(m.a.c.rxq);
    assert m.a.delivered + [] == m.a.delivered;
    if x.seg.eak && |x.seg.body| > 0 {
      var tx := FlushEack(c1.rdp.tx, Words16(x.seg.body), c1.rdp.opt.packetTimeout, env.now);
      var s2 := s1.(c := c1.(rdp := c1.rdp.(tx := tx)));
      AckSegStable(v, w, ViewOf(s1), w, x);
      EackKeeps(ViewOf(s1), ViewOf(s2), w, x, env.now, m.ab, m.ba);
      HalfDepends(w, w, ViewOf(s1), ViewOf(s2), m.ba, m.ab);
      UnchangedKeeps(m, s2, window);
    } else if x.seg.eak || |x.seg.body| == 0 {
      UnchangedKeeps(m, s1, window);
    } else {
      OffNext(x.seg.seqNr, c1.rdp.rcvCur);
      if Off(x.seg.seqNr, c1.rdp.rcvCur) != 1 {
        OutOfOrderKeeps(m, s1, x, cfg, env, window);
        OutOfOrderShape(c1, x.seg, cfg, env);
        assert m.a.delivered + [] == m.a.delivered;
      } else if |c1.rxq| < cfg.queueLength {
        InOrderKeeps(m, s1, x, cfg, env, window);
      } else {
        FullQueueRefuses(c1, x.seg, cfg, env);
        UnchangedKeeps(m, s1, window);
      }
    }
  }

  lemma FullQueueRefuses(c: Conn, seg: Segment, cfg: Config, env: Env)
    requires |c.rxq| >= cfg.queueLength
    ensures NewInOrder(c, seg, cfg, env) == c
  {
  }

  lemma AppendedNothing(q: seq<Item>)
    ensures Appended(q, q) == []
  {
  }

  lemma ArriveKeeps(m: Net, x: Tagged, cfg: Config, env: Env, window: uint32)
    requires Inv(m, window) && TxFresh(ViewOf(m.a)) && x in m.ba && Young(m.a, x) && RoomFor(m.a.c, x.seg, cfg)
    ensures Inv(Settle(m, ArriveSide(m.a, x.seg, cfg, env)), window)
  {
    hide U16, Half, NewAcked, SendEack, AckInRange, SeqBetween, RoomFor, TxFresh;
    var c, seg, s := m.a.c, x.seg, m.a.(checked := false);
    HalfMeans(ViewOf(m.b), ViewOf(m.a), m.ba, m.ab);
    assert DataSegOk(ViewOf(m.b), x);
    AppendedNothing(c.rxq);
    SaneWindowOffset(seg.seqNr, c.rdp.rcvCur, window);
    assert m.a.delivered + [] == m.a.delivered;
    if seg.syn {
      assert Handshake(ViewOf(m.b), seg) && seg.seqNr == c.rdp.rcvIrs;
      assert ArriveSide(m.a, seg, cfg, env) == s;
      UnchangedKeeps(m, s, window);
    } else if !(1 <= Off(seg.seqNr, c.rdp.rcvCur) <= 2 * window) {
      AcksTouchLittle(c, cfg, env);
      ReplyAckKeeps(m, s, s.(c := SendEack(c, cfg, env)), window);
    } else if !AckInRange(c, seg) {
      UnchangedKeeps(m, s, window);
    } else {
      AckedKeeps(m, x, cfg, env, window);
    }
  }

  // Runs

  /** Every step of an endpoint keeps the invariant of both directions. */
  lemma StepKeeps(n: Net, act: Action, cfg: Config, env: Env, window: uint32)
    requires Inv(n, window) && Swept(n) && Enabled(n, act, cfg)
    ensures Inv(Step(n, act, cfg, env), window) && Swept(Step(n, act, cfg, env))
  {
    hide Inv, Young, RoomFor, CheckTimeouts, Send, Read, NewPacket, Emitted, TxFresh;
    match act
    case SendPayload(p) => SendKeeps(n, p, cfg, env, window);
    case ReadPacket => ReadKeeps(n, cfg, env, window);
    case Check => CheckKeeps(n, cfg, env, window);
    case Arrive(x) => ArriveKeeps(n, x, cfg, env, window);
  }

  lemma FlipKeeps(n: Net, window: uint32)
    ensures Inv(Flip(n), window) <==> Inv(n, window)
    ensures Swept(Flip(n)) <==> Swept(n)
  {
    hide Half, TxFresh;
  }

  lemma NextKeeps(n: Net, n': Net, window: uint32, ca: Config, cb: Config)
    requires Inv(n, window) && Swept(n) && Next(n, n', ca, cb)
    ensures Inv(n', window) && Swept(n')
  {
    hide Inv, Swept, Enabled, Step;
    var act, env :|
      || (Enabled(n, act, ca) && n' == Step(n, act, ca, env))
      || (Enabled(Flip(n), act, cb) && n' == Flip(Step(Flip(n), act, cb, env)));
    if Enabled(n, act, ca) && n' == Step(n, act, ca, env) {
      StepKeeps(n, act, ca, env, window);
    } else {
      FlipKeeps(n, window);
      StepKeeps(Flip(n), act, cb, env, window);
      FlipKeeps(Step(Flip(n), act, cb, env), window);
    }
  }

  lemma {:induction false} RunKeeps(run: seq<Net>, i: nat, window: uint32, ca: Config, cb: Config)
    requires i < |run| && Inv(run[0], window) && Swept(run[0]) && IsRun(run, ca, cb)
    ensures Inv(run[i], window) && Swept(run[i])
  {
    hide Inv, Swept, Next;
    if i > 0 {
      RunKeeps(run, i - 1, window, ca, cb);
      assert Next(run[i - 1], run[i - 1 + 1], ca, cb);
      NextKeeps(run[i - 1], run[i], window, ca, cb);
    }
  }

  // Starting points

  /**
   A matched pair: both ends are open, agree on numbers and window, and have exchanged no data.  The
   retransmission queues may still hold the SYN, and the channels any segments of the handshake.
   */
  ghost predicate MatchedSide(s: Side, r: Side, data: set<Tagged>, window: uint32) {
    && Established(s.c, window) && !s.checked
    && s.accepted == [] && s.delivered == [] && s.c.rdp.rx == []
    && s.c.rdp.sndNxt == U16(s.c.rdp.sndIss + 1) && s.c.rdp.sndUna == U16(s.c.rdp.sndIss + 1)
    && s.c.rdp.rcvCur == r.c.rdp.sndIss && s.c.rdp.rcvIrs == r.c.rdp.sndIss
    && (forall e | e in s.c.rdp.tx :: e.seg.seqNr == s.c.rdp.sndIss)
    && (forall x | x in data ::
          || Handshake(ViewOf(s), x.seg)
          || x == Tagged(Segment(false, true, false, false, s.c.rdp.sndNxt, r.c.rdp.sndIss, []), 0, 0))
  }

  ghost predicate Matched(n: Net, window: uint32) {
    && SaneWindow(window)
    && MatchedSide(n.a, n.b, n.ab, window)
    && MatchedSide(n.b, n.a, n.ba, window)
  }

  lemma MatchedHalf(s: Side, r: Side, data: set<Tagged>, acks: set<Tagged>, window: uint32)
    requires MatchedSide(s, r, data, window) && MatchedSide(r, s, acks, window)
    ensures Half(ViewOf(s), ViewOf(r), data, acks)
  {
    var v := ViewOf(s);
    NumberIsIndex(v.rdp.sndIss + 1, 0, 0);
    forall e | e in v.rdp.tx ensures TxElemOk(v, e) {
      NumberIsIndex(v.rdp.sndIss + 1, 0, -1);
    }
    assert U16(v.rdp.sndIss) == v.rdp.sndIss;
  }

  lemma MatchedIsInv(n: Net, window: uint32)
    requires Matched(n, window)
    ensures Inv(n, window) && Swept(n)
  {
    MatchedHalf(n.a, n.b, n.ab, n.ba, window);
    MatchedHalf(n.b, n.a, n.ba, n.ab, window);
  }

  /** A state that two matched ends, each with its own settings, can get to. */
  ghost predicate Reachable(n: Net, window: uint32, ca: Config, cb: Config) {
    exists run: seq<Net> :: |run| > 0 && Matched(run[0], window) && IsRun(run, ca, cb) && n == run[|run| - 1]
  }

  lemma ReachableIsInv(n: Net, window: uint32, ca: Config, cb: Config)
    requires Reachable(n, window, ca, cb)
    ensures Inv(n, window) && Swept(n)
  {
    hide Inv, Swept, Matched, Next;
    var run: seq<Net> :| |run| > 0 && Matched(run[0], window) && IsRun(run, ca, cb) && n == run[|run| - 1];
    MatchedIsInv(run[0], window);
    RunKeeps(run, |run| - 1, window, ca, cb);
  }

  // The theorems

  /** In every reachable state, each receiver has delivered a prefix of what the peer accepted. */
  lemma DeliveredIsPrefix(n: Net, window: uint32, ca: Config, cb: Config)
    requires Reachable(n, window, ca, cb)
    ensures n.b.delivered <= n.a.accepted
    ensures n.a.delivered <= n.b.accepted
  {
    hide Reachable;
    ReachableIsInv(n, window, ca, cb);
  }

  /** Payload k waits, under its own number and unchanged, in the sender's retransmission queue. */
  ghost predicate InSender(s: Side, k: nat)
    requires k < |s.accepted|
  {
    exists e :: e in s.c.rdp.tx && e.seg.seqNr == U16(s.c.rdp.sndIss + 1 + k) && e.seg.body == s.accepted[k]
  }

  /** Payload k waits, under its own number and unchanged, in the receiver's reorder queue. */
  ghost predicate InReceiver(s: Side, r: Side, k: nat)
    requires k < |s.accepted|
  {
    exists e :: e in r.c.rdp.rx && e.seqNr == U16(s.c.rdp.sndIss + 1 + k) && e.body == s.accepted[k]
  }

  /**
   * Whatever the sender accepted and the receiver has not delivered is at one of them, and the next one at the
   * sender.
   */
  ghost predicate KeepsAll(s: Side, r: Side) {
    && (forall k: nat | |r.delivered| <= k < |s.accepted| :: InSender(s, k) || InReceiver(s, r, k))
    && (|r.delivered| < |s.accepted| ==> InSender(s, |r.delivered|))
  }

  /**
   In every reachable state, each accepted payload that is not delivered yet is still held, under its own number, at
   one of the ends; the one to be delivered next is always ready to be sent again.
   */
  lemma NothingIsLost(n: Net, window: uint32, ca: Config, cb: Config)
    requires Reachable(n, window, ca, cb)
    ensures KeepsAll(n.a, n.b) && KeepsAll(n.b, n.a)
  {
    hide Reachable, KeepsAll, Half;
    ReachableIsInv(n, window, ca, cb);
    StillHeld(n.a, n.b, n.ab, n.ba, window);
    StillHeld(n.b, n.a, n.ba, n.ab, window);
  }

  lemma StillHeld(s: Side, r: Side, data: set<Tagged>, acks: set<Tagged>, window: int)
    requires Half(ViewOf(s), ViewOf(r), data, acks) && s.c.rdp.opt.window == window && SaneWindow(window)
    ensures KeepsAll(s, r)
  {
    hide U16, InSender, InReceiver, Half;
    var v, w := ViewOf(s), ViewOf(r);
    HalfMeans(v, w, data, acks);
    hide TxOk, RxView, DataOk, AcksOk, Prefix, Counters;
    forall k: nat | |r.delivered| <= k < |s.accepted| ensures InSender(s, k) || InReceiver(s, r, k) {
      assert InTx(v, k) || InRx(v, w, k);
      if InTx(v, k) {
        InTxHolds(s, w, k, window);
      } else {
        InRxHolds(s, r, k, window);
      }
    }
    if |r.delivered| < |s.accepted| {
      NextIsNotQueued(v, w, window);
      assert InTx(v, |w.delivered|);
      InTxHolds(s, w, |r.delivered|, window);
    }
  }

  /** The reorder queue never holds the payload to be delivered next. */
  lemma NextIsNotQueued(s: View, r: View, window: int)
    requires Counters(s, r) && RxView(s, r) && s.rdp.opt.window == window && SaneWindow(window)
    ensures !InRx(s, r, |r.delivered|)
  {
    hide U16, RxElemOk;
    var d := |r.delivered|;
    forall e | e in r.rdp.rx ensures e.seqNr != Wire(s, d) {
      RxWire(s, r, e);
      WireEqual(s, RxIndex(r, e), d);
    }
  }

  lemma InTxHolds(s: Side, r: View, k: nat, window: int)
    requires Counters(ViewOf(s), r) && TxOk(ViewOf(s)) && s.c.rdp.opt.window == window && SaneWindow(window)
    requires |r.delivered| <= k < |s.accepted| && InTx(ViewOf(s), k)
    ensures InSender(s, k)
  {
    hide U16;
    var v := ViewOf(s);
    var e :| e in v.rdp.tx && e.seg.seqNr == Wire(v, k);
    assert TxElemOk(v, e);
    TxWire(v, e);
    WireEqual(v, TxIndex(v, e), k);
  }

  lemma InRxHolds(s: Side, r: Side, k: nat, window: int)
    requires Counters(ViewOf(s), ViewOf(r)) && RxView(ViewOf(s), ViewOf(r))
    requires s.c.rdp.opt.window == window && SaneWindow(window)
    requires |r.delivered| <= k < |s.accepted| && InRx(ViewOf(s), ViewOf(r), k)
    ensures InReceiver(s, r, k)
  {
    hide U16;
    var v, w := ViewOf(s), ViewOf(r);
    var e :| e in w.rdp.rx && e.seqNr == Wire(v, k);
    assert RxElemOk(v, w, e);
    RxWire(v, w, e);
    WireEqual(v, RxIndex(w, e), k);
  }

  /** The last number s issued is at most the window ahead of r's rcv_cur, and the wire shows the true distance. */
  ghost predicate FlowOk(s: Side, r: Side, window: int) {
    && |s.accepted| <= |r.delivered| + window
    && U16(s.c.rdp.sndNxt - 1 - r.c.rdp.rcvCur) == |s.accepted| - |r.delivered|
  }

  /** In every reachable state, flow is bounded in both directions, however often the counters wrap. */
  lemma FlowIsBounded(n: Net, window: uint32, ca: Config, cb: Config)
    requires Reachable(n, window, ca, cb)
    ensures FlowOk(n.a, n.b, window) && FlowOk(n.b, n.a, window)
  {
    hide Reachable, FlowOk;
    ReachableIsInv(n, window, ca, cb);
    FlowIsOk(n.a, n.b, window);
    FlowIsOk(n.b, n.a, window);
  }

  lemma FlowIsOk(s: Side, r: Side, window: int)
    requires Counters(ViewOf(s), ViewOf(r)) && s.c.rdp.opt.window == window && SaneWindow(window)
    ensures FlowOk(s, r, window)
  {
    WireDistance(s.c.rdp.sndIss + 1, |s.accepted|, |r.delivered|);
  }

  lemma WireDistance(base: int, n: int, d: int)
    requires 0 <= n - d < 0x1_0000
    ensures U16(U16(base + n) - 1 - U16(base + d - 1)) == n - d
  {
    SubMod(base + n, base + d);
    SubMod(base + n - 1, base + d - 1);
    AddMod(base + n, -1 - U16(base + d - 1));
    AddMod(base + n - 1, -(U16(base + d - 1) as int));
  }

  /** An empty payload is taken for a bare acknowledgement: nothing from it on is delivered. */
  ghost predicate Blocked(s: Side, r: Side) {
    forall k | 0 <= k < |s.accepted| && s.accepted[k] == [] :: |r.delivered| <= k
  }

  /**
   * In every reachable state, once an empty payload is accepted, neither it nor anything behind it has been
   * delivered.
   */
  lemma EmptyPayloadBlocks(n: Net, window: uint32, ca: Config, cb: Config)
    requires Reachable(n, window, ca, cb)
    ensures Blocked(n.a, n.b) && Blocked(n.b, n.a)
  {
    hide Reachable;
    ReachableIsInv(n, window, ca, cb);
    DeliveredIsNotEmpty(n.a, n.b);
    DeliveredIsNotEmpty(n.b, n.a);
  }

  lemma DeliveredIsNotEmpty(s: Side, r: Side)
    requires Prefix(ViewOf(s), ViewOf(r))
    ensures Blocked(s, r)
  {
    forall k | 0 <= k < |r.delivered| ensures s.accepted[k] != [] {
      assert r.delivered[k] in r.delivered;
    }
  }
}
