/** When delivery can go on: exactly when the next payload is not empty and it and its run fit the application queue. */
module RdpProgress {
  import opened Words
  import opened RdpSpec
  import opened RdpQueues
  import opened RdpNetwork
  import opened RdpDelivery
  import opened RdpRuns

  // Runs as steps in a row

  ghost predicate Leads(run: seq<Net>, n: Net, m: Net, ca: Config, cb: Config) {
    |run| > 0 && run[0] == n && run[|run| - 1] == m && IsRun(run, ca, cb)
  }

  /** Some run leads from n to m. */
  ghost predicate Reaches(n: Net, m: Net, ca: Config, cb: Config) {
    exists run: seq<Net> :: Leads(run, n, m, ca, cb)
  }

  lemma ReachesItself(n: Net, ca: Config, cb: Config)
    ensures Reaches(n, n, ca, cb)
  {
    assert Leads([n], n, n, ca, cb);
  }

  lemma ReachesNext(n: Net, m: Net, m': Net, ca: Config, cb: Config)
    requires Reaches(n, m, ca, cb) && Next(m, m', ca, cb)
    ensures Reaches(n, m', ca, cb)
  {
    hide Next;
    var run: seq<Net> :| Leads(run, n, m, ca, cb);
    assert Leads(run + [m'], n, m', ca, cb);
  }

  lemma NextOfA(n: Net, act: Action, ca: Config, cb: Config, env: Env)
    requires Enabled(n, act, ca)
    ensures Next(n, Step(n, act, ca, env), ca, cb)
  {
    hide Enabled, Step;
  }

  lemma NextOfB(n: Net, act: Action, ca: Config, cb: Config, env: Env)
    requires Enabled(Flip(n), act, cb)
    ensures Next(n, Flip(Step(Flip(n), act, cb, env)), ca, cb)
  {
    hide Enabled, Step;
  }

  // The receiver empties its application queue

  /** b is as it was for the direction from a to b, except for what it has read. */
  ghost predicate SameFlow(n: Net, m: Net) {
    && m.a == n.a && n.ab <= m.ab
    && m.b.accepted == n.b.accepted && m.b.delivered == n.b.delivered
    && m.b.c.rdp.rx == n.b.c.rdp.rx && m.b.c.rdp.rcvCur == n.b.c.rdp.rcvCur
  }

  lemma ReadOnce(n: Net, cb: Config, env: Env, window: uint32)
    requires Inv(n, window) && n.b.c.rxq != []
    ensures var m := Flip(Step(Flip(n), ReadPacket, cb, env));
            SameFlow(n, m) && m.b.c.rxq == n.b.c.rxq[1..]
  {
    hide Half, CheckAck;
    AcksTouchLittle(n.b.c.(rxq := n.b.c.rxq[1..]), cb, env);
  }

  lemma {:induction false} Drain(n: Net, ca: Config, cb: Config, env: Env, window: uint32) returns (m: Net)
    requires Inv(n, window) && Swept(n)
    ensures Reaches(n, m, ca, cb) && Inv(m, window) && Swept(m) && SameFlow(n, m) && m.b.c.rxq == []
    decreases |n.b.c.rxq|
  {
    hide Half, Step, TxFresh;
    if n.b.c.rxq == [] {
      m := n;
      ReachesItself(n, ca, cb);
    } else {
      var n1 := Flip(Step(Flip(n), ReadPacket, cb, env));
      NextOfB(n, ReadPacket, ca, cb, env);
      ReadOnce(n, cb, env, window);
      NextKeeps(n, n1, window, ca, cb);
      m := Drain(n1, ca, cb, env, window);
      ReachesBefore(n, n1, m, ca, cb);
    }
  }

  lemma ReachesBefore(n: Net, n1: Net, m: Net, ca: Config, cb: Config)
    requires Next(n, n1, ca, cb) && Reaches(n1, m, ca, cb)
    ensures Reaches(n, m, ca, cb)
  {
    hide Next;
    var run: seq<Net> :| Leads(run, n1, m, ca, cb);
    var longer := [n] + run;
    forall i | 0 <= i < |longer| - 1 ensures Next(longer[i], longer[i + 1], ca, cb) {
      if i > 0 {
        assert Next(run[i - 1], run[i - 1 + 1], ca, cb);
      }
    }
    assert Leads(longer, n, m, ca, cb);
  }

  lemma CheckOfB(n: Net, cb: Config, env: Env, window: uint32)
    requires Inv(n, window)
    ensures var m := Flip(Step(Flip(n), Check, cb, env));
            SameFlow(n, m) && m.b.c.rxq == n.b.c.rxq && m.b.checked
  {
    hide Half, CheckTimeouts, SweepTx, SweepOut;
    CheckShape(n.b.c, cb, env);
  }

  // The sender sends the next payload again

  lemma {:induction false} SweepSends(tx: seq<TxElem>, r: Rdp, now: uint32, e: TxElem)
    requires e in tx && !SeqBefore(e.seg.seqNr, r.sndUna) && Expired(e, r.opt.packetTimeout, now)
    ensures e.seg.(ackNr := r.rcvCur) in SweepOut(tx, r, now)
  {
    hide SeqBefore, Expired;
    var last, init := tx[|tx| - 1], tx[..|tx| - 1];
    assert tx == init + [last];
    if e in init {
      SweepSends(init, r, now, e);
    }
  }

  /** Every element expires at some time. */
  lemma ExpiresSomeTime(e: TxElem, packetTimeout: uint32)
    ensures Expired(e, packetTimeout, U32(e.timestamp + packetTimeout + 1))
  {
  }

  /** An element for the next payload, not acknowledged. */
  lemma NextElem(s: View, r: View, window: int) returns (e: TxElem)
    requires Counters(s, r) && TxOk(s) && RxView(s, r) && NothingLost(s, r)
    requires s.rdp.opt.window == window && SaneWindow(window) && |r.delivered| < |s.accepted|
    ensures e in s.rdp.tx && e.seg.seqNr == Wire(s, |r.delivered|) && !SeqBefore(e.seg.seqNr, s.rdp.sndUna)
    ensures Plain(e.seg) && !e.seg.eak && e.seg.body == s.accepted[|r.delivered|]
  {
    hide U16, SeqBefore;
    var d := |r.delivered|;
    NextIsNotQueued(s, r, window);
    assert InTx(s, d);
    e :| e in s.rdp.tx && e.seg.seqNr == Wire(s, d);
    assert TxElemOk(s, e);
    TxWire(s, e);
    WireEqual(s, TxIndex(s, e), d);
    SweptIsAcked(s, r, e);
  }

  /** The segment in the channel after the check, with its unbounded numbers. */
  function Resent(n: Net, body: Payload): Tagged {
    var d := |n.b.delivered|;
    Tagged(Segment(false, true, false, false, U16(n.a.c.rdp.sndIss + 1 + d), n.a.c.rdp.rcvCur, body), d,
      |n.a.delivered|)
  }

  lemma SendAgain(n: Net, ca: Config, env: Env, window: uint32, e: TxElem)
    requires Inv(n, window) && |n.b.delivered| < |n.a.accepted|
    requires e in n.a.c.rdp.tx && e.seg.seqNr == Wire(ViewOf(n.a), |n.b.delivered|)
    requires !SeqBefore(e.seg.seqNr, n.a.c.rdp.sndUna)
    requires Plain(e.seg) && !e.seg.eak && e.seg.body == n.a.accepted[|n.b.delivered|]
    requires Expired(e, n.a.c.rdp.opt.packetTimeout, env.now)
    ensures var m := Step(n, Check, ca, env);
            && m.b == n.b && m.a.accepted == n.a.accepted && m.a.delivered == n.a.delivered
            && Resent(n, n.a.accepted[|n.b.delivered|]) in m.ab
  {
    hide U16, TxOk, RxView, DataOk, AcksOk, Prefix, NothingLost, CheckTimeouts, SweepTx, SweepOut, SeqBefore, Expired;
    var v, w, d := ViewOf(n.a), ViewOf(n.b), |n.b.delivered|;
    CheckShape(n.a.c, ca, env);
    SweepSends(n.a.c.rdp.tx, n.a.c.rdp, env.now, e);
    var s := CheckSide(n.a, ca, env);
    var seg := e.seg.(ackNr := n.a.c.rdp.rcvCur);
    assert seg in s.c.out;
    TagIsTrue(ViewOf(s), w, seg, d, |n.a.delivered|);
    assert TagOf(ViewOf(s), seg) in Emitted(s);
  }

  // The receiver takes it

  lemma ModTwice(x: int)
    ensures U16(U16(x)) == U16(x)
  {
  }

  lemma NumbersInRange(base: int, u: int, a: int, n: int, window: int)
    requires 0 <= u <= a <= n && n - u < 0x8000 && 1 <= window && 2 * window < 0x8000
    ensures SeqBetween(U16(base + a - 1), U16(base + u) - 1 - window * 2, U16(base + n) - 1)
  {
    ModTwice(base + a - 1);
    AddMod(base + u, -1 - window * 2);
    AddMod(base + n, -1);
    BetweenIsInterval(base + a - 1, base + u - 1 - window * 2, base + n - 1);
    hide U16, SeqBetween;
    BetweenMod(U16(base + a - 1), base + a - 1, U16(base + u) - 1 - window * 2, base + u - 1 - window * 2,
               U16(base + n) - 1, base + n - 1);
  }

  /** An up-to-date acknowledgement passes the acknowledgement test. */
  lemma AckPasses(r: View, s: View, c: Conn, seg: Segment, window: int)
    requires Counters(r, s) && r.rdp == c.rdp && r.rdp.opt.window == window && SaneWindow(window)
    requires Counters(s, r) && seg.ackNr == s.rdp.rcvCur
    ensures AckInRange(c, seg)
  {
    hide U16, SeqBetween;
    UnaWire(r);
    NumbersInRange(r.rdp.sndIss + 1, Una(r), |s.delivered|, |r.accepted|, window);
  }

  /** What a run can hold: everything up to the window has been accepted only once. */
  lemma RunIsShort(s: View, r: View, cfg: Config, window: int)
    requires Counters(s, r) && RxView(s, r) && s.rdp.opt.window == window && SaneWindow(window)
    requires |r.delivered| < |s.accepted|
    ensures 1 + |Run(r.rdp.rx, Wire(s, |r.delivered|))| <= window
  {
    hide U16, Run, Flush, RxElemOk;
    var cur := Wire(s, |r.delivered|);
    var f := Flushed(r.rdp.rx, cur, []);
    var run := Run(f.rx, cur);
    FlushTakesOut(f, cfg);
    Pigeonhole(r.rdp.rx, r.rdp.rcvCur, 2 * window);
    if |run| > 0 {
      assert run[|run| - 1].seqNr == U16(cur + 1 + (|run| - 1));
      RunElem(s, r, cur, r.rdp.rx, run, |run| - 1);
    }
  }

  /** An expected data segment with a good acknowledgement gets to the delivery. */
  lemma ExpectedGetsThrough(c: Conn, seg: Segment, cfg: Config, env: Env)
    requires c.rdp.state == Open && Plain(seg) && !seg.eak && seg.body != [] && AckInRange(c, seg)
    requires seg.seqNr == U16(c.rdp.rcvCur + 1) && SaneWindow(c.rdp.opt.window)
    ensures NewPacket(c, seg, cfg, env)
         == (NewInOrder(c.(rdp := c.rdp.(sndUna := U16(seg.ackNr + 1))), seg, cfg, env), false)
  {
    SaneWindowOffset(seg.seqNr, c.rdp.rcvCur, c.rdp.opt.window);
    OffNext(seg.seqNr, c.rdp.rcvCur);
    hide U16, SeqBetween, AckInRange, Off, NewInOrder;
  }

  lemma TakeNext(c: Conn, seg: Segment, cfg: Config, env: Env)
    requires c.rdp.state == Open && Plain(seg) && !seg.eak && seg.body != [] && AckInRange(c, seg)
    requires seg.seqNr == U16(c.rdp.rcvCur + 1) && SaneWindow(c.rdp.opt.window)
    requires c.rxq == [] && 1 + |Run(c.rdp.rx, seg.seqNr)| <= cfg.queueLength
    ensures var (c', close) := NewPacket(c, seg, cfg, env);
            !close && c'.rxq == [Data(seg.body)] + Bodies(Run(c.rdp.rx, seg.seqNr))
  {
    hide U16, SeqBetween, AckInRange, Run, Flush, NewInOrder, NewPacket, Bodies;
    ExpectedGetsThrough(c, seg, cfg, env);
    var c1 := c.(rdp := c.rdp.(sndUna := U16(seg.ackNr + 1)));
    InOrderShape(c1, seg, cfg, env);
    FlushFits(Flushed(c1.rdp.rx, seg.seqNr, [Data(seg.body)]), Run(c1.rdp.rx, seg.seqNr), cfg);
    assert c1.rxq + [Data(seg.body)] == [Data(seg.body)];
  }

  /** The application queue, once it is read empty, has places for the next payload and the run it completes. */
  predicate HasRoom(c: Conn, cfg: Config) {
    1 + |Run(c.rdp.rx, U16(c.rdp.rcvCur + 1))| <= cfg.queueLength
  }

  /** A queue that holds a window always has. */
  lemma WindowIsRoom(n: Net, window: uint32, cb: Config)
    requires Inv(n, window) && |n.b.delivered| < |n.a.accepted| && window <= cb.queueLength
    ensures HasRoom(n.b.c, cb)
  {
    hide U16, Half, Run;
    var v, w := ViewOf(n.a), ViewOf(n.b);
    HalfMeans(v, w, n.ab, n.ba);
    hide TxOk, RxView, DataOk, AcksOk, Prefix, NothingLost;
    RunIsShort(v, w, cb, window);
    AddMod(n.a.c.rdp.sndIss + 1 + |n.b.delivered| - 1, 1);
  }

  /** The next payload arrives at a receiver that has checked its timeouts and has nothing left to read. */
  lemma TakeArrival(n: Net, x: Tagged, ca: Config, cb: Config, env: Env, window: uint32)
    requires Inv(n, window) && Swept(n) && |n.b.delivered| < |n.a.accepted| && HasRoom(n.b.c, cb)
    requires n.b.checked && n.b.c.rxq == [] && x in n.ab && x == Resent(n, n.a.accepted[|n.b.delivered|])
    requires n.a.accepted[|n.b.delivered|] != []
    ensures var m := Flip(Step(Flip(n), Arrive(x), cb, env));
            Next(n, m, ca, cb) && |m.b.delivered| > |n.b.delivered|
  {
    hide U16, Half, NewPacket, Run, Flush, Bodies, AckInRange, TxFresh;
    var v, w := ViewOf(n.a), ViewOf(n.b);
    HalfMeans(v, w, n.ab, n.ba);
    HalfMeans(w, v, n.ba, n.ab);
    hide TxOk, RxView, DataOk, AcksOk, Prefix, NothingLost;
    AckPasses(w, v, n.b.c, x.seg, window);
    AddMod(n.a.c.rdp.sndIss + 1 + |n.b.delivered| - 1, 1);
    TakeNext(n.b.c, x.seg, cb, env);
    AppendedRun(n.b.c.rxq, x.seg.body, Run(n.b.c.rdp.rx, x.seg.seqNr));
    assert n.b.c.rxq + [Data(x.seg.body)] == [Data(x.seg.body)];
    NextOfB(n, Arrive(x), ca, cb, env);
  }

  // Exactly when delivery can go on

  /** Some run delivers more from a to b. */
  ghost predicate CanGrow(n: Net, ca: Config, cb: Config) {
    exists m :: Reaches(n, m, ca, cb) && |m.b.delivered| > |n.b.delivered|
  }

  /**
   The receiver reads what it has, both router tasks check their timeouts, the sender's when its element has
   expired, and the network delivers what the sender sends again.
   */
  lemma NonEmptyGoesOn(n: Net, window: uint32, ca: Config, cb: Config, env: Env)
    requires Inv(n, window) && Swept(n) && |n.b.delivered| < |n.a.accepted| && HasRoom(n.b.c, cb)
    requires n.a.accepted[|n.b.delivered|] != []
    ensures CanGrow(n, ca, cb)
  {
    hide Inv, Swept, Step, Next, Resent, SeqBefore, Expired, Run;
    var n1 := Drain(n, ca, cb, env, window);
    var n2 := Flip(Step(Flip(n1), Check, cb, env));
    NextOfB(n1, Check, ca, cb, env);
    CheckOfB(n1, cb, env, window);
    NextKeeps(n1, n2, window, ca, cb);
    ReachesNext(n, n1, n2, ca, cb);
    var e := InvNextElem(n2, window);
    var late := env.(now := U32(e.timestamp + n2.a.c.rdp.opt.packetTimeout + 1));
    ExpiresSomeTime(e, n2.a.c.rdp.opt.packetTimeout);
    var n3 := Step(n2, Check, ca, late);
    SendAgain(n2, ca, late, window, e);
    NextOfA(n2, Check, ca, cb, late);
    NextKeeps(n2, n3, window, ca, cb);
    ReachesNext(n, n2, n3, ca, cb);
    var x := Resent(n2, n2.a.accepted[|n2.b.delivered|]);
    SameNext(n2, n3, n2.a.accepted[|n2.b.delivered|], window);
    TakeArrival(n3, x, ca, cb, env, window);
    ReachesNext(n, n3, Flip(Step(Flip(n3), Arrive(x), cb, env)), ca, cb);
  }

  lemma InvNextElem(n: Net, window: uint32) returns (e: TxElem)
    requires Inv(n, window) && |n.b.delivered| < |n.a.accepted|
    ensures e in n.a.c.rdp.tx && e.seg.seqNr == Wire(ViewOf(n.a), |n.b.delivered|)
    ensures !SeqBefore(e.seg.seqNr, n.a.c.rdp.sndUna)
    ensures Plain(e.seg) && !e.seg.eak && e.seg.body == n.a.accepted[|n.b.delivered|]
  {
    hide U16, SeqBefore, Half;
    HalfMeans(ViewOf(n.a), ViewOf(n.b), n.ab, n.ba);
    hide TxOk, RxView, DataOk, AcksOk, Prefix, NothingLost, Counters;
    e := NextElem(ViewOf(n.a), ViewOf(n.b), window);
  }

  /** The numbers of the invariant do not move when the sender only sends again. */
  lemma SameNext(n: Net, m: Net, body: Payload, window: uint32)
    requires Inv(n, window) && Inv(m, window)
    requires m.b == n.b && m.a.delivered == n.a.delivered
    ensures Resent(m, body) == Resent(n, body)
  {
    hide U16, TxOk, RxView, DataOk, AcksOk, Prefix, NothingLost;
  }

  // What the sender has accepted stays accepted

  lemma AcceptedGrows(n: Net, m: Net, ca: Config, cb: Config)
    requires Next(n, m, ca, cb)
    ensures n.a.accepted <= m.a.accepted
  {
    hide Send, Read, CheckTimeouts, NewPacket, ConnClose;
  }

  lemma {:induction false} AcceptedGrowsInRun(run: seq<Net>, i: nat, ca: Config, cb: Config)
    requires IsRun(run, ca, cb) && i < |run|
    ensures run[0].a.accepted <= run[i].a.accepted
  {
    hide Next;
    if i > 0 {
      AcceptedGrowsInRun(run, i - 1, ca, cb);
      assert Next(run[i - 1], run[i - 1 + 1], ca, cb);
      AcceptedGrows(run[i - 1], run[i], ca, cb);
    }
  }

  lemma EmptyStops(n: Net, m: Net, window: uint32, ca: Config, cb: Config)
    requires Inv(n, window) && Swept(n) && |n.b.delivered| < |n.a.accepted|
    requires n.a.accepted[|n.b.delivered|] == [] && Reaches(n, m, ca, cb)
    ensures |m.b.delivered| <= |n.b.delivered|
  {
    hide Half, Next, TxFresh;
    var run: seq<Net> :| Leads(run, n, m, ca, cb);
    AcceptedGrowsInRun(run, |run| - 1, ca, cb);
    RunKeeps(run, |run| - 1, window, ca, cb);
    HalfMeans(ViewOf(m.a), ViewOf(m.b), m.ab, m.ba);
    DeliveredIsNotEmpty(m.a, m.b);
  }

  // Without room, delivery stops

  function Numbers(rx: seq<Segment>): set<uint16> {
    set e | e in rx :: e.seqNr
  }

  /** c' has received nothing more in sequence, and queues at least the numbers c queues. */
  predicate Holds(c: Conn, c': Conn) {
    c'.rdp.rcvCur == c.rdp.rcvCur && Numbers(c.rdp.rx) <= Numbers(c'.rdp.rx)
  }

  lemma NumberFound(rx: seq<Segment>, seqNr: uint16)
    ensures Find(rx, seqNr) < |rx| <==> seqNr in Numbers(rx)
  {
    var i := Find(rx, seqNr);
    if i < |rx| {
      assert rx[i] in rx;
    } else {
      forall e | e in rx ensures e.seqNr != seqNr {
        var k :| 0 <= k < |rx| && rx[k] == e;
      }
    }
  }

  lemma NumberTaken(rx: seq<Segment>, i: nat)
    requires Distinct(rx) && i < |rx|
    ensures var rest := rx[i + 1..] + rx[..i]; Distinct(rest) && Numbers(rest) == Numbers(rx) - {rx[i].seqNr}
  {
    RotationKeeps(rx, i);
    var rest := rx[i + 1..] + rx[..i];
    forall x ensures x in Numbers(rest) <==> x in Numbers(rx) - {rx[i].seqNr} {
      if x in Numbers(rx) && x != rx[i].seqNr {
        var e :| e in rx && e.seqNr == x;
        assert e in rest;
      }
    }
  }

  /** A queue with more numbers has no shorter run. */
  lemma {:induction false} RunGrows(p: seq<Segment>, q: seq<Segment>, cur: uint16)
    requires Distinct(p) && Distinct(q) && Numbers(p) <= Numbers(q)
    ensures |Run(p, cur)| <= |Run(q, cur)|
    decreases |p|
  {
    hide Distinct, Numbers;
    var next := U16(cur + 1);
    var i, j := Find(p, next), Find(q, next);
    NumberFound(p, next);
    NumberFound(q, next);
    if i < |p| {
      NumberTaken(p, i);
      NumberTaken(q, j);
      RunGrows(p[i + 1..] + p[..i], q[j + 1..] + q[..j], next);
    }
  }

  lemma HoldsItself(c: Conn, c': Conn)
    requires c'.rdp.rcvCur == c.rdp.rcvCur && c'.rdp.rx == c.rdp.rx
    ensures Holds(c, c')
  {
  }

  lemma AddHolds(c: Conn, seg: Segment, cfg: Config, env: Env)
    ensures var c' := NewOutOfOrder(c, seg, cfg, env); Holds(c, c') && c'.rxq == c.rxq
  {
    OutOfOrderShape(c, seg, cfg, env);
    SearchKeeps(c.rdp.rx, seg.seqNr);
    hide NewOutOfOrder;
  }

  /** A packet leaves the receiver where it is, or is the next one and has room. */
  lemma ArriveHolds(n: Net, x: Tagged, cfg: Config, env: Env, window: uint32)
    requires Inv(n, window) && x in n.ba && RoomFor(n.a.c, x.seg, cfg) && !HasRoom(n.a.c, cfg)
    ensures var s := ArriveSide(n.a, x.seg, cfg, env); s.delivered == n.a.delivered && Holds(n.a.c, s.c)
  {
    hide U16, Half, NewOutOfOrder, NewInOrder, SendEack, AckInRange, SeqBetween, Run, FlushEack, Words16, Holds;
    var c, seg := n.a.c, x.seg;
    HalfMeans(ViewOf(n.b), ViewOf(n.a), n.ba, n.ab);
    assert DataSegOk(ViewOf(n.b), x);
    AppendedNothing(c.rxq);
    assert n.a.delivered + [] == n.a.delivered;
    var c1 := c.(rdp := c.rdp.(sndUna := U16(seg.ackNr + 1)));
    AcksTouchLittle(c, cfg, env);
    AddHolds(c1, seg, cfg, env);
    if |c.rxq| >= cfg.queueLength { FullQueueRefuses(c1, seg, cfg, env); }
    hide DataSegOk, Counters;
    HoldsAll(c, c1, ArriveSide(n.a, seg, cfg, env).c, NewOutOfOrder(c1, seg, cfg, env));
  }

  lemma HoldsAll(c: Conn, c1: Conn, c': Conn, added: Conn)
    requires (c'.rdp.rcvCur == c.rdp.rcvCur && c'.rdp.rx == c.rdp.rx) || c' == added
    requires c1.rdp.rcvCur == c.rdp.rcvCur && c1.rdp.rx == c.rdp.rx && Holds(c1, added)
    ensures Holds(c, c')
  {
  }

  lemma StepHolds(n: Net, act: Action, cfg: Config, env: Env, window: uint32)
    requires Inv(n, window) && Enabled(n, act, cfg) && !HasRoom(n.a.c, cfg)
    ensures var m := Step(n, act, cfg, env); m.a.delivered == n.a.delivered && Holds(n.a.c, m.a.c)
  {
    hide Half, HasRoom, NewPacket, CheckTimeouts, SweepTx, SweepOut, CheckAck, Emitted, RoomFor, ReadyForTx, Young;
    match act
    case SendPayload(p) =>
    case ReadPacket => if n.a.c.rxq != [] { AcksTouchLittle(n.a.c.(rxq := n.a.c.rxq[1..]), cfg, env); }
    case Check => CheckShape(n.a.c, cfg, env);
    case Arrive(x) => ArriveHolds(n, x, cfg, env, window);
  }

  lemma NextHolds(n: Net, n': Net, window: uint32, ca: Config, cb: Config)
    requires Inv(n, window) && Next(n, n', ca, cb) && !HasRoom(n.b.c, cb)
    ensures n'.b.delivered == n.b.delivered && Holds(n.b.c, n'.b.c)
  {
    hide Inv, Enabled, Emitted, HasRoom, SendSide, ReadSide, CheckSide, ArriveSide, Holds;
    var act, env :|
      || (Enabled(n, act, ca) && n' == Step(n, act, ca, env))
      || (Enabled(Flip(n), act, cb) && n' == Flip(Step(Flip(n), act, cb, env)));
    HoldsItself(n.b.c, n.b.c);
    if !(Enabled(n, act, ca) && n' == Step(n, act, ca, env)) {
      FlipKeeps(n, window);
      StepHolds(Flip(n), act, cb, env, window);
    }
  }

  lemma HoldsOn(c: Conn, c': Conn, c'': Conn, cfg: Config)
    requires Holds(c, c') && Holds(c', c'') && Distinct(c.rdp.rx) && Distinct(c'.rdp.rx) && !HasRoom(c, cfg)
    ensures Holds(c, c'') && !HasRoom(c', cfg)
  {
    hide U16, Run, Distinct;
    RunGrows(c.rdp.rx, c'.rdp.rx, U16(c.rdp.rcvCur + 1));
  }

  lemma InvDistinct(n: Net, window: uint32)
    requires Inv(n, window)
    ensures Distinct(n.b.c.rdp.rx)
  {
  }

  lemma {:induction false} NoRoomInRun(run: seq<Net>, i: nat, window: uint32, ca: Config, cb: Config)
    requires i < |run| && Inv(run[0], window) && Swept(run[0]) && IsRun(run, ca, cb) && !HasRoom(run[0].b.c, cb)
    ensures run[i].b.delivered == run[0].b.delivered && Holds(run[0].b.c, run[i].b.c)
    ensures !HasRoom(run[i].b.c, cb)
  {
    hide Inv, Swept, Next, HasRoom, Holds, Distinct;
    InvDistinct(run[0], window);
    HoldsItself(run[0].b.c, run[0].b.c);
    if i > 0 {
      NoRoomInRun(run, i - 1, window, ca, cb);
      RunKeeps(run, i - 1, window, ca, cb);
      assert Next(run[i - 1], run[i - 1 + 1], ca, cb);
      NextHolds(run[i - 1], run[i], window, ca, cb);
      InvDistinct(run[i - 1], window);
      HoldsOn(run[0].b.c, run[i - 1].b.c, run[i].b.c, cb);
      RunKeeps(run, i, window, ca, cb);
      InvDistinct(run[i], window);
      HoldsItself(run[i].b.c, run[i].b.c);
      HoldsOn(run[0].b.c, run[i].b.c, run[i].b.c, cb);
    }
  }

  lemma NoRoomStops(n: Net, m: Net, window: uint32, ca: Config, cb: Config)
    requires Inv(n, window) && Swept(n) && !HasRoom(n.b.c, cb) && Reaches(n, m, ca, cb)
    ensures m.b.delivered == n.b.delivered
  {
    hide Inv, Swept, Next, HasRoom, Holds;
    var run: seq<Net> :| Leads(run, n, m, ca, cb);
    NoRoomInRun(run, |run| - 1, window, ca, cb);
  }

  /**
   What was accepted can still be delivered without loss, from every reachable state, exactly when the next payload is
   not empty and the receiver's application queue, read empty, holds it and the run it completes.
   */
  lemma DeliveryGoesOnIff(n: Net, window: uint32, ca: Config, cb: Config)
    requires Reachable(n, window, ca, cb) && |n.b.delivered| < |n.a.accepted|
    ensures CanGrow(n, ca, cb) <==> n.a.accepted[|n.b.delivered|] != [] && HasRoom(n.b.c, cb)
    ensures window <= cb.queueLength ==> HasRoom(n.b.c, cb)
  {
    hide Reachable, Reaches, Inv, Swept, HasRoom;
    ReachableIsInv(n, window, ca, cb);
    if window <= cb.queueLength { WindowIsRoom(n, window, cb); }
    if n.a.accepted[|n.b.delivered|] != [] && HasRoom(n.b.c, cb) {
      NonEmptyGoesOn(n, window, ca, cb, Env(0, 0, ca.defaults, 0, true));
    } else {
      forall m | Reaches(n, m, ca, cb) ensures |m.b.delivered| <= |n.b.delivered| {
        if HasRoom(n.b.c, cb) {
          EmptyStops(n, m, window, ca, cb);
        } else {
          NoRoomStops(n, m, window, ca, cb);
        }
      }
    }
  }

  // The other direction

  lemma FlipRun(run: seq<Net>, ca: Config, cb: Config) returns (flipped: seq<Net>)
    requires IsRun(run, ca, cb)
    ensures IsRun(flipped, cb, ca) && |flipped| == |run| && forall i | 0 <= i < |run| :: flipped[i] == Flip(run[i])
  {
    hide Enabled, Step;
    flipped := seq(|run|, i requires 0 <= i < |run| => Flip(run[i]));
    forall i | 0 <= i < |run| - 1 ensures Next(flipped[i], flipped[i + 1], cb, ca) {
      assert Next(run[i], run[i + 1], ca, cb);
      assert Flip(flipped[i]) == run[i] && Flip(flipped[i + 1]) == run[i + 1];
    }
  }

  /** Reachability does not care which end is called a, so what holds from a to b holds from b to a. */
  lemma ReachableFlips(n: Net, window: uint32, ca: Config, cb: Config)
    requires Reachable(n, window, ca, cb)
    ensures Reachable(Flip(n), window, cb, ca)
  {
    hide IsRun, MatchedSide;
    var run: seq<Net> :| |run| > 0 && Matched(run[0], window) && IsRun(run, ca, cb) && n == run[|run| - 1];
    var flipped := FlipRun(run, ca, cb);
    assert Matched(flipped[0], window);
  }

  // Empty payloads are accepted

  /**
   * A matched pair accepts an empty payload exactly when there is a buffer place for its header and room in the
   * queue.
   */
  lemma EmptyPayloadIsAccepted(n: Net, window: uint32, ca: Config, cb: Config, env: Env)
    requires Matched(n, window)
    ensures var m := Step(n, SendPayload([]), ca, env);
            && Reachable(m, window, ca, cb)
            && (m.a.accepted == [[]] <==> ca.bufferSize >= 5 && |n.a.c.rdp.tx| < ca.maxWindow)
  {
    hide U16, SeqBefore, Next, MatchedSide, Inv, Swept;
    MatchedIsInv(n, window);
    MatchedIsReady(n, window);
    var m := Step(n, SendPayload([]), ca, env);
    NextOfA(n, SendPayload([]), ca, cb, env);
    assert IsRun([n, m], ca, cb);
    assert [n, m][|[n, m]| - 1] == m && [n, m][0] == n;
  }

  lemma MatchedIsReady(n: Net, window: uint32)
    requires Matched(n, window)
    ensures n.a.c.open && n.a.c.rdp.state == Open && ReadyForTx(n.a.c) && n.a.accepted == []
  {
    hide U16, SeqBefore;
    MatchedIsInv(n, window);
    NumberIsIndex(n.a.c.rdp.sndIss + 1, 0, 0);
    ReadyIsRoom(ViewOf(n.a), ViewOf(n.b), window);
  }
}
