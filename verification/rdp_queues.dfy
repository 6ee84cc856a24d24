/**
 What one endpoint keeps whatever segments reach it: the order of sequence numbers across the
 16-bit wrap, the reorder queue, and what flushing it delivers.
 */
module RdpQueues {
  import opened Words
  import opened RdpSpec

  /** How far a sequence number lies ahead of rcv_cur on the 16-bit circle. */
  function Off(seqNr: int, cur: int): uint16 {
    U16(seqNr - cur)
  }

  // The wrapping comparisons order the unbounded numbers they stand for, as long as these are close enough.

  lemma SubMod(x: int, y: int)
    ensures U16(U16(x) - U16(y)) == U16(x - y)
  {
  }

  lemma AddMod(x: int, y: int)
    ensures U16(U16(x) + y) == U16(x + y)
  {
  }

  lemma PredMod(x: int)
    ensures U16(x - 1) == if U16(x) == 0 then 0xFFFF else U16(x) - 1
  {
  }

  lemma BeforeMod(x: int, y: int)
    ensures SeqBefore(x, y) == SeqBefore(U16(x), U16(y))
  {
    SubMod(x, y);
  }

  lemma BeforeIsLess(x: int, y: int)
    requires -0x8000 < x - y < 0x8000
    ensures SeqBefore(x, y) <==> x < y
    ensures SeqBefore(U16(x), U16(y)) <==> x < y
  {
    SubMod(x, y);
  }

  lemma BetweenIsInterval(x: int, lo: int, hi: int)
    requires 0 <= hi - lo < 0x1_0000
    requires hi - 0x1_0000 < x < lo + 0x1_0000
    ensures SeqBetween(x, lo, hi) <==> lo <= x <= hi
  {
    SubMod(hi, lo);
    SubMod(x, lo);
  }

  /** The interval test sees its arguments modulo 2^16 only. */
  lemma BetweenMod(x: int, x': int, lo: int, lo': int, hi: int, hi': int)
    requires U16(x) == U16(x') && U16(lo) == U16(lo') && U16(hi) == U16(hi')
    ensures SeqBetween(x, lo, hi) == SeqBetween(x', lo', hi')
  {
    hide U16;
  }

  lemma SameNumber(x: int, y: int)
    requires -0x1_0000 < x - y < 0x1_0000
    ensures U16(x) == U16(y) <==> x == y
  {
  }

  /** The next number has offset 1; seen from there, every other number has come one closer. */
  lemma OffNext(seqNr: uint16, cur: uint16)
    ensures Off(seqNr, cur) == 1 <==> seqNr == U16(cur + 1)
    ensures Off(seqNr, cur) >= 1 ==> Off(seqNr, U16(cur + 1)) == Off(seqNr, cur) - 1
  {
    SubMod(seqNr, cur + 1);
    PredMod(seqNr - cur);
  }

  predicate Plain(seg: Segment) {
    !seg.syn && seg.ack && !seg.rst
  }

  predicate Distinct(rx: seq<Segment>) {
    forall i, j | 0 <= i < j < |rx| :: rx[i].seqNr != rx[j].seqNr
  }

  predicate InWindow(rx: seq<Segment>, cur: uint16, low: int, window: int) {
    forall e | e in rx :: low <= Off(e.seqNr, cur) <= 2 * window
  }

  /** Twice the window a connection agreed on fits half of the number space, as the sender's comparisons need it. */
  predicate SaneWindow(window: int) {
    1 <= window && 2 * window < 0x8000
  }

  /** Queued numbers are distinct and lie in rcv_cur + 2 .. rcv_cur + 2 * window_size. */
  predicate RxOk(c: Conn) {
    Distinct(c.rdp.rx) && InWindow(c.rdp.rx, c.rdp.rcvCur, 2, c.rdp.opt.window)
  }

  lemma RotationKeeps(rx: seq<Segment>, i: nat)
    requires i < |rx|
    ensures forall e :: e in rx[i + 1..] + rx[..i] || e == rx[i] <==> e in rx
    ensures Distinct(rx) ==> Distinct(rx[i + 1..] + rx[..i])
    ensures Distinct(rx) ==> forall e | e in rx[i + 1..] + rx[..i] :: e.seqNr != rx[i].seqNr
    ensures multiset(rx[i + 1..] + rx[..i]) + multiset{rx[i]} == multiset(rx)
  {
    RotationCounts(rx, i);
  }

  lemma RotationCounts(rx: seq<Segment>, i: nat)
    requires i < |rx|
    ensures multiset(rx[i + 1..] + rx[..i]) + multiset{rx[i]} == multiset(rx)
  {
    assert rx == rx[..i] + [rx[i]] + rx[i + 1..];
  }

  /** Turning a queue round keeps its elements. */
  lemma TurnKeeps(rx: seq<Segment>, k: nat)
    requires k <= |rx|
    ensures multiset(rx[k..] + rx[..k]) == multiset(rx)
    ensures forall e :: e in rx[k..] + rx[..k] <==> e in rx
    ensures Distinct(rx) ==> Distinct(rx[k..] + rx[..k])
  {
    assert rx == rx[..k] + rx[k..];
    var turned := rx[k..] + rx[..k];
    forall e ensures e in turned <==> e in rx {
      assert e in multiset(rx) <==> e in rx;
      assert e in multiset(turned) <==> e in turned;
    }
  }

  lemma SearchKeeps(rx: seq<Segment>, seqNr: uint16)
    ensures var (found, rx1) := Search(rx, seqNr);
            && |rx1| == |rx|
            && multiset(rx1) == multiset(rx)
            && (found <==> exists e :: e in rx && e.seqNr == seqNr)
            && (Distinct(rx) ==> Distinct(rx1))
            && (forall e :: e in rx1 <==> e in rx)
  {
    hide Distinct;
    var i := Find(rx, seqNr);
    if i < |rx| {
      TurnKeeps(rx, i + 1);
      assert rx[i] in rx;
    }
  }

  lemma HeadIsMember<T>(s: seq<T>)
    requires |s| > 0
    ensures s[0] in s
  {
  }

  lemma OutOfReach(rx: seq<Segment>, cur: uint16, hi: nat)
    requires hi < 2
    requires forall e | e in rx :: 2 <= Off(e.seqNr, cur) <= hi
    ensures rx == []
  {
    if |rx| > 0 {
      HeadIsMember(rx);
    }
  }

  /** Distinct offsets in 2 .. hi leave room for at most hi - 1 elements. */
  lemma {:induction false} Pigeonhole(rx: seq<Segment>, cur: uint16, hi: nat)
    requires Distinct(rx)
    requires hi < 0x1_0000
    requires forall e | e in rx :: 2 <= Off(e.seqNr, cur) <= hi
    ensures |rx| <= if hi < 2 then 0 else hi - 1
    decreases hi
  {
    if hi < 2 {
      OutOfReach(rx, cur, hi);
    } else if i :| 0 <= i < |rx| && Off(rx[i].seqNr, cur) == hi {
      var rest := rx[i + 1..] + rx[..i];
      RotationKeeps(rx, i);
      forall e | e in rest ensures 2 <= Off(e.seqNr, cur) <= hi - 1 {
        assert e in rx;
      }
      Pigeonhole(rest, cur, hi - 1);
    } else {
      forall e | e in rx ensures Off(e.seqNr, cur) <= hi - 1 {
        var i :| 0 <= i < |rx| && rx[i] == e;
      }
      Pigeonhole(rx, cur, hi - 1);
    }
  }

  /** The reorder queue never fills up, so csp_rdp_rx_queue_add refuses a segment exactly when it is a duplicate. */
  lemma AddRefusesOnlyDuplicates(c: Conn, seg: Segment, cfg: Config)
    requires RxOk(c) && c.rdp.opt.window <= cfg.maxWindow && 1 <= cfg.maxWindow
    ensures |c.rdp.rx| < 2 * cfg.maxWindow
    ensures RxAdd(c.rdp.rx, seg, cfg).0 <==> forall e | e in c.rdp.rx :: e.seqNr != seg.seqNr
    ensures RxAdd(c.rdp.rx, seg, cfg).0 ==> RxAdd(c.rdp.rx, seg, cfg).1 == c.rdp.rx + [seg]
  {
    Pigeonhole(c.rdp.rx, c.rdp.rcvCur, if 2 * c.rdp.opt.window < 0x1_0000 then 2 * c.rdp.opt.window else 0xFFFF);
    SearchKeeps(c.rdp.rx, seg.seqNr);
  }

  // Flushing

  /** The segments a flush takes out of the queue, in the order in which it takes them. */
  function Run(rx: seq<Segment>, cur: uint16): seq<Segment>
    decreases |rx|
  {
    var i := Find(rx, U16(cur + 1));
    if i == |rx| then [] else [rx[i]] + Run(rx[i + 1..] + rx[..i], U16(cur + 1))
  }

  function Bodies(run: seq<Segment>): seq<Item> {
    seq(|run|, i requires 0 <= i < |run| => Data(run[i].body))
  }

  lemma RunStep(f: Flushed, cfg: Config)
    requires CanDeliver(f)
    ensures var i, g := Find(f.rx, U16(f.rcvCur + 1)), Deliver(f, cfg);
            Flush(f, cfg) == Flush(g, cfg) && Run(f.rx, f.rcvCur) == [f.rx[i]] + Run(g.rx, g.rcvCur)
  {
  }

  lemma RunEnd(f: Flushed, cfg: Config)
    requires !CanDeliver(f)
    ensures Flush(f, cfg) == f && Run(f.rx, f.rcvCur) == []
    ensures forall e | e in f.rx :: e.seqNr != U16(f.rcvCur + 1)
  {
    forall e | e in f.rx ensures e.seqNr != U16(f.rcvCur + 1) {
      var k :| 0 <= k < |f.rx| && f.rx[k] == e;
    }
  }

  lemma {:induction false} RunNumbers(f: Flushed, cfg: Config)
    ensures var g, run := Flush(f, cfg), Run(f.rx, f.rcvCur);
            && (forall i | 0 <= i < |run| :: run[i].seqNr == U16(f.rcvCur + 1 + i))
            && g.rcvCur == U16(f.rcvCur + |run|)
            && (forall e | e in g.rx :: e.seqNr != U16(g.rcvCur + 1))
    decreases |f.rx|
  {
    hide Run, Flush;
    if CanDeliver(f) {
      var g := Deliver(f, cfg);
      RunNumbers(g, cfg);
      RunStep(f, cfg);
      var run, tail := Run(f.rx, f.rcvCur), Run(g.rx, g.rcvCur);
      forall k | 0 <= k < |run| ensures run[k].seqNr == U16(f.rcvCur + 1 + k) {
        if k > 0 {
          assert run[k] == tail[k - 1];
          AddMod(f.rcvCur + 1, k);
        }
      }
      AddMod(f.rcvCur + 1, |tail|);
    } else {
      RunEnd(f, cfg);
    }
  }

  lemma {:induction false} RunTakesOut(f: Flushed, cfg: Config)
    ensures multiset(Flush(f, cfg).rx) + multiset(Run(f.rx, f.rcvCur)) == multiset(f.rx)
    decreases |f.rx|
  {
    hide Run, Flush, Deliver;
    if CanDeliver(f) {
      var g := Deliver(f, cfg);
      DeliverTakesOut(f, cfg);
      RunTakesOut(g, cfg);
      RunStep(f, cfg);
      PutBack(Flush(g, cfg).rx, Run(g.rx, g.rcvCur), g.rx, f.rx[Find(f.rx, U16(f.rcvCur + 1))], f.rx);
    } else {
      RunEnd(f, cfg);
    }
  }

  lemma DeliverTakesOut(f: Flushed, cfg: Config)
    requires CanDeliver(f)
    ensures |Deliver(f, cfg).rx| < |f.rx|
    ensures multiset(Deliver(f, cfg).rx) + multiset{f.rx[Find(f.rx, U16(f.rcvCur + 1))]} == multiset(f.rx)
  {
    hide Find, U16, Enqueue;
    RotationCounts(f.rx, Find(f.rx, U16(f.rcvCur + 1)));
  }

  lemma PutBack(left: seq<Segment>, tail: seq<Segment>, rest: seq<Segment>, x: Segment, all: seq<Segment>)
    requires multiset(left) + multiset(tail) == multiset(rest)
    requires multiset(rest) + multiset{x} == multiset(all)
    ensures multiset(left) + multiset([x] + tail) == multiset(all)
  {
  }

  /** How many segments of a run of this length a queue of this length has room for. */
  function Room(queued: int, run: int, cfg: Config): int {
    if queued + run <= cfg.queueLength then run else cfg.queueLength - queued
  }

  lemma {:induction false} RunIsQueued(f: Flushed, cfg: Config)
    requires |f.rxq| <= cfg.queueLength
    ensures var run := Run(f.rx, f.rcvCur);
            Flush(f, cfg).rxq == f.rxq + Bodies(run)[..Room(|f.rxq|, |run|, cfg)]
    decreases |f.rx|
  {
    hide Run, Flush;
    if CanDeliver(f) {
      var g := Deliver(f, cfg);
      RunStep(f, cfg);
      RunIsQueued(g, cfg);
      assert Bodies(Run(f.rx, f.rcvCur)) == [Data(f.rx[Find(f.rx, U16(f.rcvCur + 1))].body)] +
             Bodies(Run(g.rx, g.rcvCur));
    } else {
      RunEnd(f, cfg);
    }
  }

  /**
   The restart-from-front loop takes out exactly the maximal run of consecutive numbers after rcv_cur,
   in order, and keeps the rest; of the run, the application queue receives what it has room for.
   */
  lemma FlushIsExact(f: Flushed, cfg: Config)
    requires |f.rxq| <= cfg.queueLength
    ensures var g, run := Flush(f, cfg), Run(f.rx, f.rcvCur);
            && (forall i | 0 <= i < |run| :: run[i].seqNr == U16(f.rcvCur + 1 + i))
            && g.rcvCur == U16(f.rcvCur + |run|)
            && multiset(g.rx) + multiset(run) == multiset(f.rx)
            && (forall e | e in g.rx :: e.seqNr != U16(g.rcvCur + 1))
            && g.rxq == f.rxq + Bodies(run)[..Room(|f.rxq|, |run|, cfg)]
  {
    hide Run, Flush;
    RunNumbers(f, cfg);
    RunTakesOut(f, cfg);
    RunIsQueued(f, cfg);
  }

  /** Flushing loses no payload exactly when the run fits into the application queue. */
  lemma FlushLosesNothingIffRoom(f: Flushed, cfg: Config)
    requires |f.rxq| <= cfg.queueLength
    ensures Flush(f, cfg).rxq == f.rxq + Bodies(Run(f.rx, f.rcvCur)) <==>
            |f.rxq| + |Run(f.rx, f.rcvCur)| <= cfg.queueLength
  {
    FlushIsExact(f, cfg);
  }

  /**
   * A segment is acknowledged and gone although the application never gets it: the queue has one place, the run two
   * segments.
   */
  lemma FlushCanLose()
    ensures var seg := Segment(false, true, false, false, 2, 0, [7]);
            var cfg := Config(1, 4, 100, Options(4, 10000, 1000, 1, 250, 2), false);
            var f := Flushed([seg], 1, [Data([6])]);
            Flush(f, cfg) == Flushed([], 2, [Data([6])])
  {
    var seg := Segment(false, true, false, false, 2, 0, [7]);
    var cfg := Config(1, 4, 100, Options(4, 10000, 1000, 1, 250, 2), false);
    var f := Flushed([seg], 1, [Data([6])]);
    assert Find(f.rx, 2) == 0;
    assert CanDeliver(f);
    assert Deliver(f, cfg) == Flushed([], 2, [Data([6])]);
  }

  lemma NotQueued(p: seq<Segment>, q: seq<Segment>, j: nat, seqNr: uint16)
    requires multiset(p) == multiset(q) && j < |q| && q[j].seqNr == seqNr
    ensures Find(p, seqNr) < |p|
  {
    assert q[j] in multiset(p);
    var k :| 0 <= k < |p| && p[k] == q[j];
  }

  /** Which run a flush delivers does not depend on the order of the queue. */
  lemma {:induction false} RunIgnoresOrder(p: seq<Segment>, q: seq<Segment>, cur: uint16)
    requires Distinct(p) && Distinct(q) && multiset(p) == multiset(q)
    ensures Run(p, cur) == Run(q, cur)
    decreases |p|
  {
    var i, j := Find(p, U16(cur + 1)), Find(q, U16(cur + 1));
    if i < |p| {
      SameElement(p, q, i, j, U16(cur + 1));
      var p1, q1 := p[i + 1..] + p[..i], q[j + 1..] + q[..j];
      RunIgnoresOrder(p1, q1, U16(cur + 1));
      assert Run(p, cur) == [p[i]] + Run(p1, U16(cur + 1));
      assert Run(q, cur) == [q[j]] + Run(q1, U16(cur + 1));
    } else if j < |q| {
      NotQueued(p, q, j, U16(cur + 1));
    }
  }

  lemma SameElement(p: seq<Segment>, q: seq<Segment>, i: nat, j: nat, seqNr: uint16)
    requires Distinct(p) && Distinct(q) && multiset(p) == multiset(q)
    requires i == Find(p, seqNr) < |p| && j == Find(q, seqNr)
    ensures j < |q| && q[j] == p[i]
    ensures var p1, q1 := p[i + 1..] + p[..i], q[j + 1..] + q[..j];
            Distinct(p1) && Distinct(q1) && multiset(p1) == multiset(q1)
  {
    assert p[i] in multiset(q);
    var k :| 0 <= k < |q| && q[k] == p[i];
    RotationKeeps(p, i);
    RotationKeeps(q, j);
    assert multiset(p[i + 1..] + p[..i]) == multiset(p) - multiset{p[i]};
    assert multiset(q[j + 1..] + q[..j]) == multiset(q) - multiset{p[i]};
  }

  lemma {:induction false} FlushKeepsDistinct(f: Flushed, window: int, cfg: Config)
    requires Distinct(f.rx) && InWindow(f.rx, f.rcvCur, 1, window)
    ensures Distinct(Flush(f, cfg).rx) && InWindow(Flush(f, cfg).rx, Flush(f, cfg).rcvCur, 2, window)
    decreases |f.rx|
  {
    var next := U16(f.rcvCur + 1);
    var i := Find(f.rx, next);
    if i < |f.rx| {
      RotationKeeps(f.rx, i);
      forall e | e in f.rx[i + 1..] + f.rx[..i] ensures 1 <= Off(e.seqNr, next) <= 2 * window {
        assert e in f.rx && e.seqNr != next;
        OffNext(e.seqNr, f.rcvCur);
      }
      FlushKeepsDistinct(Deliver(f, cfg), window, cfg);
    } else {
      forall e | e in f.rx ensures 2 <= Off(e.seqNr, f.rcvCur) <= 2 * window {
        assert e.seqNr != next by { var k :| 0 <= k < |f.rx| && f.rx[k] == e; }
        OffNext(e.seqNr, f.rcvCur);
      }
    }
  }

  /** Acknowledging touches nothing but the bookkeeping of acknowledgements. */
  predicate AckOnly(c: Conn, c': Conn) {
    c' == c.(out := c'.out, rdp := c.rdp.(rcvLsa := c'.rdp.rcvLsa, ackTimestamp := c'.rdp.ackTimestamp))
  }

  lemma AcksTouchLittle(c: Conn, cfg: Config, env: Env)
    ensures AckOnly(c, SendAck(c, cfg, env)) && SendAck(c, cfg, env).out == c.out + [AckSegment(c)]
    ensures AckOnly(c, SendEack(c, cfg, env)) && SendEack(c, cfg, env).out == c.out + [EackSegment(c)]
    ensures AckOnly(c, CheckAck(c, cfg, env))
    ensures CheckAck(c, cfg, env).out == c.out || CheckAck(c, cfg, env).out == c.out + [AckSegment(c)]
  {
  }

  function AckSegment(c: Conn): Segment {
    Segment(false, true, false, false, c.rdp.sndNxt, c.rdp.rcvCur, [])
  }

  function EackSegment(c: Conn): Segment {
    Segment(false, true, true, false, c.rdp.sndNxt, c.rdp.rcvCur, SeqBytes(c.rdp.rx))
  }

  /** What an out-of-order segment does, without the acknowledgement it triggers. */
  lemma OutOfOrderShape(c: Conn, seg: Segment, cfg: Config, env: Env)
    ensures AckOnly(c.(rdp := c.rdp.(rx := RxAdd(c.rdp.rx, seg, cfg).1)), NewOutOfOrder(c, seg, cfg, env))
  {
    AcksTouchLittle(c.(rdp := c.rdp.(rx := RxAdd(c.rdp.rx, seg, cfg).1)), cfg, env);
  }

  /** Data inside the window, but not the next number, goes to the reorder queue. */
  lemma OutOfOrderPasses(c: Conn, seg: Segment, cfg: Config, env: Env)
    requires c.rdp.state == Open && Plain(seg) && !seg.eak && seg.body != [] && AckInRange(c, seg)
    requires 2 <= Off(seg.seqNr, c.rdp.rcvCur) <= U16(2 * c.rdp.opt.window)
    ensures NewPacket(c, seg, cfg, env).0 ==
            NewOutOfOrder(c.(rdp := c.rdp.(sndUna := U16(seg.ackNr + 1))), seg, cfg, env)
  {
    InWindowOffset(seg.seqNr, c.rdp.rcvCur, c.rdp.opt.window);
    OffNext(seg.seqNr, c.rdp.rcvCur);
    OutOfOrderTaken(c, seg, cfg, env);
    hide U16, SeqBetween, AckInRange, NewOutOfOrder, NewPacket;
  }

  lemma OutOfOrderTaken(c: Conn, seg: Segment, cfg: Config, env: Env)
    requires c.rdp.state == Open && Plain(seg) && !seg.eak && seg.body != [] && AckInRange(c, seg)
    requires SeqBetween(seg.seqNr, c.rdp.rcvCur + 1, c.rdp.rcvCur + c.rdp.opt.window * 2)
    requires seg.seqNr != U16(c.rdp.rcvCur + 1)
    ensures NewPacket(c, seg, cfg, env).0 ==
            NewOutOfOrder(c.(rdp := c.rdp.(sndUna := U16(seg.ackNr + 1))), seg, cfg, env)
  {
    hide U16, SeqBetween, AckInRange, NewOutOfOrder, NewInOrder;
  }

  /** What a segment in sequence does, without the acknowledgement it triggers. */
  lemma InOrderShape(c: Conn, seg: Segment, cfg: Config, env: Env)
    requires |c.rxq| < cfg.queueLength
    ensures var f := Flush(Flushed(c.rdp.rx, seg.seqNr, c.rxq + [Data(seg.body)]), cfg);
            AckOnly(c.(rxq := f.rxq, rdp := c.rdp.(rx := f.rx, rcvCur := f.rcvCur)), NewInOrder(c, seg, cfg, env))
  {
    var c1 := c.(rxq := c.rxq + [Data(seg.body)], rdp := c.rdp.(rcvCur := seg.seqNr));
    AcksTouchLittle(c1, cfg, env);
  }

  lemma AddKeeps(rx: seq<Segment>, seg: Segment, cur: uint16, window: int, cfg: Config)
    requires Distinct(rx) && InWindow(rx, cur, 2, window)
    requires 2 <= Off(seg.seqNr, cur) <= 2 * window
    ensures var rx1 := RxAdd(rx, seg, cfg).1; Distinct(rx1) && InWindow(rx1, cur, 2, window)
  {
    SearchKeeps(rx, seg.seqNr);
  }

  lemma InOrderKeepsRxOk(c: Conn, seg: Segment, cfg: Config, env: Env)
    requires RxOk(c) && Off(seg.seqNr, c.rdp.rcvCur) == 1
    ensures RxOk(NewInOrder(c, seg, cfg, env))
  {
    if |c.rxq| < cfg.queueLength {
      InOrderShape(c, seg, cfg, env);
      OffNext(seg.seqNr, c.rdp.rcvCur);
      forall e | e in c.rdp.rx ensures 1 <= Off(e.seqNr, seg.seqNr) <= 2 * c.rdp.opt.window {
        OffNext(e.seqNr, c.rdp.rcvCur);
      }
      FlushKeepsDistinct(Flushed(c.rdp.rx, seg.seqNr, c.rxq + [Data(seg.body)]), c.rdp.opt.window, cfg);
    }
  }

  // Which windows keep strays out

  /** A window with which the window test is no test: twice it is nothing modulo 2^16. */
  predicate LetsAllPass(window: int) { window % 0x8000 == 0 }

  lemma WindowTestRange(d: uint16, m: uint16)
    ensures U16(m - 1) >= U16(d - 1) <==> m == 0 || 1 <= d <= m
  {
    PredMod(m);
    PredMod(d);
  }

  lemma TwiceWindow(window: int)
    ensures U16(2 * window) == 0 <==> LetsAllPass(window)
    ensures window >= 0 ==> U16(2 * window) <= 2 * window
    ensures 0 <= 2 * window < 0x1_0000 ==> U16(2 * window) == 2 * window
  {
  }

  /** The window test accepts exactly the offsets 1 .. 2W modulo 2^16, or everything when that is no interval. */
  lemma InWindowOffset(s: uint16, cur: uint16, window: int)
    ensures SeqBetween(s, cur + 1, cur + window * 2) <==>
              LetsAllPass(window) || 1 <= Off(s, cur) <= U16(2 * window)
  {
    hide U16;
    SubMod(cur + window * 2, cur + 1);
    SubMod(s, cur + 1);
    PredOf(2 * window);
    PredOf(s - cur);
    assert cur + window * 2 - (cur + 1) == 2 * window - 1 && s - (cur + 1) == s - cur - 1;
    WindowTestRange(Off(s, cur), U16(2 * window));
    TwiceWindow(window);
  }

  /** With a window below 2^15, other than 0, that is 1 .. 2W. */
  lemma SaneWindowOffset(s: uint16, cur: uint16, window: int)
    requires 1 <= window && 2 * window < 0x1_0000
    ensures SeqBetween(s, cur + 1, cur + window * 2) <==> 1 <= Off(s, cur) <= 2 * window
  {
    hide SeqBetween, Off;
    InWindowOffset(s, cur, window);
    TwiceWindow(window);
  }

  lemma PredOf(x: int)
    ensures U16(x - 1) == U16(U16(x) - 1)
  {
  }

  /** In particular rcv_cur itself passes exactly with such a window. */
  lemma CurrentPassesIff(cur: uint16, window: int)
    ensures SeqBetween(cur, cur + 1, cur + window * 2) <==> LetsAllPass(window)
  {
    hide SeqBetween;
    InWindowOffset(cur, cur, window);
  }

  /** A segment the reorder queue has a place for: in sequence, ahead by at most twice the window, or refused. */
  predicate HasPlace(c: Conn, seg: Segment, cfg: Config) {
    || 1 == Off(seg.seqNr, c.rdp.rcvCur)
    || 2 <= Off(seg.seqNr, c.rdp.rcvCur) <= 2 * c.rdp.opt.window
    || |c.rdp.rx| >= 2 * cfg.maxWindow
  }

  lemma AddKeepsIff(c: Conn, seg: Segment, cfg: Config)
    requires RxOk(c) && Off(seg.seqNr, c.rdp.rcvCur) != 1
    ensures var rx1 := RxAdd(c.rdp.rx, seg, cfg).1;
            Distinct(rx1) && InWindow(rx1, c.rdp.rcvCur, 2, c.rdp.opt.window) <==> HasPlace(c, seg, cfg)
  {
    hide Off;
    var rx1 := RxAdd(c.rdp.rx, seg, cfg).1;
    SearchKeeps(c.rdp.rx, seg.seqNr);
    if HasPlace(c, seg, cfg) && |c.rdp.rx| < 2 * cfg.maxWindow {
      AddKeeps(c.rdp.rx, seg, c.rdp.rcvCur, c.rdp.opt.window, cfg);
    } else if !HasPlace(c, seg, cfg) {
      assert rx1 == Search(c.rdp.rx, seg.seqNr).1 + [seg] && rx1[|rx1| - 1] == seg;
    }
  }

  lemma OutOfOrderKeepsIff(c: Conn, seg: Segment, cfg: Config, env: Env)
    requires RxOk(c) && Off(seg.seqNr, c.rdp.rcvCur) != 1
    ensures RxOk(NewOutOfOrder(c, seg, cfg, env)) <==> HasPlace(c, seg, cfg)
  {
    hide Off, RxAdd, HasPlace;
    OutOfOrderShape(c, seg, cfg, env);
    AddKeepsIff(c, seg, cfg);
    hide NewOutOfOrder;
  }

  lemma NewDataKeepsIff(c: Conn, seg: Segment, cfg: Config, env: Env)
    requires RxOk(c)
    ensures RxOk(NewData(c, seg, cfg, env)) <==> HasPlace(c, seg, cfg)
  {
    hide NewInOrder, NewOutOfOrder, Off;
    OffNext(seg.seqNr, c.rdp.rcvCur);
    if Off(seg.seqNr, c.rdp.rcvCur) == 1 {
      InOrderKeepsRxOk(c, seg, cfg, env);
    } else {
      OutOfOrderKeepsIff(c, seg, cfg, env);
    }
  }

  /** A segment that carries data, rather than a bare or an extended acknowledgement. */
  predicate CarriesData(seg: Segment) {
    !seg.eak && |seg.body| > 0
  }

  lemma NewAckedKeepsIff(c: Conn, seg: Segment, cfg: Config, env: Env)
    requires RxOk(c)
    ensures RxOk(NewAcked(c, seg, cfg, env)) <==> (CarriesData(seg) ==> HasPlace(c, seg, cfg))
  {
    hide NewData, Off;
    NewDataKeepsIff(c.(rdp := c.rdp.(sndUna := U16(seg.ackNr + 1))), seg, cfg, env);
  }

  /** Closing leaves the reorder queue alone or empties it. */
  lemma ClosingKeepsRxOk(c: Conn, who: set<Party>, cfg: Config, env: Env)
    requires RxOk(c)
    ensures RxOk(ConnClose(c, who, cfg, env)) && RxOk(DiscardClose(c, who, cfg, env))
  {
  }

  /** The handler gets as far as the data of the segment: the window, acknowledgement and handshake tests pass. */
  predicate Accepted(c: Conn, seg: Segment, env: Env) {
    && !seg.syn && seg.ack
    && SeqBetween(seg.seqNr, c.rdp.rcvCur + 1, c.rdp.rcvCur + c.rdp.opt.window * 2)
    && AckInRange(c, seg)
    && (c.rdp.state == SynRcvd ==> seg.ackNr == c.rdp.sndIss && (c.socket ==> env.acceptRoom))
  }

  /** A data segment that is queued although it lies outside the receive window. */
  predicate Stray(c: Conn, seg: Segment, cfg: Config, env: Env) {
    Accepted(c, seg, env) && CarriesData(seg) && !HasPlace(c, seg, cfg)
  }

  /** In OPEN and SYN-RCVD a packet keeps the reorder queue's invariant exactly when it is no stray. */
  lemma NewInOpenKeepsIff(c: Conn, seg: Segment, cfg: Config, env: Env)
    requires RxOk(c) && c.rdp.state in {SynRcvd, Open}
    ensures RxOk(NewInOpen(c, seg, cfg, env)) <==> !Stray(c, seg, cfg, env)
  {
    hide NewAcked, DiscardClose, SendCmp, SeqBetween, AckInRange, HasPlace, CarriesData, RxOk;
    var c1 := c.(rdp := c.rdp.(state := Open));
    ClosingKeepsRxOk(c, {Protocol}, cfg, env);
    OpenedKeepsRxOk(c, seg, cfg);
    ClosingKeepsRxOk(c1, {Protocol}, cfg, env);
    AcksKeepRxOk(c, cfg, env);
    NewAckedKeepsIff(c, seg, cfg, env);
    NewAckedKeepsIff(c1.(socket := false), seg, cfg, env);
  }

  lemma OpenedKeepsRxOk(c: Conn, seg: Segment, cfg: Config)
    requires RxOk(c)
    ensures var c1 := c.(rdp := c.rdp.(state := Open));
            RxOk(c1) && RxOk(c1.(socket := false)) && HasPlace(c1.(socket := false), seg, cfg) == HasPlace(c, seg, cfg)
  {
  }

  lemma AcksKeepRxOk(c: Conn, cfg: Config, env: Env)
    requires RxOk(c)
    ensures RxOk(SendSynAck(c, cfg, env)) && RxOk(SendEack(c, cfg, env))
  {
    AcksTouchLittle(c, cfg, env);
  }

  /** A stray passes the window test, so twice the window is nothing modulo 2^16. */
  lemma StraysPassAll(c: Conn, seg: Segment, cfg: Config, env: Env)
    requires Stray(c, seg, cfg, env)
    ensures LetsAllPass(c.rdp.opt.window)
  {
    hide SeqBetween, Off;
    InWindowOffset(seg.seqNr, c.rdp.rcvCur, c.rdp.opt.window);
    TwiceWindow(c.rdp.opt.window);
  }

  /** With such a window the number received last is one, unless the queue is full. */
  lemma CurrentIsStray(c: Conn, cfg: Config, env: Env)
    requires c.rdp.state == Open && LetsAllPass(c.rdp.opt.window) && |c.rdp.rx| < 2 * cfg.maxWindow
    ensures Stray(c, Segment(false, true, false, false, c.rdp.rcvCur, U16(c.rdp.sndNxt - 1), [0]), cfg, env)
  {
    CurrentPassesIff(c.rdp.rcvCur, c.rdp.opt.window);
    EndPasses(c.rdp.sndUna - 1 - c.rdp.opt.window * 2, c.rdp.sndNxt - 1);
  }

  lemma EndPasses(start: int, end: int)
    ensures SeqBetween(U16(end), start, end)
  {
  }

  /**
   So in OPEN the handler keeps the invariant for every segment exactly when the agreed window is not a multiple of
   2^15, such as the 0 that a SYN may announce, or when it has no place left to queue anything.
   */
  lemma AllSegmentsKeepIff(c: Conn, cfg: Config, env: Env)
    requires RxOk(c) && c.rdp.state == Open
    ensures (forall seg :: RxOk(NewInOpen(c, seg, cfg, env))) <==>
              !LetsAllPass(c.rdp.opt.window) || |c.rdp.rx| >= 2 * cfg.maxWindow
  {
    hide NewInOpen, Accepted, HasPlace, RxOk, LetsAllPass;
    forall seg ensures RxOk(NewInOpen(c, seg, cfg, env)) <==> !Stray(c, seg, cfg, env) {
      NewInOpenKeepsIff(c, seg, cfg, env);
    }
    if !LetsAllPass(c.rdp.opt.window) || |c.rdp.rx| >= 2 * cfg.maxWindow {
      forall seg ensures !Stray(c, seg, cfg, env) {
        if Stray(c, seg, cfg, env) {
          StraysPassAll(c, seg, cfg, env);
          FullHasPlace(c, seg, cfg);
        }
      }
    } else {
      CurrentIsStray(c, cfg, env);
    }
  }

  lemma FullHasPlace(c: Conn, seg: Segment, cfg: Config)
    requires |c.rdp.rx| >= 2 * cfg.maxWindow
    ensures HasPlace(c, seg, cfg)
  {
  }

  /** A window of 0 lets a segment five numbers ahead into the queue. */
  lemma ZeroWindowQueues(c: Conn, cfg: Config, env: Env)
    requires c.rdp.state == Open && c.rdp.opt.window == 0 && c.rdp.rx == [] && c.rdp.rcvCur == 10 && cfg.maxWindow >= 1
    ensures var seg := Segment(false, true, false, false, 15, U16(c.rdp.sndNxt - 1), [7]);
            NewInOpen(c, seg, cfg, env).rdp.rx == [seg] && !RxOk(NewInOpen(c, seg, cfg, env))
  {
    hide CheckAck, SeqBytes, SeqBetween;
    var seg := Segment(false, true, false, false, 15, U16(c.rdp.sndNxt - 1), [7]);
    InWindowOffset(15, 10, 0);
    EndPasses(c.rdp.sndUna - 1 - c.rdp.opt.window * 2, c.rdp.sndNxt - 1);
    assert NewInOpen(c, seg, cfg, env) == NewAcked(c, seg, cfg, env);
  }

  // The reset test

  /**
   The unwrapped comparison in the RST branch recognises the next number unless rcv_cur is 0xFFFF; a reset it does not
   recognise leaves the connection in its state, one that it does closes it or makes it half-closed.
   */
  lemma RstInSequence(c: Conn, seg: Segment, cfg: Config, env: Env)
    requires c.open && c.frdp && c.rdp.state in {SynSent, SynRcvd, Open} && c.rdp.closedBy == {} && seg.rst
    ensures var c' := NewPacket(c, seg, cfg, env).0;
            if seg.seqNr == U16(c.rdp.rcvCur + 1) && c.rdp.rcvCur != 0xFFFF
            then c'.rdp.state == if c.socket && cfg.fastClose then Closed else CloseWait
            else c'.open && c'.rdp.state == c.rdp.state
  {
    assert Userspace in ALL_PARTIES && Timeout in ALL_PARTIES;
  }
}
