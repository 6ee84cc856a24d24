/** Every step of the network keeps the invariant of RdpNetwork; hence RDP delivers in order and loses nothing. */
module RdpDelivery {
  import opened Words
  import opened RdpSpec
  import opened RdpQueues
  import opened RdpNetwork

  // What the invariant depends on

  predicate SameSender(s: View, s': View) {
    && s'.accepted == s.accepted
    && s'.rdp.sndNxt == s.rdp.sndNxt && s'.rdp.sndUna == s.rdp.sndUna && s'.rdp.sndIss == s.rdp.sndIss
    && s'.rdp.tx == s.rdp.tx && s'.rdp.opt == s.rdp.opt
  }

  predicate SameReceiver(r: View, r': View) {
    && r'.delivered == r.delivered
    && r'.rdp.rcvCur == r.rdp.rcvCur && r'.rdp.rcvIrs == r.rdp.rcvIrs && r'.rdp.rx == r.rdp.rx
  }

  lemma HalfDepends(s: View, s': View, r: View, r': View, data: set<Tagged>, acks: set<Tagged>)
    requires Half(s, r, data, acks) && SameSender(s, s') && SameReceiver(r, r')
    ensures Half(s', r', data, acks)
  {
    assert forall k :: Wire(s', k) == Wire(s, k);
    assert Una(s') == Una(s);
    forall e | e in s'.rdp.tx ensures TxElemOk(s', e) { assert TxElemOk(s, e); }
    forall e | e in r'.rdp.rx ensures RxElemOk(s', r', e) { assert RxElemOk(s, r, e); }
    forall k | |r'.delivered| <= k < |s'.accepted| ensures InTx(s', k) || InRx(s', r', k) {
      assert InTx(s, k) || InRx(s, r, k);
    }
    DataStable(s, s', data);
    AcksStable(s, r, s', r', acks);
  }

  lemma DataStable(s: View, s': View, data: set<Tagged>)
    requires DataOk(s, data) && s'.rdp.sndIss == s.rdp.sndIss && s.accepted <= s'.accepted
    ensures DataOk(s', data)
  {
    forall x | x in data ensures DataSegOk(s', x) {
      assert DataSegOk(s, x);
    }
  }

  lemma AckSegStable(s: View, r: View, s': View, r': View, y: Tagged)
    requires AckSegOk(s, r, y) && s'.rdp.sndIss == s.rdp.sndIss
    requires |s.accepted| <= |s'.accepted| && |r.delivered| <= |r'.delivered|
    requires forall k | k < |s.accepted| && InRx(s, r, k) :: Held(s', r', k)
    ensures AckSegOk(s', r', y)
  {
    if !y.seg.syn && y.seg.eak {
      forall w | w in Words16(y.seg.body)
        ensures EackIndex(y, w) < |s'.accepted| && Held(s', r', EackIndex(y, w))
      {
        assert Held(s, r, EackIndex(y, w));
      }
    }
  }

  lemma AcksStable(s: View, r: View, s': View, r': View, acks: set<Tagged>)
    requires AcksOk(s, r, acks) && s'.rdp.sndIss == s.rdp.sndIss
    requires |s.accepted| <= |s'.accepted| && |r.delivered| <= |r'.delivered|
    requires forall k | k < |s.accepted| && InRx(s, r, k) :: Held(s', r', k)
    ensures AcksOk(s', r', acks)
  {
    forall y | y in acks ensures AckSegOk(s', r', y) {
      AckSegStable(s, r, s', r', y);
    }
  }

  // The sender's window

  /** The wrapping window test of the sender is the comparison of unbounded numbers. */
  lemma ReadyIsRoom(s: View, r: View, window: int)
    requires Counters(s, r) && window == s.rdp.opt.window && 1 <= window && 2 * window < 0x8000
    ensures !SeqAfter(s.rdp.sndNxt, s.rdp.sndUna + window - 1) <==> |s.accepted| < Una(s) + window
  {
    var base, n, u := s.rdp.sndIss + 1, |s.accepted|, Una(s);
    UnaWire(s);
    AddMod(base + u, window - 1);
    BeforeIsLess(base + u + window - 1, base + n);
    BeforeMod(s.rdp.sndUna + window - 1, s.rdp.sndNxt);
    AddMod(base + n, 0);
    hide U16, SeqBefore;
  }

  lemma AcceptKeeps(s: View, s': View, r: View, e: TxElem, data: set<Tagged>, acks: set<Tagged>)
    requires Half(s, r, data, acks) && 1 <= s.rdp.opt.window && 2 * s.rdp.opt.window < 0x8000
    requires |s.accepted| < Una(s) + s.rdp.opt.window
    requires s'.rdp == s.rdp.(tx := s.rdp.tx + [e], sndNxt := U16(s.rdp.sndNxt + 1))
    requires Plain(e.seg) && !e.seg.eak && e.seg.seqNr == s.rdp.sndNxt
    requires s'.accepted == s.accepted + [e.seg.body] && s'.delivered == s.delivered
    ensures Half(s', r, data, acks) && (TxFresh(s) ==> TxFresh(s'))
  {
    hide U16, AckSegOk, DataSegOk;
    var base, n := s.rdp.sndIss + 1, |s.accepted|;
    AddMod(base + n, 1);
    UnaWire(s);
    NumberIsIndex(base, n + 1, Una(s));
    assert Una(s') == Una(s);
    forall f | f in s'.rdp.tx
      ensures TxElemOk(s', f) && (f in s.rdp.tx ==> TxIndex(s', f) == TxIndex(s, f)) &&
              (f !in s.rdp.tx ==> TxIndex(s', f) == n)
    {
      if f in s.rdp.tx {
        assert TxElemOk(s, f);
        TxWire(s, f);
        NumberIsIndex(base, n + 1, TxIndex(s, f));
      } else {
        NumberIsIndex(base, n + 1, n);
      }
    }
    forall k | |r.delivered| <= k < n + 1 ensures InTx(s', k) || InRx(s', r, k) {
      if k < n && InTx(s, k) {
        var f :| f in s.rdp.tx && f.seg.seqNr == Wire(s, k);
        assert f in s'.rdp.tx && f.seg.seqNr == Wire(s', k);
      } else if k == n {
        assert e in s'.rdp.tx && e.seg.seqNr == Wire(s', k);
      }
    }
    forall f | f in r.rdp.rx ensures RxElemOk(s', r, f) { assert RxElemOk(s, r, f); }
    DataStable(s, s', data);
    AcksStable(s, r, s', r, acks);
  }

  // Acknowledgements

  /** An acknowledgement within the age bound moves snd_una to the number it stands for, possibly backwards. */
  lemma StoreAckKeeps(s: View, s': View, r: View, y: Tagged, data: set<Tagged>, acks: set<Tagged>)
    requires Half(s, r, data, acks) && TxFresh(s) && 2 * s.rdp.opt.window < 0x8000
    requires AckSegOk(s, r, y) && !y.seg.syn && |s.accepted| - y.a < 0x8000
    requires s' == s.(rdp := s.rdp.(sndUna := U16(y.seg.ackNr + 1)))
    ensures Half(s', r, data, acks) && Una(s') == y.a
  {
    hide U16, DataSegOk, EackOk;
    var base, n := s.rdp.sndIss + 1, |s.accepted|;
    AddMod(base + y.a - 1, 1);
    NumberIsIndex(base, n, y.a);
    forall e | e in s'.rdp.tx ensures TxElemOk(s', e) { assert TxElemOk(s, e) && TxIndex(s', e) == TxIndex(s, e); }
    forall e | e in r.rdp.rx ensures RxElemOk(s', r, e) { assert RxElemOk(s, r, e); }
    forall k | |r.delivered| <= k < n ensures InTx(s', k) || InRx(s', r, k) {
      assert InTx(s, k) || InRx(s, r, k);
    }
    DataStable(s, s', data);
    AcksStable(s, r, s', r, acks);
  }

  /** Replacing the retransmission queue is harmless when the segments that matter stay. */
  lemma ReplaceTxKeeps(s: View, s': View, r: View, data: set<Tagged>, acks: set<Tagged>)
    requires Half(s, r, data, acks)
    requires s' == s.(rdp := s.rdp.(tx := s'.rdp.tx))
    requires forall e' | e' in s'.rdp.tx :: exists e :: e in s.rdp.tx && Resent(e, e')
    requires forall k | |r.delivered| <= k < |s.accepted| && InTx(s, k) :: InTx(s', k) || InRx(s, r, k)
    ensures Half(s', r, data, acks)
  {
    assert Una(s') == Una(s);
    forall e' | e' in s'.rdp.tx ensures TxElemOk(s', e') {
      var e :| e in s.rdp.tx && Resent(e, e');
      assert TxElemOk(s, e) && TxIndex(s', e') == TxIndex(s, e);
    }
    forall e | e in r.rdp.rx ensures RxElemOk(s', r, e) { assert RxElemOk(s, r, e); }
    forall k | |r.delivered| <= k < |s.accepted| ensures InTx(s', k) || InRx(s', r, k) {
      assert InTx(s, k) || InRx(s, r, k);
    }
    DataStable(s, s', data);
    AcksStable(s, r, s', r, acks);
  }

  lemma {:induction false} FlushEackMembers(tx: seq<TxElem>, words: seq<uint16>, packetTimeout: uint32, now: uint32)
    ensures var tx' := FlushEack(tx, words, packetTimeout, now);
            && (forall e' | e' in tx' :: exists e :: e in tx && e'.seg == e.seg)
            && (forall e | e in tx && e.seg.seqNr !in words :: exists e' :: e' in tx' && e'.seg == e.seg)
  {
    if tx != [] {
      var last, init := tx[|tx| - 1], tx[..|tx| - 1];
      FlushEackMembers(init, words, packetTimeout, now);
      assert tx == init + [last];
      var tx' := FlushEack(tx, words, packetTimeout, now);
      var kept := FlushEack(init, words, packetTimeout, now);
      assert tx' == kept + EackElem(last, words, packetTimeout, now);
      forall e' | e' in tx' ensures exists e :: e in tx && e'.seg == e.seg {
        if e' in kept {
          var e :| e in init && e'.seg == e.seg;
          assert e in tx;
        } else {
          assert last in tx && e'.seg == last.seg;
        }
      }
      forall e | e in tx && e.seg.seqNr !in words ensures exists e' :: e' in tx' && e'.seg == e.seg {
        if e in init {
          var e' :| e' in kept && e'.seg == e.seg;
          assert e' in tx';
        } else {
          var e' := Touch(last, words, packetTimeout, now);
          assert e' in tx' && e'.seg == e.seg;
        }
      }
    }
  }

  /** A listed number that stands for an undelivered payload stands for one in the reorder queue. */
  lemma EackedIsHeld(s: View, r: View, y: Tagged, w: uint16, k: int)
    requires Counters(s, r) && 2 * s.rdp.opt.window < 0x8000
    requires y.seg.ackNr == Wire(s, y.a - 1) && 0 <= y.a <= |r.delivered| && |s.accepted| - y.a < 0x8000
    requires w in Words16(y.seg.body) && EackOk(s, r, y)
    requires w == Wire(s, k) && |r.delivered| <= k < |s.accepted|
    ensures InRx(s, r, k)
  {
    hide U16, Words16;
    AheadIsNumber(s.rdp.sndIss + 1, y.a - 1, w);
    assert Held(s, r, EackIndex(y, w));
    WireEqual(s, EackIndex(y, w), k);
  }

  /** An EACK frees only payloads that the receiver has, so nothing is lost. */
  lemma EackKeeps(s: View, s': View, r: View, y: Tagged, now: uint32, data: set<Tagged>, acks: set<Tagged>)
    requires Half(s, r, data, acks) && 2 * s.rdp.opt.window < 0x8000
    requires AckSegOk(s, r, y) && !y.seg.syn && y.seg.eak && |s.accepted| - y.a < 0x8000
    requires s' == s.(rdp := s.rdp.(tx := FlushEack(s.rdp.tx, Words16(y.seg.body), s.rdp.opt.packetTimeout, now)))
    ensures Half(s', r, data, acks)
  {
    hide U16, FlushEack, Words16, EackOk, TxOk, RxView, AcksOk, DataOk, Prefix, NothingLost;
    var words := Words16(y.seg.body);
    FlushEackMembers(s.rdp.tx, words, s.rdp.opt.packetTimeout, now);
    forall k | |r.delivered| <= k < |s.accepted| && InTx(s, k) ensures InTx(s', k) || InRx(s, r, k) {
      EackKeepsOne(s, s', r, y, k);
    }
    forall e' | e' in s'.rdp.tx ensures exists e :: e in s.rdp.tx && Resent(e, e') {
      var e :| e in s.rdp.tx && e'.seg == e.seg;
      assert Resent(e, e');
    }
    ReplaceTxKeeps(s, s', r, data, acks);
  }

  lemma EackKeepsOne(s: View, s': View, r: View, y: Tagged, k: int)
    requires Counters(s, r) && 2 * s.rdp.opt.window < 0x8000
    requires AckSegOk(s, r, y) && !y.seg.syn && y.seg.eak && |s.accepted| - y.a < 0x8000
    requires forall e | e in s.rdp.tx && e.seg.seqNr !in Words16(y.seg.body) ::
               exists e' :: e' in s'.rdp.tx && e'.seg == e.seg
    requires s'.rdp.sndIss == s.rdp.sndIss
    requires |r.delivered| <= k < |s.accepted| && InTx(s, k)
    ensures InTx(s', k) || InRx(s, r, k)
  {
    hide U16, Words16, EackOk;
    var e :| e in s.rdp.tx && e.seg.seqNr == Wire(s, k);
    if e.seg.seqNr in Words16(y.seg.body) {
      EackedIsHeld(s, r, y, e.seg.seqNr, k);
    } else {
      var e' :| e' in s'.rdp.tx && e'.seg == e.seg;
      assert e'.seg.seqNr == Wire(s', k);
    }
  }

  // Timeouts

  /** e' is e, perhaps acknowledging more. */
  predicate Resent(e: TxElem, e': TxElem) {
    e'.seg == e.seg.(ackNr := e'.seg.ackNr)
  }

  lemma {:induction false} SweepKeepsOld(tx: seq<TxElem>, r: Rdp, now: uint32, e': TxElem)
    requires e' in SweepTx(tx, r, now)
    ensures exists e :: e in tx && !SeqBefore(e.seg.seqNr, r.sndUna) && Resent(e, e')
  {
    hide SeqBefore, TimeAfter;
    var last, init := tx[|tx| - 1], tx[..|tx| - 1];
    assert tx == init + [last];
    if e' in SweepTx(init, r, now) {
      SweepKeepsOld(init, r, now, e');
      var e :| e in init && !SeqBefore(e.seg.seqNr, r.sndUna) && Resent(e, e');
      assert e in tx;
    } else {
      assert last in tx && Resent(last, e');
    }
  }

  lemma {:induction false} SweepKeepsUnacked(tx: seq<TxElem>, r: Rdp, now: uint32, e: TxElem)
    requires e in tx && !SeqBefore(e.seg.seqNr, r.sndUna)
    ensures exists e' :: e' in SweepTx(tx, r, now) && Resent(e, e')
  {
    hide SeqBefore, TimeAfter;
    var last, init := tx[|tx| - 1], tx[..|tx| - 1];
    assert tx == init + [last];
    if e in init {
      SweepKeepsUnacked(init, r, now, e);
      var e' :| e' in SweepTx(init, r, now) && Resent(e, e');
      assert e' in SweepTx(tx, r, now);
    } else {
      var e' := SweepElem(last, r, now)[0];
      assert e' in SweepTx(tx, r, now) && Resent(e, e');
    }
  }

  lemma {:induction false} SweepSendsOld(tx: seq<TxElem>, r: Rdp, now: uint32, seg: Segment)
    requires seg in SweepOut(tx, r, now)
    ensures exists e :: e in tx && !SeqBefore(e.seg.seqNr, r.sndUna) && seg == e.seg.(ackNr := r.rcvCur)
  {
    hide SeqBefore, TimeAfter;
    var last, init := tx[|tx| - 1], tx[..|tx| - 1];
    assert tx == init + [last];
    if seg in SweepOut(init, r, now) {
      SweepSendsOld(init, r, now, seg);
      var e :| e in init && !SeqBefore(e.seg.seqNr, r.sndUna) && seg == e.seg.(ackNr := r.rcvCur);
      assert e in tx;
    } else {
      assert last in tx && seg == last.seg.(ackNr := r.rcvCur);
    }
  }

  /** Within the age bound, the sweep frees exactly the elements below snd_una. */
  lemma SweptIsAcked(s: View, r: View, e: TxElem)
    requires Counters(s, r) && TxElemOk(s, e)
    ensures SeqBefore(e.seg.seqNr, s.rdp.sndUna) <==> TxIndex(s, e) < Una(s)
  {
    var base := s.rdp.sndIss + 1;
    UnaWire(s);
    TxWire(s, e);
    BeforeIsLess(base + TxIndex(s, e), base + Una(s));
  }

  lemma SweepKeeps(s: View, s': View, r: View, now: uint32, data: set<Tagged>, acks: set<Tagged>)
    requires Half(s, r, data, acks) && 2 * s.rdp.opt.window < 0x8000
    requires s' == s.(rdp := s.rdp.(tx := SweepTx(s.rdp.tx, s.rdp, now)))
    ensures Half(s', r, data, acks) && TxFresh(s')
  {
    hide U16, SeqBefore, SweepTx, AckSegOk, DataSegOk;
    forall k | |r.delivered| <= k < |s.accepted| && InTx(s, k) ensures InTx(s', k) || InRx(s, r, k) {
      var e :| e in s.rdp.tx && e.seg.seqNr == Wire(s, k);
      assert TxElemOk(s, e);
      TxWire(s, e);
      WireEqual(s, TxIndex(s, e), k);
      SweptIsAcked(s, r, e);
      SweepKeepsUnacked(s.rdp.tx, s.rdp, now, e);
      var e' :| e' in s'.rdp.tx && Resent(e, e');
      assert e'.seg.seqNr == Wire(s', k);
    }
    forall e' | e' in s'.rdp.tx
      ensures exists e :: e in s.rdp.tx && Resent(e, e')
      ensures TxIndex(s', e') >= Una(s')
    {
      SweepKeepsOld(s.rdp.tx, s.rdp, now, e');
      var e :| e in s.rdp.tx && !SeqBefore(e.seg.seqNr, s.rdp.sndUna) && Resent(e, e');
      assert TxElemOk(s, e);
      SweptIsAcked(s, r, e);
    }
    ReplaceTxKeeps(s, s', r, data, acks);
  }

  // Receiving data

  /** A young segment whose number passes the window test is what its number says: not an alias of an old one. */
  lemma ArrivalIndex(s: View, r: View, x: Tagged, window: int)
    requires Counters(s, r) && window == s.rdp.opt.window && 1 <= window && 2 * window < 0x8000
    requires x.seg.seqNr == Wire(s, x.k) && x.k <= |s.accepted| && |r.delivered| - x.k < 0x8000
    requires 1 <= Off(x.seg.seqNr, r.rdp.rcvCur) <= 2 * window
    ensures x.k == RxIndex(r, x.seg)
  {
    hide U16;
    RxWire(s, r, x.seg);
    WireEqual(s, RxIndex(r, x.seg), x.k);
  }

  /** Queueing an out-of-order segment, or refusing it as a duplicate. */
  lemma QueueKeeps(s: View, r: View, r': View, x: Tagged, cfg: Config, data: set<Tagged>, acks: set<Tagged>)
    requires Half(s, r, data, acks) && SaneWindow(s.rdp.opt.window)
    requires DataSegOk(s, x) && !x.seg.syn && !x.seg.eak && x.seg.body != [] && |r.delivered| - x.k < 0x8000
    requires 2 <= Off(x.seg.seqNr, r.rdp.rcvCur) <= 2 * s.rdp.opt.window
    requires r' == r.(rdp := r.rdp.(rx := RxAdd(r.rdp.rx, x.seg, cfg).1))
    ensures Half(s, r', data, acks)
  {
    hide U16, RxAdd, TxElemOk, AckSegOk;
    ArrivalIndex(s, r, x, s.rdp.opt.window);
    AddKeeps(r.rdp.rx, x.seg, r.rdp.rcvCur, s.rdp.opt.window, cfg);
    AddMembers(r.rdp.rx, x.seg, cfg);
    forall e | e in r'.rdp.rx ensures RxElemOk(s, r', e) {
      if e in r.rdp.rx {
        assert RxElemOk(s, r, e);
      }
    }
    forall k | InRx(s, r, k) ensures InRx(s, r', k) {
      var e :| e in r.rdp.rx && e.seqNr == Wire(s, k);
      assert e in r'.rdp.rx;
    }
    AcksStable(s, r, s, r', acks);
  }

  lemma AddMembers(rx: seq<Segment>, seg: Segment, cfg: Config)
    ensures forall e | e in RxAdd(rx, seg, cfg).1 :: e in rx || e == seg
    ensures forall e | e in rx :: e in RxAdd(rx, seg, cfg).1
  {
    SearchKeeps(rx, seg.seqNr);
  }

  function RunPayloads(run: seq<Segment>): seq<Payload> {
    seq(|run|, i requires 0 <= i < |run| => run[i].body)
  }

  /** The state of the receiving side after a segment in sequence and the flush that follows it. */
  predicate Advanced(r: View, r': View, seg: Segment, f: Flushed, run: seq<Segment>) {
    && r'.rdp == r.rdp.(rx := f.rx, rcvCur := f.rcvCur)
    && r'.delivered == r.delivered + [seg.body] + RunPayloads(run)
  }

  /** What FlushIsExact says, with elements for multisets. */
  ghost predicate TakesOut(rx: seq<Segment>, cur: uint16, f: Flushed, run: seq<Segment>) {
    && (forall i | 0 <= i < |run| :: run[i].seqNr == U16(cur + 1 + i) && run[i] in rx)
    && f.rcvCur == U16(cur + |run|)
    && (forall e | e in rx :: e in f.rx || e in run)
    && (forall e | e in f.rx :: e in rx)
  }

  lemma FlushTakesOut(f: Flushed, cfg: Config)
    requires |f.rxq| <= cfg.queueLength
    ensures TakesOut(f.rx, f.rcvCur, Flush(f, cfg), Run(f.rx, f.rcvCur))
    ensures |Run(f.rx, f.rcvCur)| <= |f.rx|
  {
    hide Run, Flush;
    FlushIsExact(f, cfg);
    var g, run := Flush(f, cfg), Run(f.rx, f.rcvCur);
    assert |multiset(g.rx) + multiset(run)| == |multiset(f.rx)|;
    forall i | 0 <= i < |run| ensures run[i] in f.rx {
      assert run[i] in multiset(run);
      assert run[i] in multiset(f.rx);
    }
    forall e | e in f.rx ensures e in g.rx || e in run {
      assert e in multiset(f.rx);
      assert e in multiset(g.rx) || e in multiset(run);
    }
    forall e | e in g.rx ensures e in f.rx {
      assert e in multiset(g.rx);
      assert e in multiset(f.rx);
    }
  }

  /** The i-th segment of the run carries the i-th payload after the one that arrived. */
  lemma RunElem(s: View, r: View, cur: uint16, rx: seq<Segment>, run: seq<Segment>, i: nat)
    requires Counters(s, r) && 2 * s.rdp.opt.window < 0x8000
    requires rx == r.rdp.rx && cur == Wire(s, |r.delivered|)
    requires forall e | e in rx :: RxElemOk(s, r, e)
    requires i < |run| <= 0x8000 && run[i] in rx && run[i].seqNr == U16(cur + 1 + i)
    ensures |r.delivered| + 1 + i < |s.accepted| && run[i].body == s.accepted[|r.delivered| + 1 + i] &&
            run[i].body != []
    ensures run[i].seqNr == Wire(s, |r.delivered| + 1 + i)
  {
    hide U16;
    var d := |r.delivered|;
    AddMod(s.rdp.sndIss + 1 + d, 1 + i);
    assert run[i].seqNr == Wire(s, d + 1 + i);
    assert RxElemOk(s, r, run[i]);
    RxWire(s, r, run[i]);
    WireEqual(s, RxIndex(r, run[i]), d + 1 + i);
  }

  lemma AdvancePrefix(s: View, r: View, r': View, seg: Segment, f: Flushed, run: seq<Segment>)
    requires Counters(s, r) && Prefix(s, r) && RxView(s, r) && 2 * s.rdp.opt.window < 0x8000
    requires |r.delivered| < |s.accepted| && seg.body == s.accepted[|r.delivered|] && seg.body != []
    requires seg.seqNr == Wire(s, |r.delivered|) && |run| <= 0x8000
    requires TakesOut(r.rdp.rx, seg.seqNr, f, run) && Advanced(r, r', seg, f, run)
    ensures Counters(s, r') && Prefix(s, r')
    ensures forall i | 0 <= i < |run| :: run[i].seqNr == Wire(s, |r.delivered| + 1 + i)
  {
    hide U16, TxElemOk;
    var d := |r.delivered|;
    forall i | 0 <= i < |run|
      ensures d + 1 + i < |s.accepted| && run[i].body == s.accepted[d + 1 + i] && run[i].body != []
      ensures run[i].seqNr == Wire(s, d + 1 + i)
    {
      RunElem(s, r, seg.seqNr, r.rdp.rx, run, i);
    }
    if |run| > 0 {
      RunElem(s, r, seg.seqNr, r.rdp.rx, run, |run| - 1);
    }
    assert r'.delivered == s.accepted[..d + 1 + |run|];
    NonEmptyAfter(r, r', seg, f, run);
    AddMod(s.rdp.sndIss + 1 + d, |run|);
  }

  lemma NonEmptyAfter(r: View, r': View, seg: Segment, f: Flushed, run: seq<Segment>)
    requires Advanced(r, r', seg, f, run) && seg.body != []
    requires forall p | p in r.delivered :: p != []
    requires forall i | 0 <= i < |run| :: run[i].body != []
    ensures forall p | p in r'.delivered :: p != []
  {
    forall p | p in r'.delivered ensures p != [] {
      if p in RunPayloads(run) {
        var i :| 0 <= i < |run| && RunPayloads(run)[i] == p;
      }
    }
  }

  /** What stays in the reorder queue keeps its unbounded number. */
  lemma StaysElem(s: View, r: View, r': View, e: Segment)
    requires Counters(s, r) && Counters(s, r') && 2 * s.rdp.opt.window < 0x8000
    requires s.rdp.sndIss == s.rdp.sndIss && |r.delivered| <= |r'.delivered|
    requires RxElemOk(s, r, e) && 2 <= Off(e.seqNr, r'.rdp.rcvCur) <= 2 * s.rdp.opt.window
    ensures RxElemOk(s, r', e)
  {
    hide U16;
    RxWire(s, r, e);
    RxWire(s, r', e);
    WireEqual(s, RxIndex(r, e), RxIndex(r', e));
  }

  /** A segment in sequence, and the run behind it, move from the reorder queue to the application. */
  lemma DeliverKeeps(s: View, r: View, r': View, x: Tagged, f: Flushed, run: seq<Segment>, data: set<Tagged>,
                     acks: set<Tagged>)
    requires Half(s, r, data, acks) && 1 <= s.rdp.opt.window && 2 * s.rdp.opt.window < 0x8000
    requires DataSegOk(s, x) && !x.seg.syn && !x.seg.eak && x.seg.body != [] && x.k == |r.delivered|
    requires TakesOut(r.rdp.rx, x.seg.seqNr, f, run) && Advanced(r, r', x.seg, f, run) && |run| <= 0x8000
    requires Distinct(f.rx) && InWindow(f.rx, f.rcvCur, 2, s.rdp.opt.window)
    ensures Half(s, r', data, acks)
  {
    hide U16, TxElemOk, AckSegOk;
    AdvancePrefix(s, r, r', x.seg, f, run);
    forall e | e in r'.rdp.rx ensures RxElemOk(s, r', e) {
      assert RxElemOk(s, r, e);
      StaysElem(s, r, r', e);
    }
    forall k | k < |s.accepted| && InRx(s, r, k) ensures Held(s, r', k) {
      HeldAfterFlush(s, r, r', f, run, k);
    }
    forall k | |r'.delivered| <= k < |s.accepted| ensures InTx(s, k) || InRx(s, r', k) {
      assert InTx(s, k) || InRx(s, r, k);
    }
    AcksStable(s, r, s, r', acks);
  }

  lemma HeldAfterFlush(s: View, r: View, r': View, f: Flushed, run: seq<Segment>, k: int)
    requires Counters(s, r) && RxView(s, r) && 2 * s.rdp.opt.window < 0x8000
    requires forall e | e in r.rdp.rx :: e in f.rx || e in run
    requires r'.rdp.rx == f.rx && |r'.delivered| == |r.delivered| + 1 + |run|
    requires forall i | 0 <= i < |run| :: run[i].seqNr == Wire(s, |r.delivered| + 1 + i)
    requires |run| <= 0x8000 && k < |s.accepted| && InRx(s, r, k)
    ensures Held(s, r', k)
  {
    hide U16, RxElemOk;
    var e :| e in r.rdp.rx && e.seqNr == Wire(s, k);
    if e in f.rx {
      assert InRx(s, r', k);
    } else if k >= |r.delivered| {
      var i :| 0 <= i < |run| && run[i] == e;
      WireEqual(s, k, |r.delivered| + 1 + i);
    }
  }

  // Sent segments

  /** A segment the endpoint x sends to y is true of both directions. */
  ghost predicate OutOk(x: View, y: View, seg: Segment) {
    DataSegOk(x, TagOf(x, seg)) && AckSegOk(y, x, TagOf(x, seg))
  }

  lemma TagIsTrue(x: View, y: View, seg: Segment, k: int, a: int)
    requires x.rdp.sndNxt == Wire(x, |x.accepted|) && x.rdp.rcvCur == Wire(y, |x.delivered| - 1)
    requires seg.seqNr == Wire(x, k) && 0 <= |x.accepted| - k < 0x1_0000
    requires seg.ackNr == Wire(y, a - 1) && 0 <= |x.delivered| - a < 0x1_0000
    ensures TagOf(x, seg) == Tagged(seg, k, a)
  {
    hide U16;
    NumberIsIndex(x.rdp.sndIss + 1, |x.accepted|, k);
    NumberIsIndex(y.rdp.sndIss + 1, |x.delivered| - 1, a - 1);
  }

  lemma ControlOk(x: View, y: View, seg: Segment, a: int)
    requires x.rdp.sndNxt == Wire(x, |x.accepted|) && x.rdp.rcvCur == Wire(y, |x.delivered| - 1)
    requires Plain(seg) && seg.seqNr == x.rdp.sndNxt && seg.body == [] && !seg.eak
    requires seg.ackNr == Wire(y, a - 1) && 0 <= a && 0 <= |x.delivered| - a < 0x1_0000
    ensures OutOk(x, y, seg)
  {
    hide U16;
    TagIsTrue(x, y, seg, |x.accepted|, a);
  }

  lemma DataOutOk(x: View, y: View, seg: Segment, k: int)
    requires x.rdp.sndNxt == Wire(x, |x.accepted|) && x.rdp.rcvCur == Wire(y, |x.delivered| - 1)
    requires Plain(seg) && !seg.eak && seg.ackNr == x.rdp.rcvCur
    requires 0 <= k < |x.accepted| && |x.accepted| - k < 0x1_0000
    requires seg.seqNr == Wire(x, k) && seg.body == x.accepted[k]
    ensures OutOk(x, y, seg)
  {
    hide U16;
    TagIsTrue(x, y, seg, k, |x.delivered|);
  }

  lemma {:induction false} SeqBytesAt(rx: seq<Segment>, j: nat)
    requires j < |rx|
    ensures Read16(SeqBytes(rx), 2 * j) == rx[j].seqNr
  {
    var init := rx[..|rx| - 1];
    if j < |init| {
      SeqBytesAt(init, j);
    }
  }

  /** An EACK lists exactly the numbers in the reorder queue, in queue order. */
  lemma EackLists(rx: seq<Segment>)
    ensures |Words16(SeqBytes(rx))| == |rx|
    ensures forall j | 0 <= j < |rx| :: Words16(SeqBytes(rx))[j] == rx[j].seqNr
  {
    forall j | 0 <= j < |rx| ensures Words16(SeqBytes(rx))[j] == rx[j].seqNr {
      SeqBytesAt(rx, j);
    }
  }

  lemma EackOutOk(x: View, y: View, seg: Segment)
    requires x.rdp.sndNxt == Wire(x, |x.accepted|) && Counters(y, x) && RxView(y, x)
    requires Plain(seg) && seg.eak && seg.seqNr == x.rdp.sndNxt && seg.ackNr == x.rdp.rcvCur
    requires seg.body == SeqBytes(x.rdp.rx)
    ensures OutOk(x, y, seg)
  {
    hide U16, Words16, SeqBytes;
    TagIsTrue(x, y, seg, |x.accepted|, |x.delivered|);
    var t := TagOf(x, seg);
    EackLists(x.rdp.rx);
    forall w | w in Words16(seg.body) ensures EackIndex(t, w) < |y.accepted| && Held(y, x, EackIndex(t, w)) {
      var j :| 0 <= j < |x.rdp.rx| && x.rdp.rx[j].seqNr == w;
      var e := x.rdp.rx[j];
      assert e in x.rdp.rx && RxElemOk(y, x, e);
      RxWire(y, x, e);
      assert EackIndex(t, w) == RxIndex(x, e);
      assert InRx(y, x, RxIndex(x, e));
    }
  }

  /** A step that keeps both directions and sends only true segments keeps the invariant. */
  lemma SettleKeeps(n: Net, s: Side, window: uint32)
    requires SaneWindow(window) && Established(n.b.c, window) && Established(s.c.(out := []), window)
    requires Half(ViewOf(s), ViewOf(n.b), n.ab, n.ba) && Half(ViewOf(n.b), ViewOf(s), n.ba, n.ab)
    requires forall seg | seg in s.c.out :: OutOk(ViewOf(s), ViewOf(n.b), seg)
    ensures Inv(Settle(n, s), window)
  {
    hide Counters, Prefix, TxOk, RxView, NothingLost, DataSegOk, AckSegOk;
    var m := Settle(n, s);
    assert ViewOf(m.a) == ViewOf(s);
    forall x | x in m.ab ensures DataSegOk(ViewOf(s), x) && AckSegOk(ViewOf(n.b), ViewOf(s), x) {
      if x in Emitted(s) {
        var seg :| seg in s.c.out && x == TagOf(ViewOf(s), seg);
        assert OutOk(ViewOf(s), ViewOf(n.b), seg);
      }
    }
  }
}
