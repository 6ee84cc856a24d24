/** No run of any kind overfills a queue: the lengths that the enqueue calls of the code rely on. */
module RdpCapacity {
  import opened Words
  import opened RdpSpec
  import opened RdpQueues
  import opened RdpLife

  /** The application queue, tx_queue and rx_queue hold no more than csp_conn_init and csp_rdp_init made them for. */
  predicate Holds(c: Conn, cfg: Config) {
    |c.rxq| <= cfg.queueLength && |c.rdp.tx| <= cfg.maxWindow && |c.rdp.rx| <= 2 * cfg.maxWindow
  }

  lemma CloseHolds(c: Conn, who: set<Party>, cfg: Config, env: Env)
    requires Holds(c, cfg)
    ensures Holds(ConnClose(c, who, cfg, env), cfg) && Holds(DiscardClose(c, who, cfg, env), cfg)
  {
  }

  lemma {:induction false} FlushHolds(f: Flushed, cfg: Config)
    requires |f.rxq| <= cfg.queueLength
    ensures |Flush(f, cfg).rxq| <= cfg.queueLength && |Flush(f, cfg).rx| <= |f.rx|
    decreases |f.rx|
  {
    if CanDeliver(f) {
      FlushHolds(Deliver(f, cfg), cfg);
    }
  }

  lemma {:induction false} FlushEackShrinks(tx: seq<TxElem>, words: seq<uint16>, packetTimeout: uint32, now: uint32)
    ensures |FlushEack(tx, words, packetTimeout, now)| <= |tx|
    decreases |tx|
  {
    if tx != [] {
      FlushEackShrinks(tx[..|tx| - 1], words, packetTimeout, now);
    }
  }

  lemma {:induction false} SweepShrinks(tx: seq<TxElem>, r: Rdp, now: uint32)
    ensures |SweepTx(tx, r, now)| <= |tx|
    decreases |tx|
  {
    if tx != [] {
      SweepShrinks(tx[..|tx| - 1], r, now);
    }
  }

  lemma AckHolds(c: Conn, cfg: Config, env: Env)
    requires Holds(c, cfg)
    ensures Holds(CheckAck(c, cfg, env), cfg) && Holds(SendEack(c, cfg, env), cfg)
  {
    hide ShouldAck, SeqBytes;
  }

  lemma InOrderHolds(c: Conn, seg: Segment, cfg: Config, env: Env)
    requires Holds(c, cfg)
    ensures Holds(NewInOrder(c, seg, cfg, env), cfg)
  {
    hide CheckAck, Flush;
    if |c.rxq| < cfg.queueLength {
      var c1 := c.(rxq := c.rxq + [Data(seg.body)], rdp := c.rdp.(rcvCur := seg.seqNr));
      AckHolds(c1, cfg, env);
      var c2 := CheckAck(c1, cfg, env);
      FlushHolds(Flushed(c2.rdp.rx, c2.rdp.rcvCur, c2.rxq), cfg);
    }
  }

  lemma OutOfOrderHolds(c: Conn, seg: Segment, cfg: Config, env: Env)
    requires Holds(c, cfg)
    ensures Holds(NewOutOfOrder(c, seg, cfg, env), cfg)
  {
    hide CheckAck, SendEack, Search;
    SearchKeeps(c.rdp.rx, seg.seqNr);
    AckHolds(c.(rdp := c.rdp.(rx := RxAdd(c.rdp.rx, seg, cfg).1)), cfg, env);
  }

  lemma AckedHolds(c: Conn, seg: Segment, cfg: Config, env: Env)
    requires Holds(c, cfg)
    ensures Holds(NewAcked(c, seg, cfg, env), cfg)
  {
    hide NewInOrder, NewOutOfOrder, FlushEack;
    var c1 := c.(rdp := c.rdp.(sndUna := U16(seg.ackNr + 1)));
    FlushEackShrinks(c1.rdp.tx, Words16(seg.body), c1.rdp.opt.packetTimeout, env.now);
    InOrderHolds(c1, seg, cfg, env);
    OutOfOrderHolds(c1, seg, cfg, env);
  }

  lemma OpenHolds(c: Conn, seg: Segment, cfg: Config, env: Env)
    requires Holds(c, cfg)
    ensures Holds(NewInOpen(c, seg, cfg, env), cfg)
  {
    hide NewAcked, DiscardClose, SendEack, AckInRange, SeqBetween;
    var c1 := c.(rdp := c.rdp.(state := Open));
    CloseHolds(c, {Protocol}, cfg, env);
    CloseHolds(c1, {Protocol}, cfg, env);
    AckHolds(c, cfg, env);
    AckedHolds(c, seg, cfg, env);
    AckedHolds(c1.(socket := false), seg, cfg, env);
  }

  lemma RstHolds(c: Conn, seg: Segment, cfg: Config, env: Env)
    requires Holds(c, cfg)
    ensures Holds(NewRst(c, seg, cfg, env).0, cfg)
  {
    hide DiscardClose;
    var c1 := if seg.ack then c.(rdp := c.rdp.(sndUna := U16(seg.ackNr + 1))) else c;
    CloseHolds(c1, ClosedByPeer(seg, cfg), cfg, env);
    var c2 := SendRst(c1.(timestamp := env.now, rdp := c1.rdp.(state := CloseWait)), true, cfg, env);
    CloseHolds(c2, {Protocol} + if cfg.fastClose then {Timeout} else {}, cfg, env);
  }

  lemma OpeningHolds(c: Conn, seg: Segment, cfg: Config, env: Env)
    requires Holds(c, cfg)
    ensures Holds(NewInClosed(c, seg, cfg, env), cfg) && Holds(NewInSynSent(c, seg, cfg, env), cfg)
    ensures Holds(NewInCloseWait(c, seg, cfg, env), cfg)
  {
    hide DiscardClose, ReadOptions, AckInRange;
    CloseHolds(c, {Protocol}, cfg, env);
    CloseHolds(SendRst(c, false, cfg, env), {Protocol}, cfg, env);
  }

  lemma PacketHolds(c: Conn, seg: Segment, cfg: Config, env: Env)
    requires Holds(c, cfg)
    ensures Holds(NewPacket(c, seg, cfg, env).0, cfg)
  {
    hide NewRst, NewInClosed, NewInSynSent, NewInOpen, NewInCloseWait, Holds;
    RstHolds(c, seg, cfg, env);
    OpeningHolds(c, seg, cfg, env);
    OpenHolds(c, seg, cfg, env);
  }

  lemma TimeoutsHold(c: Conn, cfg: Config, env: Env)
    requires Holds(c, cfg)
    ensures Holds(CheckTimeouts(c, cfg, env), cfg)
  {
    hide ConnClose, CheckAck, SweepTx, SweepOut, TimeAfter;
    CloseHolds(c, ALL_PARTIES, cfg, env);
    CloseHolds(c, {Protocol, Timeout}, cfg, env);
    SweepShrinks(c.rdp.tx, c.rdp, env.now);
    AckHolds(c.(out := c.out + SweepOut(c.rdp.tx, c.rdp, env.now),
                rdp := c.rdp.(tx := SweepTx(c.rdp.tx, c.rdp, env.now))), cfg, env);
  }

  lemma ConnectHolds(c: Conn, cfg: Config, env: Env)
    requires Holds(c, cfg)
    ensures Holds(ConnectStart(c, cfg, env), cfg) && Holds(ConnectRetry(c, cfg, env), cfg)
  {
    hide OptionBytes;
  }

  lemma GiveUpHolds(c: Conn, cfg: Config, env: Env)
    requires Holds(c, cfg)
    ensures Holds(ConnectFail(c, cfg, env), cfg)
  {
    hide ConnClose;
    CloseHolds(CloseInternal(c, {Protocol}, false, cfg, env).1, {Userspace}, cfg, env);
  }

  lemma UserHolds(c: Conn, payload: seq<byte>, bytes: seq<byte>, cfg: Config, env: Env)
    requires Holds(c, cfg)
    ensures Holds(Read(c, cfg, env), cfg) && Holds(Send(c, payload, cfg, env).1, cfg)
    ensures Holds(NewDatagram(c, bytes, cfg, env), cfg)
  {
    hide ConnClose, CheckAck, ReadyForTx;
    if c.rxq != [] { AckHolds(c.(rxq := c.rxq[1..]), cfg, env); }
    if |c.rxq| < cfg.queueLength { CloseHolds(c.(rxq := c.rxq + [Data(bytes)]), {Userspace}, cfg, env); }
  }

  /** Every event keeps the three queues within their capacities, whatever the state of the connection. */
  lemma HappenHolds(c: Conn, e: Event, cfg: Config, env: Env)
    requires Holds(c, cfg)
    ensures Holds(Happen(c, e, cfg, env), cfg)
  {
    hide NewPacket, ConnClose, CheckTimeouts, Read, ConnectFail, ConnectStart, ConnectRetry, NewDatagram, Send;
    match e
    case Packet(seg) =>
      PacketHolds(c, seg, cfg, env);
      CloseHolds(NewPacket(c, seg, cfg, env).0, {Userspace}, cfg, env);
    case Connect => ConnectHolds(c, cfg, env);
    case Retry => ConnectHolds(c, cfg, env);
    case GiveUp => GiveUpHolds(c, cfg, env);
    case Timeouts => TimeoutsHold(c, cfg, env);
    case UserClose => CloseHolds(c, {Userspace}, cfg, env);
    case UserRead => UserHolds(c, [], [], cfg, env);
    case UserSend(payload) => UserHolds(c, payload, [], cfg, env);
    case Datagram(bytes) => UserHolds(c, [], bytes, cfg, env);
    case Allocate(_, _) =>
  }

  /** In every trace at all, also with late connects, stray segments and any windows, no queue is ever overfull. */
  lemma {:induction false} QueuesNeverOverflow(run: seq<Conn>, hs: seq<Happening>, i: nat, cfg: Config)
    requires IsTrace(run, hs, cfg) && i < |run|
    ensures |run[i].rxq| <= cfg.queueLength
    ensures |run[i].rdp.tx| <= cfg.maxWindow && |run[i].rdp.rx| <= 2 * cfg.maxWindow
  {
    hide Happen, Enabled;
    if i > 0 {
      QueuesNeverOverflow(run, hs, i - 1, cfg);
      assert IsStep(run[i - 1], hs[i - 1], run[i - 1 + 1], cfg);
      HappenHolds(run[i - 1], hs[i - 1].e, SettingsAt(cfg, hs[i - 1]), hs[i - 1].env);
    } else {
      assert run[0] == Fresh(cfg);
    }
  }
}
