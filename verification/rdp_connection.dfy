/**
 The connection object of csp_rdp.c and csp_conn.c.  Its methods update the fields and rotate the
 two queues the way the C functions do; each is proved to change the whole state exactly as its
 namesake in RdpSpec says.
 */
module RdpConnection {
  import opened Words
  import opened RdpSpec

  /** One turn of a queue that has already been turned i times. */
  lemma Turn<T>(q: seq<T>, i: nat)
    requires i < |q|
    ensures (q[i..] + q[..i])[0] == q[i]
    ensures (q[i..] + q[..i])[1..] == q[i + 1..] + q[..i]
    ensures q[i + 1..] + q[..i] + [q[i]] == q[i + 1..] + q[..i + 1]
  {
  }

  /** One turn in which the element taken out may be put back changed, or not at all. */
  lemma TurnOut<T>(q: seq<T>, i: nat, kept: seq<T>, back: seq<T>)
    requires i < |q|
    ensures (q[i..] + kept)[0] == q[i]
    ensures (q[i..] + kept)[1..] == q[i + 1..] + kept
    ensures q[i + 1..] + kept + back == q[i + 1..] + (kept + back)
    ensures q[i + 1..] + kept + [] == q[i + 1..] + kept
    ensures q[..i + 1][..i] == q[..i] && q[..i + 1][i] == q[i]
  {
  }

  class Connection {
    const cfg: Config

    var open: bool
    var frdp: bool
    var socket: bool
    var rxq: seq<Item>
    var timestamp: uint32
    var rdp: Rdp
    var wire: seq<Segment>

    /** csp_conn_init and csp_rdp_init: a closed connection with empty queues in zeroed memory. */
    constructor (cfg: Config)
      ensures this.cfg == cfg
      ensures State() == Fresh(cfg)
    {
      this.cfg := cfg;
      open, frdp, socket, rxq, timestamp := false, false, false, [], 0;
      rdp := Rdp(Closed, {}, 0, 0, 0, 0, 0, 0,
                 Options(0, cfg.defaults.connTimeout, cfg.defaults.packetTimeout, 0, 0, 0), 0, [], []);
      wire := [];
    }

    ghost function State(): Conn
      reads this
    {
      Conn(open, frdp, socket, rxq, timestamp, rdp, wire)
    }

    /** csp_conn_enqueue_packet. */
    method EnqueuePacket(item: Item) returns (ok: bool)
      modifies this`rxq
      ensures State() == old(State()).(rxq := Enqueue(old(rxq), item, cfg))
      ensures ok == (|old(rxq)| < cfg.queueLength)
    {
      ok := |rxq| < cfg.queueLength;
      if ok {
        rxq := rxq + [item];
      }
    }

    method SendCmp(syn: bool, ack: bool, eak: bool, rst: bool, seqNr: uint16, ackNr: uint16, body: seq<byte>, env: Env)
      modifies this
      ensures State() == RdpSpec.SendCmp(old(State()), syn, ack, eak, rst, seqNr, ackNr, body, cfg, env)
    {
      var seg := Segment(syn, ack, eak, rst, seqNr, ackNr, body);
      if syn && |rdp.tx| < cfg.maxWindow {
        rdp := rdp.(tx := rdp.tx + [TxElem(seg, env.now, env.junk)]);
      }
      wire := wire + [seg];
      if ack {
        rdp := rdp.(rcvLsa := ackNr, ackTimestamp := env.now);
      }
    }

    /** csp_rdp_send_eack: one full rotation of the reorder queue collects the numbers in it. */
    method SendEack(env: Env)
      modifies this
      ensures State() == RdpSpec.SendEack(old(State()), cfg, env)
    {
      var body: seq<byte> := [];
      var count := |rdp.rx|;
      ghost var q := rdp.rx;
      for i := 0 to count
        invariant rdp.rx == q[i..] + q[..i]
        invariant body == SeqBytes(q[..i])
        invariant rdp == old(rdp).(rx := rdp.rx)
        invariant open == old(open) && frdp == old(frdp) && socket == old(socket)
        invariant rxq == old(rxq) && timestamp == old(timestamp) && wire == old(wire)
      {
        Turn(q, i);
        var packet := rdp.rx[0];
        rdp := rdp.(rx := rdp.rx[1..]);
        assert q[..i + 1][..i] == q[..i];
        body := body + Be16(packet.seqNr);
        rdp := rdp.(rx := rdp.rx + [packet]);
      }
      assert q[..count] == q && rdp.rx == q;
      SendCmp(false, true, true, false, rdp.sndNxt, rdp.rcvCur, body, env);
    }

    method CheckAck(env: Env)
      modifies this
      ensures State() == RdpSpec.CheckAck(old(State()), cfg, env)
    {
      if cfg.queueLength - |rxq| <= 2 * Int32(rdp.opt.window) {
        return;
      }
      if rdp.opt.delayedAcks == 0
         || TimeAfter(env.now, rdp.ackTimestamp + rdp.opt.ackTimeout)
         || SeqAfter(rdp.rcvCur, rdp.rcvLsa + rdp.opt.ackDelayCount) {
        SendCmp(false, true, false, false, rdp.sndNxt, rdp.rcvCur, [], env);
      }
    }

    /** The loop stops at the first match, behind which it leaves the queue rotated. */
    method SeqInRxQueue(seqNr: uint16) returns (found: bool)
      modifies this`rdp
      ensures (found, rdp.rx) == Search(old(rdp.rx), seqNr)
      ensures rdp == old(rdp).(rx := rdp.rx)
    {
      var count := |rdp.rx|;
      ghost var q := rdp.rx;
      for i := 0 to count
        invariant rdp == old(rdp).(rx := q[i..] + q[..i])
        invariant forall j | 0 <= j < i :: q[j].seqNr != seqNr
      {
        Turn(q, i);
        var packet := rdp.rx[0];
        rdp := rdp.(rx := rdp.rx[1..] + [packet]);
        if packet.seqNr == seqNr {
          return true;
        }
      }
      assert rdp.rx == q;
      return false;
    }

    method RxQueueAdd(seg: Segment) returns (added: bool)
      modifies this`rdp
      ensures (added, rdp.rx) == RxAdd(old(rdp.rx), seg, cfg)
      ensures rdp == old(rdp).(rx := rdp.rx)
    {
      var found := SeqInRxQueue(seg.seqNr);
      if found || |rdp.rx| >= cfg.maxWindow * 2 {
        return false;
      }
      rdp := rdp.(rx := rdp.rx + [seg]);
      return true;
    }

    ghost function Queues(): Flushed
      reads this
    {
      Flushed(rdp.rx, rdp.rcvCur, rxq)
    }

    /** Each turn of the loop ends in `goto front` or in the end of the queue. */
    method RxQueueFlush()
      modifies this`rdp, this`rxq
      ensures State() == RdpSpec.RxQueueFlush(old(State()), cfg)
    {
      var front := true;
      while front
        invariant Flush(Queues(), cfg) == old(Flush(Queues(), cfg))
        invariant front || !CanDeliver(Queues())
        invariant rdp == old(rdp).(rx := rdp.rx, rcvCur := rdp.rcvCur)
        decreases |rdp.rx|, front
      {
        front := FlushOne();
      }
    }

    method FlushOne() returns (found: bool)
      modifies this`rdp, this`rxq
      ensures found == CanDeliver(old(Queues()))
      ensures Queues() == if found then Deliver(old(Queues()), cfg) else old(Queues())
      ensures rdp == old(rdp).(rx := rdp.rx, rcvCur := rdp.rcvCur)
    {
      var packet;
      found, packet := TakeNext(U16(rdp.rcvCur + 1));
      if found {
        var _ := EnqueuePacket(Data(packet.body));
        rdp := rdp.(rcvCur := U16(rdp.rcvCur + 1));
      }
    }

    /** The for loop of csp_rdp_rx_queue_flush: rotate until the wanted number has been dequeued. */
    method TakeNext(seqNr: uint16) returns (found: bool, packet: Segment)
      modifies this`rdp
      ensures found == (Find(old(rdp.rx), seqNr) < |old(rdp.rx)|)
      ensures rdp == old(rdp).(rx := rdp.rx)
      ensures !found ==> rdp.rx == old(rdp.rx)
      ensures found ==>
                var i := Find(old(rdp.rx), seqNr);
                packet == old(rdp.rx)[i] && rdp.rx == old(rdp.rx)[i + 1..] + old(rdp.rx)[..i]
    {
      var count := |rdp.rx|;
      ghost var q := rdp.rx;
      packet := Segment(false, false, false, false, 0, 0, []);
      for i := 0 to count
        invariant rdp == old(rdp).(rx := q[i..] + q[..i])
        invariant forall j | 0 <= j < i :: q[j].seqNr != seqNr
      {
        Turn(q, i);
        packet := rdp.rx[0];
        rdp := rdp.(rx := rdp.rx[1..]);
        if packet.seqNr == seqNr {
          assert i == Find(q, seqNr);
          return true, packet;
        }
        rdp := rdp.(rx := rdp.rx + [packet]);
      }
      assert rdp.rx == q;
      found := false;
    }

    /** csp_rdp_flush_eack: a full rotation that drops what the EACK lists and may expire the rest. */
    method FlushEack(body: seq<byte>, now: uint32)
      modifies this`rdp
      ensures rdp == old(rdp).(tx := RdpSpec.FlushEack(old(rdp.tx), Words16(body), old(rdp.opt.packetTimeout), now))
    {
      var count := |rdp.tx|;
      ghost var q := rdp.tx;
      ghost var words, packetTimeout := Words16(body), rdp.opt.packetTimeout;
      ghost var kept: seq<TxElem> := [];
      for i := 0 to count
        invariant rdp == old(rdp).(tx := q[i..] + kept)
        invariant kept == RdpSpec.FlushEack(q[..i], words, packetTimeout, now)
      {
        var packet := rdp.tx[0];
        rdp := rdp.(tx := rdp.tx[1..]);
        var matched, touched := CompareEack(packet, body, now);
        TurnOut(q, i, kept, [touched]);
        if !matched {
          rdp := rdp.(tx := rdp.tx + [touched]);
        }
        kept := kept + EackElem(packet, words, packetTimeout, now);
      }
      assert q[..count] == q;
    }

    /** A touched element is not touched again by the same EACK. */
    lemma HastenOnce(e: TxElem, packetTimeout: uint32, now: uint32)
      ensures Hasten(Hasten(e, packetTimeout, now), packetTimeout, now) == Hasten(e, packetTimeout, now)
    {
      assert !TimeAfter(now, U32(now + packetTimeout / 2));
    }

    /** The inner loop over the numbers of an EACK. */
    method CompareEack(elem: TxElem, body: seq<byte>, now: uint32) returns (matched: bool, packet: TxElem)
      ensures matched == (elem.seg.seqNr in Words16(body))
      ensures packet == Touch(elem, Words16(body), rdp.opt.packetTimeout, now)
    {
      hide TimeAfter, Words16;
      ghost var words := Words16(body);
      ghost var overtaken := false;
      matched, packet := false, elem;
      for j := 0 to |body| / 2
        invariant matched == (elem.seg.seqNr in words[..j])
        invariant overtaken == Overtaken(words[..j], elem.seg.seqNr)
        invariant packet == if overtaken then Hasten(elem, rdp.opt.packetTimeout, now) else elem
      {
        var w := Read16(body, 2 * j);
        assert words[..j + 1] == words[..j] + [w];
        if w == packet.seg.seqNr {
          matched := true;
        }
        if w > packet.seg.seqNr {
          HastenOnce(elem, rdp.opt.packetTimeout, now);
          if TimeAfter(now, packet.quarantine) {
            packet := packet.(timestamp := U32(now - rdp.opt.packetTimeout - 1),
                              quarantine := U32(now + rdp.opt.packetTimeout / 2));
          }
          overtaken := true;
        }
      }
      assert words[..|body| / 2] == words;
    }

    method CloseInternal(who: set<Party>, sendRst: bool, env: Env) returns (again: bool)
      modifies this
      ensures (again, State()) == RdpSpec.CloseInternal(old(State()), who, sendRst, cfg, env)
    {
      if rdp.state == Closed {
        return false;
      }
      rdp := rdp.(closedBy := rdp.closedBy + who);
      if rdp.state != CloseWait {
        rdp := rdp.(state := CloseWait);
        timestamp := env.now;
        if sendRst {
          SendCmp(false, true, false, true, rdp.sndNxt, rdp.rcvCur, [], env);
        }
      }
      if rdp.closedBy != ALL_PARTIES {
        return true;
      }
      rdp := rdp.(state := Closed, closedBy := {});
      return false;
    }

    /** csp_conn_close; csp_close is this with Userspace. */
    method ConnClose(who: set<Party>, env: Env)
      modifies this
      ensures State() == RdpSpec.ConnClose(old(State()), who, cfg, env)
    {
      if !open {
        return;
      }
      if frdp {
        var again := CloseInternal(who, true, env);
        if again {
          return;
        }
      }
      open := false;
      rxq := [];
      if frdp {
        rdp := rdp.(tx := [], rx := []);
      }
    }

    method CheckTimeouts(env: Env)
      modifies this
      ensures State() == RdpSpec.CheckTimeouts(old(State()), cfg, env)
    {
      if socket {
        if TimeAfter(env.now, timestamp + rdp.opt.connTimeout) {
          ConnClose(ALL_PARTIES, env);
          return;
        }
      }
      if rdp.state == CloseWait {
        if TimeAfter(env.now, timestamp + rdp.opt.connTimeout) {
          ConnClose({Protocol, Timeout}, env);
        }
        return;
      }
      SweepTxQueue(env.now);
      if rdp.state == Open {
        if rdp.opt.delayedAcks != 0 {
          CheckAck(env);
        }
      }
    }

    /** The message-timeout loop of csp_rdp_check_timeouts. */
    method SweepTxQueue(now: uint32)
      modifies this`rdp, this`wire
      ensures rdp == old(rdp).(tx := SweepTx(old(rdp.tx), old(rdp), now))
      ensures wire == old(wire) + SweepOut(old(rdp.tx), old(rdp), now)
    {
      ghost var q, r := rdp.tx, rdp;
      var count := |rdp.tx|;
      ghost var kept: seq<TxElem> := [];
      for i := 0 to count
        invariant rdp == r.(tx := q[i..] + kept)
        invariant kept == SweepTx(q[..i], r, now)
        invariant wire == old(wire) + SweepOut(q[..i], r, now)
      {
        var packet := rdp.tx[0];
        rdp := rdp.(tx := rdp.tx[1..]);
        var back := SweepPacket(packet, now);
        TurnOut(q, i, kept, back);
        rdp := rdp.(tx := rdp.tx + back);
        kept := kept + back;
      }
      assert q[..count] == q;
    }

    /** What the loop does with one element: free it, or send it again if it is due, and requeue it. */
    method SweepPacket(packet: TxElem, now: uint32) returns (back: seq<TxElem>)
      modifies this`wire
      ensures back == SweepElem(packet, rdp, now)
      ensures wire == old(wire) + SweepSent(packet, rdp, now)
    {
      if SeqBefore(packet.seg.seqNr, rdp.sndUna) {
        return [];
      }
      if TimeAfter(now, packet.timestamp + rdp.opt.packetTimeout) {
        var copy := TxElem(packet.seg.(ackNr := rdp.rcvCur), now, packet.quarantine);
        wire := wire + [copy.seg];
        return [copy];
      }
      return [packet];
    }

    method DiscardClose(who: set<Party>, env: Env)
      modifies this
      ensures State() == RdpSpec.DiscardClose(old(State()), who, cfg, env)
    {
      if !socket {
        ConnClose(who, env);
        var _ := EnqueuePacket(Wake);
      } else {
        ConnClose(who + {Userspace}, env);
      }
    }

    /** csp_rdp_new_packet. */
    method NewPacket(seg: Segment, env: Env) returns (closeConnection: bool)
      modifies this
      ensures (State(), closeConnection) == RdpSpec.NewPacket(old(State()), seg, cfg, env)
    {
      closeConnection := false;
      if seg.rst {
        closeConnection := NewRst(seg, env);
        return;
      }
      match rdp.state {
        case Closed => NewInClosed(seg, env);
        case SynSent => NewInSynSent(seg, env);
        case SynRcvd => NewInOpen(seg, env);
        case Open => NewInOpen(seg, env);
        case CloseWait => NewInCloseWait(seg, env);
      }
    }

    method NewRst(seg: Segment, env: Env) returns (closeConnection: bool)
      modifies this
      ensures (State(), closeConnection) == RdpSpec.NewRst(old(State()), seg, cfg, env)
    {
      var who := {Protocol};
      if seg.ack {
        rdp := rdp.(sndUna := U16(seg.ackNr + 1));
      }
      if rdp.state == Closed {
        return socket;
      }
      if rdp.state == CloseWait {
        who := who + if seg.ack && cfg.fastClose then {Timeout} else {};
        DiscardClose(who, env);
        return false;
      }
      if seg.seqNr == rdp.rcvCur + 1 {
        rdp := rdp.(state := CloseWait);
        timestamp := env.now;
        SendCmp(false, true, false, true, rdp.sndNxt, rdp.rcvCur, [], env);
        who := who + if cfg.fastClose then {Timeout} else {};
        DiscardClose(who, env);
      }
      return false;
    }

    method NewInClosed(seg: Segment, env: Env)
      modifies this
      ensures State() == RdpSpec.NewInClosed(old(State()), seg, cfg, env)
    {
      if !seg.syn {
        SendCmp(false, false, false, true, rdp.sndNxt, rdp.rcvCur, [], env);
        DiscardClose({Protocol}, env);
        return;
      }
      AcceptSyn(seg, env);
      SendCmp(true, true, false, false, rdp.sndIss, rdp.rcvIrs, [], env);
    }

    method AcceptSyn(seg: Segment, env: Env)
      modifies this
      ensures State() == RdpSpec.AcceptSyn(old(State()), seg, env)
    {
      rdp := rdp.(sndIss := env.random);
      rdp := rdp.(sndNxt := U16(rdp.sndIss + 1), sndUna := rdp.sndIss);
      rdp := rdp.(rcvCur := seg.seqNr, rcvIrs := seg.seqNr, rcvLsa := seg.seqNr);
      rdp := rdp.(opt := ReadOptions(seg.body, env.leftover));
      rdp := rdp.(state := SynRcvd);
    }

    method NewInSynSent(seg: Segment, env: Env)
      modifies this
      ensures State() == RdpSpec.NewInSynSent(old(State()), seg, cfg, env)
    {
      if seg.syn && seg.ack {
        AcceptSynAck(seg, env);
        SendCmp(false, true, false, false, rdp.sndNxt, rdp.rcvCur, [], env);
        return;
      }
      if seg.ack {
        SendCmp(false, false, false, true, rdp.sndNxt, rdp.rcvCur, [], env);
        return;
      }
      DiscardClose({Protocol}, env);
    }

    method AcceptSynAck(seg: Segment, env: Env)
      modifies this
      ensures State() == RdpSpec.AcceptSynAck(old(State()), seg, env)
    {
      rdp := rdp.(rcvCur := seg.seqNr, rcvIrs := seg.seqNr, rcvLsa := U16(seg.seqNr - 1));
      rdp := rdp.(sndUna := U16(seg.ackNr + 1));
      rdp := rdp.(ackTimestamp := env.now);
      rdp := rdp.(state := Open);
    }

    method NewInOpen(seg: Segment, env: Env)
      modifies this
      ensures State() == RdpSpec.NewInOpen(old(State()), seg, cfg, env)
    {
      if seg.syn || !seg.ack {
        if seg.seqNr != rdp.rcvIrs {
          DiscardClose({Protocol}, env);
        }
        return;
      }
      if !SeqBetween(seg.seqNr, rdp.rcvCur + 1, rdp.rcvCur + rdp.opt.window * 2) {
        if rdp.state == SynRcvd {
          SendCmp(true, true, false, false, rdp.sndIss, rdp.rcvIrs, [], env);
        } else {
          SendEack(env);
        }
        return;
      }
      NewInWindow(seg, env);
    }

    method NewInWindow(seg: Segment, env: Env)
      modifies this
      ensures State() == RdpSpec.NewInWindow(old(State()), seg, cfg, env)
    {
      if !SeqBetween(seg.ackNr, rdp.sndUna - 1 - rdp.opt.window * 2, rdp.sndNxt - 1) {
        return;
      }
      if rdp.state == SynRcvd {
        NewInSynRcvd(seg, env);
      } else {
        NewAcked(seg, env);
      }
    }

    method NewInSynRcvd(seg: Segment, env: Env)
      modifies this
      ensures State() == RdpSpec.NewInSynRcvd(old(State()), seg, cfg, env)
    {
      if seg.ackNr != rdp.sndIss {
        DiscardClose({Protocol}, env);
        return;
      }
      rdp := rdp.(state := Open);
      if socket {
        if !env.acceptRoom {
          DiscardClose({Protocol}, env);
          return;
        }
        socket := false;
      }
      NewAcked(seg, env);
    }

    /** The rest of the OPEN state, from storing the acknowledgement on. */
    method NewAcked(seg: Segment, env: Env)
      modifies this
      ensures State() == RdpSpec.NewAcked(old(State()), seg, cfg, env)
    {
      hide RdpSpec.NewData, RdpSpec.FlushEack, U16;
      rdp := rdp.(sndUna := U16(seg.ackNr + 1));
      if seg.eak {
        if |seg.body| > 0 {
          FlushEack(seg.body, env.now);
        }
        return;
      }
      if |seg.body| == 0 {
        return;
      }
      NewData(seg, env);
    }

    method NewData(seg: Segment, env: Env)
      modifies this
      ensures State() == RdpSpec.NewData(old(State()), seg, cfg, env)
    {
      hide RdpSpec.NewOutOfOrder, RdpSpec.NewInOrder, U16;
      if seg.seqNr != U16(rdp.rcvCur + 1) {
        NewOutOfOrder(seg, env);
      } else {
        NewInOrder(seg, env);
      }
    }

    method NewOutOfOrder(seg: Segment, env: Env)
      modifies this
      ensures State() == RdpSpec.NewOutOfOrder(old(State()), seg, cfg, env)
    {
      hide RxAdd, RdpSpec.CheckAck, RdpSpec.SendEack;
      var added := RxQueueAdd(seg);
      if !added {
        CheckAck(env);
        return;
      }
      SendEack(env);
    }

    method NewInOrder(seg: Segment, env: Env)
      modifies this
      ensures State() == RdpSpec.NewInOrder(old(State()), seg, cfg, env)
    {
      var seqNr := seg.seqNr;
      var ok := EnqueuePacket(Data(seg.body));
      if !ok {
        return;
      }
      rdp := rdp.(rcvCur := seqNr);
      CheckAck(env);
      RxQueueFlush();
    }

    method NewInCloseWait(seg: Segment, env: Env)
      modifies this
      ensures State() == RdpSpec.NewInCloseWait(old(State()), seg, cfg, env)
    {
      if seg.syn || !seg.ack {
        return;
      }
      if !SeqBetween(seg.ackNr, rdp.sndUna - 1 - rdp.opt.window * 2, rdp.sndNxt - 1) {
        return;
      }
      rdp := rdp.(sndUna := U16(seg.ackNr + 1));
      SendCmp(false, true, false, true, rdp.sndNxt, rdp.rcvCur, [], env);
    }

    /** csp_rdp_send followed by the csp_send_direct of csp_send. */
    method Send(payload: seq<byte>, env: Env) returns (result: SendResult)
      modifies this
      ensures (result, State()) == RdpSpec.Send(old(State()), payload, cfg, env)
    {
      if !open || rdp.state != Open {
        return ResetError;
      }
      if SeqAfter(rdp.sndNxt, rdp.sndUna + rdp.opt.window - 1) {
        return TimedOutError;
      }
      if |payload| + 5 > cfg.bufferSize {
        return NoMemError;
      }
      var seg := Segment(false, true, false, false, rdp.sndNxt, rdp.rcvCur, payload);
      if |rdp.tx| >= cfg.maxWindow {
        return NoBufsError;
      }
      rdp := rdp.(tx := rdp.tx + [TxElem(seg, env.now, 0)]);
      rdp := rdp.(sndNxt := U16(rdp.sndNxt + 1));
      wire := wire + [seg];
      return Sent;
    }

    method ConnectStart(env: Env)
      modifies this
      ensures State() == RdpSpec.ConnectStart(old(State()), cfg, env)
    {
      rdp := rdp.(opt := cfg.defaults, ackTimestamp := env.now);
      if rdp.state == Open {
        return;
      }
      ChooseIss(env);
      SendCmp(true, false, false, false, rdp.sndIss, 0, OptionBytes(cfg.defaults), env);
    }

    /** The `goto retry` of csp_rdp_connect after a half-open connection was found. */
    method ConnectRetry(env: Env)
      modifies this
      ensures State() == RdpSpec.ConnectRetry(old(State()), cfg, env)
    {
      if rdp.state != SynSent {
        return;
      }
      rdp := rdp.(tx := [], rx := []);
      ChooseIss(env);
      SendCmp(true, false, false, false, rdp.sndIss, 0, OptionBytes(cfg.defaults), env);
    }

    method ConnectFail(env: Env)
      modifies this
      ensures State() == RdpSpec.ConnectFail(old(State()), cfg, env)
    {
      var _ := CloseInternal({Protocol}, false, env);
      ConnClose({Userspace}, env);
    }

    method ChooseIss(env: Env)
      modifies this
      ensures State() == RdpSpec.ChooseIss(old(State()), env)
    {
      rdp := rdp.(sndIss := env.random);
      rdp := rdp.(sndNxt := U16(rdp.sndIss + 1));
      rdp := rdp.(sndUna := rdp.sndIss);
      rdp := rdp.(state := SynSent);
    }

    method Read(env: Env) returns (item: seq<Item>)
      modifies this
      ensures State() == RdpSpec.Read(old(State()), cfg, env)
      ensures item == if old(open) then old(rxq)[..if old(rxq) == [] then 0 else 1] else []
    {
      if !open || rxq == [] {
        return [];
      }
      item := rxq[..1];
      rxq := rxq[1..];
      if frdp && rdp.opt.delayedAcks != 0 {
        CheckAck(env);
      }
    }
  }
}
