/** The life cycle of one connection: who has to close it before it is closed. */
module RdpLife {
  import opened Words
  import opened RdpSpec
  import opened RdpQueues

  /**
   Everything that can happen to an entry of the pool.  The router task and the tasks of user space take turns in any
   order; in particular the router may run between csp_conn_new and the csp_rdp_connect that follows it in csp_connect.
   */
  datatype Event =
    | Allocate(passive: bool, rdp: bool) // csp_conn_new, with or without CSP_FRDP in the identifiers
    | Connect                            // csp_rdp_connect
    | Retry                              // its second attempt
    | GiveUp                             // its error path and the csp_close in csp_connect
    | Packet(seg: Segment)               // csp_route_work hands over a packet with the connection's RDP flag
    | Datagram(bytes: seq<byte>)         // the same without
    | Timeouts                           // csp_conn_check_timeouts
    | UserClose                          // csp_close
    | UserSend(payload: seq<byte>)
    | UserRead

  predicate Enabled(c: Conn, e: Event) {
    match e
    case Allocate(_, _) => !c.open
    case Packet(_) => c.open && c.frdp
    case Datagram(_) => c.open && !c.frdp
    case Timeouts => c.open && c.frdp
    case UserSend(_) => c.frdp
    case _ => true
  }

  /** csp_udp_new_packet. */
  function NewDatagram(c: Conn, bytes: seq<byte>, cfg: Config, env: Env): Conn {
    if |c.rxq| >= cfg.queueLength then c
    else
      var c1 := c.(rxq := c.rxq + [Data(bytes)]);
      if c1.socket && !env.acceptRoom then ConnClose(c1, {Userspace}, cfg, env) else c1.(socket := false)
  }

  function Happen(c: Conn, e: Event, cfg: Config, env: Env): Conn {
    match e
    case Allocate(passive, rdp) => c.(open := true, frdp := rdp, socket := passive, timestamp := env.now, rxq := [])
    case Connect => ConnectStart(c, cfg, env)
    case Retry => ConnectRetry(c, cfg, env)
    case GiveUp => ConnectFail(c, cfg, env)
    case Packet(seg) =>
      var (c1, close) := NewPacket(c, seg, cfg, env);
      if close then ConnClose(c1, {Userspace}, cfg, env) else c1
    case Datagram(bytes) => NewDatagram(c, bytes, cfg, env)
    case Timeouts => CheckTimeouts(c, cfg, env)
    case UserClose => ConnClose(c, {Userspace}, cfg, env)
    case UserSend(payload) => Send(c, payload, cfg, env).1
    case UserRead => Read(c, cfg, env)
  }

  /** The RDP state outlives no connection, and only a half-closed connection knows parties that have closed. */
  predicate Life(c: Conn) {
    && (!c.open ==> c.rdp.state == Closed)
    && (!c.frdp ==> c.rdp.state == Closed)
    && (c.rdp.state != CloseWait ==> c.rdp.closedBy == {})
    && (c.rdp.state == CloseWait ==> c.rdp.closedBy != {} && c.rdp.closedBy != ALL_PARTIES)
    && (c.rdp.state in {Closed, SynSent, SynRcvd} ==> c.rdp.rx == [])
  }

  lemma CloseKeeps(c: Conn, who: set<Party>, cfg: Config, env: Env)
    requires c.open && c.frdp && who != {}
    requires c.rdp.state == Closed ==> c.rdp.closedBy == {}
    ensures Life(ConnClose(c, who, cfg, env))
    ensures ConnClose(c, who, cfg, env).rdp.state in {Closed, CloseWait}
    ensures ConnClose(c, who, cfg, env).open <==> c.rdp.state != Closed && c.rdp.closedBy + who != ALL_PARTIES
    ensures ConnClose(c, who, cfg, env).open ==> ConnClose(c, who, cfg, env).rdp.closedBy == c.rdp.closedBy + who
  {
  }

  lemma DiscardKeeps(c: Conn, who: set<Party>, cfg: Config, env: Env)
    requires c.open && c.frdp && who != {}
    requires c.rdp.state == Closed ==> c.rdp.closedBy == {}
    ensures Life(DiscardClose(c, who, cfg, env))
  {
    CloseKeeps(c, who, cfg, env);
    CloseKeeps(c, who + {Userspace}, cfg, env);
  }

  lemma AckedKeepsState(c: Conn, seg: Segment, cfg: Config, env: Env)
    ensures var c' := NewAcked(c, seg, cfg, env);
            c'.open == c.open && c'.frdp == c.frdp && c'.rdp.state == c.rdp.state && c'.rdp.closedBy == c.rdp.closedBy
  {
    hide Flush, RxAdd, CheckAck, SendEack, FlushEack, Words16;
    var c1 := c.(rdp := c.rdp.(sndUna := U16(seg.ackNr + 1)));
    OutOfOrderShape(c1, seg, cfg, env);
    if |c1.rxq| < cfg.queueLength {
      InOrderShape(c1, seg, cfg, env);
    }
  }

  lemma OpenKeeps(c: Conn, seg: Segment, cfg: Config, env: Env)
    requires Life(c) && c.open && c.frdp && c.rdp.state in {SynRcvd, Open}
    ensures Life(NewInOpen(c, seg, cfg, env))
  {
    hide NewAcked, DiscardClose, SeqBetween;
    var c1 := c.(rdp := c.rdp.(state := Open));
    DiscardKeeps(c, {Protocol}, cfg, env);
    DiscardKeeps(c1, {Protocol}, cfg, env);
    AckedKeepsState(c, seg, cfg, env);
    AckedKeepsState(c1.(socket := false), seg, cfg, env);
  }

  lemma RstKeeps(c: Conn, seg: Segment, cfg: Config, env: Env)
    requires Life(c) && c.open && c.frdp
    ensures Life(Happen(c, Packet(seg.(rst := true)), cfg, env))
  {
    hide DiscardClose;
    var rst := seg.(rst := true);
    var c1 := if seg.ack then c.(rdp := c.rdp.(sndUna := U16(seg.ackNr + 1))) else c;
    DiscardKeeps(c1, ClosedByPeer(rst, cfg), cfg, env);
    var c2 := SendRst(c1.(timestamp := env.now, rdp := c1.rdp.(state := CloseWait)), true, cfg, env);
    DiscardKeeps(c2, {Protocol} + if cfg.fastClose then {Timeout} else {}, cfg, env);
    CloseKeeps(c1, {Userspace}, cfg, env);
  }

  lemma PacketKeeps(c: Conn, seg: Segment, cfg: Config, env: Env)
    requires Life(c) && c.open && c.frdp
    ensures Life(Happen(c, Packet(seg), cfg, env))
  {
    hide NewRst, NewInOpen, DiscardClose, AckInRange;
    if seg.rst {
      RstKeeps(c, seg, cfg, env);
      assert seg.(rst := true) == seg;
    } else {
      match c.rdp.state
      case Closed => DiscardKeeps(SendRst(c, false, cfg, env), {Protocol}, cfg, env);
      case SynSent => DiscardKeeps(c, {Protocol}, cfg, env);
      case SynRcvd => OpenKeeps(c, seg, cfg, env);
      case Open => OpenKeeps(c, seg, cfg, env);
      case CloseWait =>
    }
  }

  lemma TimeoutsKeep(c: Conn, cfg: Config, env: Env)
    requires Life(c) && c.open && c.frdp
    ensures Life(CheckTimeouts(c, cfg, env))
  {
    hide ConnClose, TimeAfter, SweepTx, SweepOut, CheckAck;
    CloseKeeps(c, ALL_PARTIES, cfg, env);
    CloseKeeps(c, {Protocol, Timeout}, cfg, env);
    AcksTouchLittle(c.(out := c.out + SweepOut(c.rdp.tx, c.rdp, env.now),
                       rdp := c.rdp.(tx := SweepTx(c.rdp.tx, c.rdp, env.now))), cfg, env);
  }

  /**
   csp_rdp_connect comes in time when the entry it was given is open for RDP and not half-closed; on an open RDP
   connection it changes nothing that matters here.
   */
  predicate InTime(c: Conn) {
    c.rdp.state == Open || (c.open && c.frdp && c.rdp.state != CloseWait)
  }

  /** csp_rdp_connect tests for OPEN only, so it breaks the life-cycle invariant exactly when it comes too late. */
  lemma ConnectKeepsIff(c: Conn, cfg: Config, env: Env)
    requires Life(c)
    ensures Life(ConnectStart(c, cfg, env)) <==> InTime(c)
  {
    hide OptionBytes;
  }

  /** Every event keeps the life-cycle invariant, except a csp_rdp_connect that comes too late. */
  lemma HappenKeeps(c: Conn, e: Event, cfg: Config, env: Env)
    requires Life(c) && Enabled(c, e)
    ensures Life(Happen(c, e, cfg, env)) <==> (e.Connect? ==> InTime(c))
  {
    hide NewPacket, CheckTimeouts, ConnClose, ConnectStart, CheckAck, ReadyForTx, NewDatagram, ConnectFail;
    match e
    case Connect => ConnectKeepsIff(c, cfg, env);
    case Datagram(bytes) => DatagramKeeps(c, bytes, cfg, env);
    case Packet(seg) => PacketKeeps(c, seg, cfg, env);
    case Timeouts => TimeoutsKeep(c, cfg, env);
    case UserClose => UserCloseKeeps(c, cfg, env);
    case GiveUp => GiveUpKeeps(c, cfg, env);
    case UserRead => ReadKeepsLife(c, cfg, env);
    case _ =>
  }

  lemma UserCloseKeeps(c: Conn, cfg: Config, env: Env)
    requires Life(c)
    ensures Life(ConnClose(c, {Userspace}, cfg, env))
  {
  }

  /** A datagram does no harm, not even on a connection with the RDP flag. */
  lemma DatagramKeeps(c: Conn, bytes: seq<byte>, cfg: Config, env: Env)
    requires Life(c) && c.open
    ensures Life(NewDatagram(c, bytes, cfg, env))
    ensures !c.frdp ==> NewDatagram(c, bytes, cfg, env).rdp == c.rdp
  {
  }

  lemma GiveUpKeeps(c: Conn, cfg: Config, env: Env)
    requires Life(c)
    ensures Life(ConnectFail(c, cfg, env))
  {
    if c.open && c.frdp {
      var (_, c1) := CloseInternal(c, {Protocol}, false, cfg, env);
      CloseKeeps(c1, {Userspace}, cfg, env);
    }
  }

  lemma ReadKeepsLife(c: Conn, cfg: Config, env: Env)
    requires Life(c)
    ensures Life(Read(c, cfg, env))
  {
    if c.rxq != [] {
      AcksTouchLittle(c.(rxq := c.rxq[1..]), cfg, env);
    }
  }

  // Leaving CLOSE-WAIT

  /** The parties an event closes for, when the connection is in CLOSE-WAIT. */
  function Closing(c: Conn, e: Event, cfg: Config, env: Env): set<Party> {
    match e
    case UserClose => {Userspace}
    case GiveUp => {Protocol, Userspace}
    case Packet(seg) => if !seg.rst then {} else ClosedByPeer(seg, cfg) + if c.socket then {Userspace} else {}
    case Timeouts =>
      if !TimeAfter(env.now, c.timestamp + c.rdp.opt.connTimeout) then {}
      else if c.socket then ALL_PARTIES else {Protocol, Timeout}
    case _ => {}
  }

  /**
   In CLOSE-WAIT the parties that have closed accumulate; the connection leaves the state exactly when
   user space, protocol and timeout have all closed, and then it is closed altogether.  Only a csp_rdp_connect
   that comes this late breaks out.
   */
  lemma CloseWaitEndsByAgreement(c: Conn, e: Event, cfg: Config, env: Env)
    requires Life(c) && Enabled(c, e) && c.rdp.state == CloseWait
    ensures var c', closed := Happen(c, e, cfg, env), c.rdp.closedBy + Closing(c, e, cfg, env);
            if e.Connect? then c'.open && c'.rdp.state == SynSent && c'.rdp.closedBy == c.rdp.closedBy
            else if closed == ALL_PARTIES
            then !c'.open && c'.rdp.state == Closed && c'.rdp.closedBy == {} && c'.rdp.tx == [] && c'.rdp.rx == []
            else c'.open && c'.rdp.state == CloseWait && c'.rdp.closedBy == closed
  {
    hide TimeAfter, NewPacket, ConnClose, CheckAck, ReadyForTx, ConnectFail, ConnectStart;
    match e
    case Connect => ConnectInCloseWait(c, cfg, env);
    case Packet(seg) => PacketInCloseWait(c, seg, cfg, env);
    case GiveUp => GiveUpInCloseWait(c, cfg, env);
    case UserClose => CloseInCloseWait(c, {Userspace}, cfg, env);
    case Timeouts =>
      CloseInCloseWait(c, ALL_PARTIES, cfg, env);
      CloseInCloseWait(c, {Protocol, Timeout}, cfg, env);
    case UserRead => ReadInCloseWait(c, cfg, env);
    case _ =>
  }

  lemma ConnectInCloseWait(c: Conn, cfg: Config, env: Env)
    requires c.open && c.rdp.state == CloseWait
    ensures var c' := ConnectStart(c, cfg, env); c'.open && c'.rdp.state == SynSent && c'.rdp.closedBy == c.rdp.closedBy
  {
    hide OptionBytes;
  }

  /** c' is c after the parties in `who` have closed, too. */
  predicate Agreed(c: Conn, who: set<Party>, c': Conn) {
    if c.rdp.closedBy + who == ALL_PARTIES
    then !c'.open && c'.rdp.state == Closed && c'.rdp.closedBy == {} && c'.rdp.tx == [] && c'.rdp.rx == []
    else c'.open && c'.rdp.state == CloseWait && c'.rdp.closedBy == c.rdp.closedBy + who
  }

  lemma CloseInCloseWait(c: Conn, who: set<Party>, cfg: Config, env: Env)
    requires c.open && c.frdp && c.rdp.state == CloseWait
    ensures Agreed(c, who, ConnClose(c, who, cfg, env))
  {
  }

  lemma PacketInCloseWait(c: Conn, seg: Segment, cfg: Config, env: Env)
    requires Life(c) && c.open && c.frdp && c.rdp.state == CloseWait
    ensures Agreed(c, Closing(c, Packet(seg), cfg, env), Happen(c, Packet(seg), cfg, env))
  {
    hide ConnClose, AckInRange;
    assert c.rdp.closedBy + {} == c.rdp.closedBy;
    if seg.rst {
      var c1 := if seg.ack then c.(rdp := c.rdp.(sndUna := U16(seg.ackNr + 1))) else c;
      var who := ClosedByPeer(seg, cfg);
      assert who + {} == who;
      CloseInCloseWait(c1, who, cfg, env);
      CloseInCloseWait(c1, who + {Userspace}, cfg, env);
    }
  }

  lemma GiveUpInCloseWait(c: Conn, cfg: Config, env: Env)
    requires Life(c) && c.open && c.frdp && c.rdp.state == CloseWait
    ensures Agreed(c, {Protocol, Userspace}, ConnectFail(c, cfg, env))
  {
    assert c.rdp.closedBy + {Protocol} + {Userspace} == c.rdp.closedBy + {Protocol, Userspace};
    assert c.rdp.closedBy + {Protocol} == ALL_PARTIES ==> c.rdp.closedBy + {Protocol, Userspace} == ALL_PARTIES;
  }

  lemma ReadInCloseWait(c: Conn, cfg: Config, env: Env)
    requires Life(c) && c.rdp.state == CloseWait
    ensures Agreed(c, {}, Read(c, cfg, env))
  {
    hide CheckAck;
    assert c.rdp.closedBy + {} == c.rdp.closedBy;
    if c.rxq != [] {
      AcksTouchLittle(c.(rxq := c.rxq[1..]), cfg, env);
    }
  }

  // Runs

  /** An event, its surroundings, and what csp_rdp_set_opt has set last. */
  datatype Happening = Happening(e: Event, env: Env, defaults: Options)

  function SettingsAt(cfg: Config, h: Happening): Config {
    cfg.(defaults := h.defaults)
  }

  predicate IsStep(c: Conn, h: Happening, c': Conn, cfg: Config) {
    Enabled(c, h.e) && c' == Happen(c, h.e, SettingsAt(cfg, h), h.env)
  }

  /** The states a pool entry goes through, from the initial one, when these things happen to it. */
  ghost predicate IsTrace(run: seq<Conn>, hs: seq<Happening>, cfg: Config) {
    && |run| == |hs| + 1 && run[0] == Fresh(cfg)
    && forall i | 0 <= i < |hs| :: IsStep(run[i], hs[i], run[i + 1], cfg)
  }

  ghost predicate ConnectsInTime(run: seq<Conn>, hs: seq<Happening>)
    requires |run| == |hs| + 1
  {
    forall i | 0 <= i < |hs| && hs[i].e.Connect? :: InTime(run[i])
  }

  lemma {:induction false} LifeInTrace(run: seq<Conn>, hs: seq<Happening>, i: nat, cfg: Config)
    requires IsTrace(run, hs, cfg) && ConnectsInTime(run, hs) && i < |run|
    ensures Life(run[i])
  {
    hide Happen, Life, Enabled, InTime, SettingsAt;
    if i > 0 {
      LifeInTrace(run, hs, i - 1, cfg);
      assert IsStep(run[i - 1], hs[i - 1], run[i - 1 + 1], cfg);
      HappenKeeps(run[i - 1], hs[i - 1].e, SettingsAt(cfg, hs[i - 1]), hs[i - 1].env);
    } else {
      FreshLives(cfg);
    }
  }

  lemma FreshLives(cfg: Config)
    ensures Life(Fresh(cfg)) && RxOk(Fresh(cfg))
  {
  }

  /** Over whole life cycles, the invariant holds throughout exactly when every csp_rdp_connect comes in time. */
  lemma LifeIffInTime(run: seq<Conn>, hs: seq<Happening>, cfg: Config)
    requires IsTrace(run, hs, cfg)
    ensures (forall i | 0 <= i < |run| :: Life(run[i])) <==> ConnectsInTime(run, hs)
  {
    hide Happen, Life, Enabled, InTime, SettingsAt;
    if ConnectsInTime(run, hs) {
      forall i | 0 <= i < |run| ensures Life(run[i]) {
        LifeInTrace(run, hs, i, cfg);
      }
    } else {
      var i :| 0 <= i < |hs| && hs[i].e.Connect? && !InTime(run[i]);
      if Life(run[i]) {
        assert IsStep(run[i], hs[i], run[i + 1], cfg);
        HappenKeeps(run[i], hs[i].e, SettingsAt(cfg, hs[i]), hs[i].env);
        assert !Life(run[i + 1]);
      }
    }
  }

  /**
   In every run from the initial pool entry in which no csp_rdp_connect comes too late: closed means closed at both
   layers, and the agreement to close is never complete without being carried out.
   */
  lemma CloseAgreement(run: seq<Conn>, hs: seq<Happening>, i: nat, cfg: Config)
    requires IsTrace(run, hs, cfg) && ConnectsInTime(run, hs) && i < |run|
    ensures !run[i].open ==> run[i].rdp.state == Closed
    ensures run[i].rdp.state == CloseWait <==> run[i].rdp.closedBy != {}
    ensures run[i].rdp.closedBy != ALL_PARTIES
    ensures i < |hs| && run[i].rdp.state == CloseWait && run[i + 1].rdp.state != CloseWait ==>
              run[i + 1].rdp.state == Closed && !run[i + 1].open
  {
    hide Happen, Closing, Enabled, SettingsAt;
    LifeInTrace(run, hs, i, cfg);
    if i < |hs| && run[i].rdp.state == CloseWait {
      assert IsStep(run[i], hs[i], run[i + 1], cfg);
      CloseWaitEndsByAgreement(run[i], hs[i].e, SettingsAt(cfg, hs[i]), hs[i].env);
    }
  }

  /**
   A csp_rdp_connect can come too late: a stray packet that reaches the entry right after its allocation closes it,
   and the connect leaves the closed entry in SYN-SENT.
   */
  lemma LateConnectEscapes(cfg: Config, seg: Segment, env: Env)
    requires !seg.syn && !seg.rst
    ensures var c1 := Happen(Fresh(cfg), Allocate(false, true), cfg, env);
            var c2 := Happen(c1, Packet(seg), cfg, env);
            var c3 := Happen(c2, Connect, cfg, env);
            && IsTrace([Fresh(cfg), c1, c2, c3],
                       [Happening(Allocate(false, true), env, cfg.defaults), Happening(Packet(seg), env, cfg.defaults),
                        Happening(Connect, env, cfg.defaults)], cfg)
            && !c3.open && c3.rdp.state == SynSent
  {
    hide OptionBytes;
  }

  /** On a connection without the RDP flag, an RDP packet breaks the invariant exactly when it is a SYN. */
  lemma FlagMismatchBreaks(c: Conn, seg: Segment, cfg: Config, env: Env)
    requires Life(c) && c.open && !c.frdp
    ensures Life(Happen(c, Packet(seg), cfg, env)) <==> seg.rst || !seg.syn
  {
    hide ReadOptions;
  }

  /** Closing such a connection afterwards leaves it closed with its RDP state alive. */
  lemma FlagMismatchEscapes(c: Conn, seg: Segment, cfg: Config, e1: Env, e2: Env)
    requires Life(c) && c.open && !c.frdp && seg.syn && !seg.rst
    ensures var c' := Happen(Happen(c, Packet(seg), cfg, e1), UserClose, cfg, e2); !c'.open && c'.rdp.state == SynRcvd
  {
    hide ReadOptions;
  }

  // The reorder queue over whole life cycles

  predicate Kept(c: Conn) {
    Life(c) && RxOk(c)
  }

  /** csp_rdp_connect keeps the reorder queue inside the window exactly when the window it sets covers the queue. */
  lemma ConnectKeepsQueueIff(c: Conn, cfg: Config, env: Env)
    requires RxOk(c)
    ensures RxOk(ConnectStart(c, cfg, env)) <==> InWindow(c.rdp.rx, c.rdp.rcvCur, 2, cfg.defaults.window)
  {
    hide OptionBytes, Off;
  }

  /**
   Nothing of the two kinds that spoil an invariant: a csp_rdp_connect that comes late or sets a window that does not
   cover the queue, or a stray segment.
   */
  predicate Orderly(c: Conn, e: Event, cfg: Config, env: Env) {
    match e
    case Connect => InTime(c) && InWindow(c.rdp.rx, c.rdp.rcvCur, 2, cfg.defaults.window)
    case Packet(seg) => !seg.rst && c.rdp.state in {SynRcvd, Open} ==> !Stray(c, seg, cfg, env)
    case _ => true
  }

  lemma CloseKeepsKept(c: Conn, who: set<Party>, cfg: Config, env: Env)
    requires RxOk(c) && c.open && c.frdp && who != {}
    requires c.rdp.state == Closed ==> c.rdp.closedBy == {}
    ensures Kept(ConnClose(c, who, cfg, env)) && Kept(DiscardClose(c, who, cfg, env))
  {
    CloseKeeps(c, who, cfg, env);
    CloseKeeps(c, who + {Userspace}, cfg, env);
    ClosingKeepsRxOk(c, who, cfg, env);
    ClosingKeepsRxOk(c, who + {Userspace}, cfg, env);
  }

  lemma RstKeepsRxOk(c: Conn, seg: Segment, cfg: Config, env: Env)
    requires RxOk(c)
    ensures RxOk(NewRst(c, seg, cfg, env).0)
  {
    hide DiscardClose, Off;
    var c1 := if seg.ack then c.(rdp := c.rdp.(sndUna := U16(seg.ackNr + 1))) else c;
    ClosingKeepsRxOk(c1, ClosedByPeer(seg, cfg), cfg, env);
    var c2 := SendRst(c1.(timestamp := env.now, rdp := c1.rdp.(state := CloseWait)), true, cfg, env);
    ClosingKeepsRxOk(c2, {Protocol} + if cfg.fastClose then {Timeout} else {}, cfg, env);
  }

  lemma PacketKeepsRxIff(c: Conn, seg: Segment, cfg: Config, env: Env)
    requires Kept(c) && c.open && c.frdp
    ensures RxOk(NewPacket(c, seg, cfg, env).0) <==> Orderly(c, Packet(seg), cfg, env)
  {
    hide DiscardClose, NewInOpen, SeqBetween, Off, Stray, NewRst;
    if seg.rst {
      RstKeepsRxOk(c, seg, cfg, env);
    } else if c.rdp.state in {SynRcvd, Open} {
      NewInOpenKeepsIff(c, seg, cfg, env);
    } else if c.rdp.state == CloseWait {
    } else {
      ClosingKeepsRxOk(SendRst(c, false, cfg, env), {Protocol}, cfg, env);
      ClosingKeepsRxOk(c, {Protocol}, cfg, env);
    }
  }

  lemma PacketKeepsIff(c: Conn, seg: Segment, cfg: Config, env: Env)
    requires Kept(c) && c.open && c.frdp
    ensures Kept(Happen(c, Packet(seg), cfg, env)) <==> Orderly(c, Packet(seg), cfg, env)
  {
    hide RxOk, Life, Stray, ConnClose, NewInOpen;
    PacketKeeps(c, seg, cfg, env);
    PacketKeepsRxIff(c, seg, cfg, env);
    if NewPacket(c, seg, cfg, env).1 {
      ClosingKeepsRxOk(NewPacket(c, seg, cfg, env).0, {Userspace}, cfg, env);
    }
    CloseFlagIsRst(c, seg, cfg, env);
    hide NewPacket;
  }

  lemma CloseFlagIsRst(c: Conn, seg: Segment, cfg: Config, env: Env)
    ensures NewPacket(c, seg, cfg, env).1 ==> seg.rst
  {
  }

  /** Every event keeps both invariants, except one of those two kinds. */
  lemma HappenKeepsIff(c: Conn, e: Event, cfg: Config, env: Env)
    requires Kept(c) && Enabled(c, e)
    ensures Kept(Happen(c, e, cfg, env)) <==> Orderly(c, e, cfg, env)
  {
    hide NewPacket, CheckTimeouts, ConnClose, CheckAck, ReadyForTx, Off, NewDatagram, ConnectStart, ConnectFail, Stray;
    HappenKeeps(c, e, cfg, env);
    match e
    case Connect => ConnectKeepsQueueIff(c, cfg, env);
    case Datagram(bytes) => DatagramKeeps(c, bytes, cfg, env);
    case Packet(seg) => PacketKeepsIff(c, seg, cfg, env);
    case Timeouts => TimeoutsKeepKept(c, cfg, env);
    case UserClose => UserCloseKeepsKept(c, cfg, env);
    case GiveUp => GiveUpKeepsKept(c, cfg, env);
    case UserRead => ReadKeepsKept(c, cfg, env);
    case _ =>
  }

  lemma UserCloseKeepsKept(c: Conn, cfg: Config, env: Env)
    requires Kept(c)
    ensures Kept(ConnClose(c, {Userspace}, cfg, env))
  {
    if c.open && c.frdp {
      CloseKeepsKept(c, {Userspace}, cfg, env);
    }
  }

  lemma GiveUpKeepsKept(c: Conn, cfg: Config, env: Env)
    requires Kept(c)
    ensures Kept(ConnectFail(c, cfg, env))
  {
    hide Off;
    GiveUpKeeps(c, cfg, env);
    if c.open && c.frdp {
      hide ConnClose;
      var (_, c1) := CloseInternal(c, {Protocol}, false, cfg, env);
      CloseKeepsKept(c1, {Userspace}, cfg, env);
    }
  }

  lemma TimeoutsKeepKept(c: Conn, cfg: Config, env: Env)
    requires Kept(c) && c.open && c.frdp
    ensures Kept(CheckTimeouts(c, cfg, env))
  {
    hide ConnClose, TimeAfter, SweepTx, SweepOut, CheckAck;
    TimeoutsKeep(c, cfg, env);
    CloseKeepsKept(c, ALL_PARTIES, cfg, env);
    CloseKeepsKept(c, {Protocol, Timeout}, cfg, env);
    AcksTouchLittle(c.(out := c.out + SweepOut(c.rdp.tx, c.rdp, env.now),
                       rdp := c.rdp.(tx := SweepTx(c.rdp.tx, c.rdp, env.now))), cfg, env);
  }

  lemma ReadKeepsKept(c: Conn, cfg: Config, env: Env)
    requires Kept(c)
    ensures Kept(Read(c, cfg, env))
  {
    ReadKeepsLife(c, cfg, env);
    if c.rxq != [] {
      AcksTouchLittle(c.(rxq := c.rxq[1..]), cfg, env);
    }
  }

  ghost predicate AllOrderly(run: seq<Conn>, hs: seq<Happening>, cfg: Config)
    requires |run| == |hs| + 1
  {
    forall i | 0 <= i < |hs| :: Orderly(run[i], hs[i].e, SettingsAt(cfg, hs[i]), hs[i].env)
  }

  lemma FreshIsKept(cfg: Config)
    ensures Kept(Fresh(cfg))
  {
  }

  lemma {:induction false} KeptInTrace(run: seq<Conn>, hs: seq<Happening>, i: nat, cfg: Config)
    requires IsTrace(run, hs, cfg) && AllOrderly(run, hs, cfg) && i < |run|
    ensures Kept(run[i])
  {
    hide Happen, Kept, Orderly, Enabled, SettingsAt;
    if i > 0 {
      KeptInTrace(run, hs, i - 1, cfg);
      assert IsStep(run[i - 1], hs[i - 1], run[i - 1 + 1], cfg);
      HappenKeepsIff(run[i - 1], hs[i - 1].e, SettingsAt(cfg, hs[i - 1]), hs[i - 1].env);
    } else {
      FreshIsKept(cfg);
    }
  }

  /**
   Over whole life cycles, against any peer, both invariants hold throughout exactly when every csp_rdp_connect comes in
   time and covers the queue and no stray segment comes.
   */
  lemma ReorderQueueIff(run: seq<Conn>, hs: seq<Happening>, cfg: Config)
    requires IsTrace(run, hs, cfg)
    ensures (forall i | 0 <= i < |run| :: Kept(run[i])) <==> AllOrderly(run, hs, cfg)
  {
    hide Happen, Kept, Orderly, Enabled, SettingsAt;
    if AllOrderly(run, hs, cfg) {
      forall i | 0 <= i < |run| ensures Kept(run[i]) {
        KeptInTrace(run, hs, i, cfg);
      }
    } else {
      var i :| 0 <= i < |hs| && !Orderly(run[i], hs[i].e, SettingsAt(cfg, hs[i]), hs[i].env);
      if Kept(run[i]) {
        assert IsStep(run[i], hs[i], run[i + 1], cfg);
        HappenKeepsIff(run[i], hs[i].e, SettingsAt(cfg, hs[i]), hs[i].env);
        assert !Kept(run[i + 1]);
      }
    }
  }

  // Windows that keep strays out

  /** No half-open or open connection works with a window that lets every number pass. */
  predicate Windowed(c: Conn) {
    c.rdp.state in {SynSent, SynRcvd, Open} ==> !LetsAllPass(c.rdp.opt.window)
  }

  /**
   The options of a SYN that opens the connection, and those a csp_rdp_connect uses, hold no such window; and a
   csp_rdp_connect comes in time and covers the queue.
   */
  predicate Windowing(c: Conn, e: Event, cfg: Config, env: Env) {
    match e
    case Connect => Orderly(c, Connect, cfg, env) && !LetsAllPass(cfg.defaults.window)
    case Packet(seg) =>
      seg.syn && !seg.rst && c.rdp.state == Closed ==> !LetsAllPass(ReadOptions(seg.body, env.leftover).window)
    case _ => true
  }

  lemma WindowingIsOrderly(c: Conn, e: Event, cfg: Config, env: Env)
    requires Windowed(c) && Windowing(c, e, cfg, env)
    ensures Orderly(c, e, cfg, env)
  {
    hide Stray, LetsAllPass, ReadOptions, InWindow, InTime;
    if e.Packet? && c.rdp.state in {SynRcvd, Open} && Stray(c, e.seg, cfg, env) {
      StraysPassAll(c, e.seg, cfg, env);
    }
  }

  /** A packet changes the agreed window only by opening a closed connection. */
  lemma PacketKeepsWindow(c: Conn, seg: Segment, cfg: Config, env: Env)
    requires Life(c) && c.open && c.frdp
    ensures var c' := Happen(c, Packet(seg), cfg, env);
            || c'.rdp.state in {Closed, CloseWait}
            || (c'.rdp.opt == c.rdp.opt && c.rdp.state in {SynSent, SynRcvd, Open})
            || (seg.syn && !seg.rst && c.rdp.state == Closed && c'.rdp.opt == ReadOptions(seg.body, env.leftover))
  {
    hide SeqBetween, ReadOptions, NewAcked, AckInRange, DiscardClose;
    CloseKeeps(c, {Protocol}, cfg, env);
    DiscardEnds(c, {Protocol}, cfg, env);
    DiscardEnds(c.(rdp := c.rdp.(state := Open)), {Protocol}, cfg, env);
    DiscardEnds(SendRst(c, false, cfg, env), {Protocol}, cfg, env);
    AckedKeepsOptions(c, seg, cfg, env);
    AckedKeepsOptions(c.(socket := false, rdp := c.rdp.(state := Open)), seg, cfg, env);
    if seg.rst {
      RstEnds(c, seg, cfg, env);
    }
  }

  lemma DiscardEnds(c: Conn, who: set<Party>, cfg: Config, env: Env)
    requires c.open && c.frdp
    ensures DiscardClose(c, who, cfg, env).rdp.state in {Closed, CloseWait}
  {
  }

  lemma RstEnds(c: Conn, seg: Segment, cfg: Config, env: Env)
    requires Life(c) && c.open && c.frdp && seg.rst
    ensures var c' := Happen(c, Packet(seg), cfg, env);
            c'.rdp.state in {Closed, CloseWait} || (c'.rdp.opt == c.rdp.opt && c'.rdp.state == c.rdp.state)
  {
    hide DiscardClose;
    var c1 := if seg.ack then c.(rdp := c.rdp.(sndUna := U16(seg.ackNr + 1))) else c;
    DiscardEnds(c1, ClosedByPeer(seg, cfg), cfg, env);
    var c2 := SendRst(c1.(timestamp := env.now, rdp := c1.rdp.(state := CloseWait)), true, cfg, env);
    DiscardEnds(c2, {Protocol} + if cfg.fastClose then {Timeout} else {}, cfg, env);
  }

  lemma AckedKeepsOptions(c: Conn, seg: Segment, cfg: Config, env: Env)
    ensures NewAcked(c, seg, cfg, env).rdp.opt == c.rdp.opt
  {
    hide Flush, RxAdd, CheckAck, SendEack, FlushEack, Words16;
    var c1 := c.(rdp := c.rdp.(sndUna := U16(seg.ackNr + 1)));
    OutOfOrderShape(c1, seg, cfg, env);
    if |c1.rxq| < cfg.queueLength {
      InOrderShape(c1, seg, cfg, env);
    }
  }

  /** The agreed options stay, and so does the state, or the connection is closing. */
  predicate SameTerms(c: Conn, c': Conn) {
    c'.rdp.opt == c.rdp.opt && (c'.rdp.state in {Closed, CloseWait} || c'.rdp.state == c.rdp.state)
  }

  lemma CloseTerms(c: Conn, who: set<Party>, cfg: Config, env: Env)
    ensures SameTerms(c, ConnClose(c, who, cfg, env))
  {
  }

  lemma TimeoutsTerms(c: Conn, cfg: Config, env: Env)
    ensures SameTerms(c, CheckTimeouts(c, cfg, env))
  {
    hide ConnClose, TimeAfter, SweepTx, SweepOut, CheckAck;
    CloseTerms(c, ALL_PARTIES, cfg, env);
    CloseTerms(c, {Protocol, Timeout}, cfg, env);
    AcksTouchLittle(c.(out := c.out + SweepOut(c.rdp.tx, c.rdp, env.now),
                       rdp := c.rdp.(tx := SweepTx(c.rdp.tx, c.rdp, env.now))), cfg, env);
  }

  lemma GiveUpTerms(c: Conn, cfg: Config, env: Env)
    ensures SameTerms(c, ConnectFail(c, cfg, env))
  {
    hide ConnClose;
    CloseTerms(CloseInternal(c, {Protocol}, false, cfg, env).1, {Userspace}, cfg, env);
  }

  lemma ReadTerms(c: Conn, cfg: Config, env: Env)
    ensures SameTerms(c, Read(c, cfg, env))
  {
    hide CheckAck;
    if c.rxq != [] {
      AcksTouchLittle(c.(rxq := c.rxq[1..]), cfg, env);
    }
  }

  lemma RetryTerms(c: Conn, cfg: Config, env: Env)
    ensures SameTerms(c, ConnectRetry(c, cfg, env))
  {
    hide OptionBytes;
  }

  lemma DatagramTerms(c: Conn, bytes: seq<byte>, cfg: Config, env: Env)
    ensures SameTerms(c, NewDatagram(c, bytes, cfg, env))
  {
    hide ConnClose;
    CloseTerms(c.(rxq := c.rxq + [Data(bytes)]), {Userspace}, cfg, env);
  }

  lemma OptionsStay(c: Conn, e: Event, cfg: Config, env: Env)
    requires Enabled(c, e) && !e.Connect? && !e.Packet?
    ensures SameTerms(c, Happen(c, e, cfg, env))
  {
    hide CheckTimeouts, ConnClose, NewDatagram, ConnectFail, ConnectRetry, Read, ReadyForTx;
    match e
    case Timeouts => TimeoutsTerms(c, cfg, env);
    case UserClose => CloseTerms(c, {Userspace}, cfg, env);
    case GiveUp => GiveUpTerms(c, cfg, env);
    case UserRead => ReadTerms(c, cfg, env);
    case Retry => RetryTerms(c, cfg, env);
    case Datagram(bytes) => DatagramTerms(c, bytes, cfg, env);
    case _ =>
  }

  lemma WindowStays(c: Conn, e: Event, cfg: Config, env: Env)
    requires Kept(c) && Windowed(c) && Enabled(c, e) && Windowing(c, e, cfg, env)
    ensures Windowed(Happen(c, e, cfg, env))
  {
    hide LetsAllPass, InWindow, Happen, RxOk, ReadOptions, InTime;
    match e
    case Connect => ConnectOptions(c, cfg, env);
    case Packet(seg) => PacketKeepsWindow(c, seg, cfg, env);
    case _ => OptionsStay(c, e, cfg, env);
  }

  lemma ConnectOptions(c: Conn, cfg: Config, env: Env)
    ensures Happen(c, Connect, cfg, env).rdp.opt == cfg.defaults
  {
    hide OptionBytes;
  }

  ghost predicate AllWindowing(run: seq<Conn>, hs: seq<Happening>, cfg: Config)
    requires |run| == |hs| + 1
  {
    forall i | 0 <= i < |hs| :: Windowing(run[i], hs[i].e, SettingsAt(cfg, hs[i]), hs[i].env)
  }

  lemma {:induction false} WindowedInTrace(run: seq<Conn>, hs: seq<Happening>, i: nat, cfg: Config)
    requires IsTrace(run, hs, cfg) && AllWindowing(run, hs, cfg) && i < |run|
    ensures Kept(run[i]) && Windowed(run[i])
  {
    hide Happen, Kept, Windowed, Windowing, Orderly, Enabled, SettingsAt;
    if i > 0 {
      WindowedInTrace(run, hs, i - 1, cfg);
      var c, h, now := run[i - 1], hs[i - 1], SettingsAt(cfg, hs[i - 1]);
      assert IsStep(c, h, run[i - 1 + 1], cfg);
      WindowingIsOrderly(c, h.e, now, h.env);
      HappenKeepsIff(c, h.e, now, h.env);
      WindowStays(c, h.e, now, h.env);
    } else {
      FreshIsKept(cfg);
      FreshIsWindowed(cfg);
    }
  }

  lemma FreshIsWindowed(cfg: Config)
    ensures Windowed(Fresh(cfg))
  {
  }

  /**
   So it is enough that no announced or configured window is a multiple of 2^15: the reorder queue then holds distinct
   numbers inside the window, and is never full while the agreed window is at most rdp_max_window.
   */
  lemma ReorderQueueInRun(run: seq<Conn>, hs: seq<Happening>, i: nat, cfg: Config)
    requires IsTrace(run, hs, cfg) && AllWindowing(run, hs, cfg) && i < |run|
    ensures Distinct(run[i].rdp.rx)
    ensures InWindow(run[i].rdp.rx, run[i].rdp.rcvCur, 2, run[i].rdp.opt.window)
    ensures run[i].rdp.opt.window <= cfg.maxWindow && 1 <= cfg.maxWindow ==> |run[i].rdp.rx| < 2 * cfg.maxWindow
  {
    hide Off, Windowed, Windowing, Life;
    WindowedInTrace(run, hs, i, cfg);
    if run[i].rdp.opt.window <= cfg.maxWindow && 1 <= cfg.maxWindow {
      AddRefusesOnlyDuplicates(run[i], Segment(false, true, false, false, 0, 0, []), cfg);
    }
  }

  /**
   A trace on which a SYN announces the window 0, which nothing checks, and a segment five numbers ahead is queued.
   */
  lemma ZeroWindowEscapes(cfg: Config, syn: Segment, data: Segment, env: Env)
    requires syn.syn && !syn.rst && ReadOptions(syn.body, env.leftover).window == 0 && cfg.maxWindow >= 1
    requires data == Segment(false, true, false, false, U16(syn.seqNr + 5), env.random, [7]) && env.acceptRoom
    ensures var c1 := Happen(Fresh(cfg), Allocate(true, true), cfg, env);
            var c2 := Happen(c1, Packet(syn), cfg, env);
            var c3 := Happen(c2, Packet(data), cfg, env);
            && IsTrace([Fresh(cfg), c1, c2, c3],
                       [Happening(Allocate(true, true), env, cfg.defaults), Happening(Packet(syn), env, cfg.defaults),
                        Happening(Packet(data), env, cfg.defaults)], cfg)
            && c3.open && !RxOk(c3)
  {
    hide ReadOptions, NewInOpen, Stray, Kept;
    var c1 := Happen(Fresh(cfg), Allocate(true, true), cfg, env);
    var c2 := Happen(c1, Packet(syn), cfg, env);
    ZeroWindowStray(c2, data, syn.seqNr, cfg, env);
    NewInOpenKeepsIff(c2, data, cfg, env);
    StrayStaysOpen(c2, data, cfg, env);
  }

  lemma ZeroWindowStray(c: Conn, data: Segment, irs: uint16, cfg: Config, env: Env)
    requires c.rdp.state == SynRcvd && c.rdp.opt.window == 0 && c.rdp.rcvCur == irs && c.rdp.rx == []
    requires c.rdp.sndUna == c.rdp.sndIss == env.random && c.rdp.sndNxt == U16(env.random + 1)
    requires cfg.maxWindow >= 1 && env.acceptRoom
    requires data == Segment(false, true, false, false, U16(irs + 5), env.random, [7])
    ensures Stray(c, data, cfg, env)
  {
    hide SeqBetween;
    InWindowOffset(data.seqNr, irs, 0);
    EndPasses(c.rdp.sndUna - 1, c.rdp.sndNxt - 1);
    SubMod(irs + 5, irs);
  }

  lemma StrayStaysOpen(c: Conn, seg: Segment, cfg: Config, env: Env)
    requires c.rdp.state in {SynRcvd, Open} && Stray(c, seg, cfg, env) && c.open
    ensures NewInOpen(c, seg, cfg, env).open
  {
    hide SeqBetween, AckInRange;
    AckedKeepsState(c, seg, cfg, env);
    AckedKeepsState(c.(socket := false, rdp := c.rdp.(state := Open)), seg, cfg, env);
  }
}
