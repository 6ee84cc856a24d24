/** The three-way handshake leads to a matched pair, the starting point of the runs in RdpRuns. */
module RdpHandshake {
  import opened Words
  import opened RdpSpec
  import opened RdpQueues
  import opened RdpNetwork
  import opened RdpRuns

  /** The options survive their trip in the SYN. */
  lemma OptionsRoundTrip(o: Options, leftover: Options)
    ensures ReadOptions(OptionBytes(o), leftover) == o
  {
    hide Be32, Read32;
    var b1, b2, b3, b4, b5, b6 :=
      Be32(o.window), Be32(o.connTimeout), Be32(o.packetTimeout),
      Be32(o.delayedAcks), Be32(o.ackTimeout), Be32(o.ackDelayCount);
    ReadBe32([], o.window, b2 + b3 + b4 + b5 + b6);
    assert [] + b1 + (b2 + b3 + b4 + b5 + b6) == OptionBytes(o);
    ReadBe32(b1, o.connTimeout, b3 + b4 + b5 + b6);
    assert b1 + b2 + (b3 + b4 + b5 + b6) == OptionBytes(o);
    ReadBe32(b1 + b2, o.packetTimeout, b4 + b5 + b6);
    assert b1 + b2 + b3 + (b4 + b5 + b6) == OptionBytes(o);
    ReadBe32(b1 + b2 + b3, o.delayedAcks, b5 + b6);
    assert b1 + b2 + b3 + b4 + (b5 + b6) == OptionBytes(o);
    ReadBe32(b1 + b2 + b3 + b4, o.ackTimeout, b6);
    ReadBe32(b1 + b2 + b3 + b4 + b5, o.ackDelayCount, []);
    assert b1 + b2 + b3 + b4 + b5 + b6 + [] == OptionBytes(o);
  }

  /** csp_conn_new for an RDP connection; a passive one is still tied to its socket. */
  function NewConn(passive: bool, cfg: Config): Conn {
    Fresh(cfg).(open := true, frdp := true, socket := passive)
  }

  function Quiet(c: Conn): Conn {
    c.(out := [])
  }

  /** The client's SYN announces the options it is configured with. */
  function Syn(ca: Config, iss: uint16): Segment {
    Segment(true, false, false, false, iss, 0, OptionBytes(ca.defaults))
  }

  function SynAck(iss: uint16, irs: uint16): Segment {
    Segment(true, true, false, false, iss, irs, [])
  }

  function FinalAck(iss: uint16, irs: uint16): Segment {
    Segment(false, true, false, false, U16(iss + 1), irs, [])
  }

  /** The client after the SYN/ACK of a server that chose the number iss. */
  function Client(ca: Config, e1: Env, e3: Env, iss: uint16): Conn {
    NewPacket(Quiet(ConnectStart(NewConn(false, ca), ca, e1)), SynAck(iss, e1.random), ca, e3).0
  }

  /** The server, with its own settings cb, after the SYN and the ACK of a client. */
  function Server(ca: Config, cb: Config, e2: Env, e4: Env, irs: uint16): Conn {
    NewPacket(Quiet(NewPacket(NewConn(true, cb), Syn(ca, irs), cb, e2).0), FinalAck(irs, e2.random), cb, e4).0
  }

  /** Client and server after SYN, SYN/ACK and ACK have been exchanged, with those segments still in the channels. */
  function Shake(ca: Config, cb: Config, e1: Env, e2: Env, e3: Env, e4: Env): Net {
    Net(Side(Quiet(Client(ca, e1, e3, e2.random)), [], [], false),
        Side(Quiet(Server(ca, cb, e2, e4, e1.random)), [], [], false),
        {Tagged(Syn(ca, e1.random), 0, 0), Tagged(FinalAck(e1.random, e2.random), 0, 0)},
        {Tagged(SynAck(e2.random, e1.random), 0, 0)})
  }

  /** The segments of the exchange are the ones the two ends really send. */
  lemma ShakeSends(ca: Config, cb: Config, e1: Env, e2: Env, e3: Env)
    ensures ConnectStart(NewConn(false, ca), ca, e1).out == [Syn(ca, e1.random)]
    ensures NewPacket(NewConn(true, cb), Syn(ca, e1.random), cb, e2).0.out == [SynAck(e2.random, e1.random)]
    ensures Client(ca, e1, e3, e2.random).out == [FinalAck(e1.random, e2.random)]
  {
    hide OptionBytes, ReadOptions;
  }

  lemma ServerAcks(c: Conn, seg: Segment)
    requires seg.ackNr == c.rdp.sndIss == c.rdp.sndUna && c.rdp.sndNxt == U16(c.rdp.sndIss + 1)
    requires SaneWindow(c.rdp.opt.window)
    ensures AckInRange(c, seg)
  {
    var iss: int, w: int := c.rdp.sndIss, c.rdp.opt.window;
    BetweenIsInterval(iss, iss - 1 - w * 2, iss);
    NextLast(iss, iss - 1 - w * 2);
    hide U16, SeqBetween;
  }

  lemma ServerOpens(c: Conn, seg: Segment, cfg: Config, env: Env)
    requires c.rdp.state == SynRcvd && Plain(seg) && !seg.eak && seg.body == [] && env.acceptRoom
    requires seg.seqNr == U16(c.rdp.rcvCur + 1) && seg.ackNr == c.rdp.sndIss
    requires c.rdp.sndUna == c.rdp.sndIss && c.rdp.sndNxt == U16(c.rdp.sndIss + 1) && SaneWindow(c.rdp.opt.window)
    ensures NewPacket(c, seg, cfg, env).0
         == c.(socket := false, rdp := c.rdp.(state := Open, sndUna := U16(seg.ackNr + 1)))
  {
    SaneWindowOffset(seg.seqNr, c.rdp.rcvCur, c.rdp.opt.window);
    OffNext(seg.seqNr, c.rdp.rcvCur);
    ServerAcks(c, seg);
    hide U16, SeqBetween, AckInRange, NewInOrder, NewOutOfOrder, NewRst, NewInClosed, NewInSynSent, NewInOpen;
  }

  lemma NextLast(iss: uint16, start: int)
    ensures SeqBetween(iss, start, U16(iss + 1) - 1) == SeqBetween(iss, start, iss)
  {
    AddMod(iss + 1, -1);
  }

  /** An end that is open with number iss towards a peer with number irs, and has seen no data. */
  ghost predicate Opened(c: Conn, iss: uint16, irs: uint16, window: uint32) {
    && Established(c, window) && c.rdp.rx == []
    && c.rdp.sndIss == iss && c.rdp.sndNxt == U16(iss + 1) && c.rdp.sndUna == U16(iss + 1)
    && c.rdp.rcvCur == irs && c.rdp.rcvIrs == irs
    && forall e | e in c.rdp.tx :: e.seg.seqNr == iss
  }

  /**
   SYN-SENT does not look at the acknowledgement: any SYN/ACK opens the client, and it then agrees with a server of
   number iss exactly when the SYN/ACK answers this client's SYN with that number, and is no stale one.
   */
  lemma SynAckAgreesIff(ca: Config, e1: Env, e3: Env, seg: Segment, iss: uint16)
    requires seg.syn && seg.ack && !seg.rst
    ensures var c := NewPacket(Quiet(ConnectStart(NewConn(false, ca), ca, e1)), seg, ca, e3).0;
            && c.open && c.rdp.state == Open
            && (Opened(Quiet(c), e1.random, iss, ca.defaults.window) <==> seg.seqNr == iss && seg.ackNr == e1.random)
  {
    hide OptionBytes;
  }

  lemma ClientSide(ca: Config, e1: Env, e3: Env, iss: uint16)
    ensures Opened(Quiet(Client(ca, e1, e3, iss)), e1.random, iss, ca.defaults.window)
  {
    hide U16, OptionBytes;
  }

  lemma ServerSide(ca: Config, cb: Config, e2: Env, e4: Env, irs: uint16)
    requires SaneWindow(ca.defaults.window) && e4.acceptRoom
    ensures Opened(Quiet(Server(ca, cb, e2, e4, irs)), e2.random, irs, ca.defaults.window)
  {
    OptionsRoundTrip(ca.defaults, e2.leftover);
    hide U16, OptionBytes, ReadOptions, NewInOpen;
    ServerOpens(Quiet(NewPacket(NewConn(true, cb), Syn(ca, irs), cb, e2).0), FinalAck(irs, e2.random), cb, e4);
  }

  /**
   The handshake agrees on numbers and on the client's window, however the server is configured: nothing compares
   the announced window with the server's own limit.
   */
  lemma HandshakeMatches(ca: Config, cb: Config, e1: Env, e2: Env, e3: Env, e4: Env)
    requires SaneWindow(ca.defaults.window) && e4.acceptRoom
    ensures Matched(Shake(ca, cb, e1, e2, e3, e4), ca.defaults.window)
  {
    hide U16, OptionBytes, Established, Client, Server;
    ClientSide(ca, e1, e3, e2.random);
    ServerSide(ca, cb, e2, e4, e1.random);
  }
}
