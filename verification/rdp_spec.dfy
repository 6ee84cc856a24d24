/**
 RDP as functions on the value of a connection: one function for each function of csp_rdp.c and
 for csp_conn_close.  `RdpConnection` proves the imperative code against these functions;
 `RdpQueues`, `RdpNetwork` and `RdpLife` prove what the protocol promises about them.
 */
module RdpSpec {
  import opened Words

  datatype State = Closed | SynSent | SynRcvd | Open | CloseWait

  datatype Party = Userspace | Protocol | Timeout

  const ALL_PARTIES: set<Party> := {Userspace, Protocol, Timeout}

  datatype Options = Options(
    window: uint32,
    connTimeout: uint32,
    packetTimeout: uint32,
    delayedAcks: uint32,
    ackTimeout: uint32,
    ackDelayCount: uint32)

  /** A packet whose RDP header has been converted to host byte order; `body` is what precedes the header. */
  datatype Segment = Segment(
    syn: bool, ack: bool, eak: bool, rst: bool,
    seqNr: uint16,
    ackNr: uint16,
    body: seq<byte>)

  datatype TxElem = TxElem(seg: Segment, timestamp: uint32, quarantine: uint32)

  /** An entry of the application queue: a packet, or the null pointer that wakes a reader up. */
  datatype Item = Wake | Data(bytes: seq<byte>)

  /** Compile-time and start-up settings. */
  datatype Config = Config(
    queueLength: nat,     // conn_queue_length
    maxWindow: nat,       // rdp_max_window
    bufferSize: nat,      // csp_buffer_data_size()
    defaults: Options,    // csp_rdp_set_opt
    fastClose: bool)      // CSP_USE_RDP_FAST_CLOSE

  /** What one atomic step reads from its surroundings. */
  datatype Env = Env(
    now: uint32,          // csp_get_ms()
    random: uint16,       // rand()
    leftover: Options,    // words found in the buffer of a SYN that is too short to hold its options
    junk: uint32,         // quarantine field of a buffer nobody wrote it in
    acceptRoom: bool)     // the listening socket can queue one more connection

  /** The `rdp` structure inside a connection. */
  datatype Rdp = Rdp(
    state: State,
    closedBy: set<Party>,
    sndNxt: uint16,       // number of the next segment to send
    sndUna: uint16,       // oldest unacknowledged number
    sndIss: uint16,       // initial send number
    rcvCur: uint16,       // last number received in sequence
    rcvIrs: uint16,       // initial receive number
    rcvLsa: uint16,       // last number acknowledged to the peer
    opt: Options,
    ackTimestamp: uint32,
    tx: seq<TxElem>,      // retransmission queue
    rx: seq<Segment>)     // reorder queue

  datatype Conn = Conn(
    open: bool,           // CONN_OPEN rather than CONN_CLOSED
    frdp: bool,           // the connection's identifiers carry CSP_FRDP
    socket: bool,         // socket != NULL: user space has not been given the connection yet
    rxq: seq<Item>,       // application queue
    timestamp: uint32,
    rdp: Rdp,
    out: seq<Segment>)    // everything handed to csp_send_direct, in order

  function Fresh(cfg: Config): Conn {
    var opt := Options(0, cfg.defaults.connTimeout, cfg.defaults.packetTimeout, 0, 0, 0);
    Conn(false, false, false, [], 0, Rdp(Closed, {}, 0, 0, 0, 0, 0, 0, opt, 0, [], []), [])
  }

  // Wrapping comparisons

  predicate SeqBetween(s: int, start: int, end: int) {
    U16(U16(end) - U16(start)) >= U16(U16(s) - U16(start))
  }

  predicate SeqBefore(s: int, cmp: int) {
    U16(U16(s) - U16(cmp)) >= 0x8000
  }

  predicate SeqAfter(s: int, cmp: int) {
    SeqBefore(cmp, s)
  }

  predicate TimeBefore(time: int, cmp: int) {
    U32(U32(time) - U32(cmp)) >= 0x8000_0000
  }

  predicate TimeAfter(time: int, cmp: int) {
    TimeBefore(cmp, time)
  }

  // Bodies of control segments

  function OptionBytes(o: Options): (bytes: seq<byte>)
    ensures |bytes| == 24
  {
    Be32(o.window) + Be32(o.connTimeout) + Be32(o.packetTimeout) +
    Be32(o.delayedAcks) + Be32(o.ackTimeout) + Be32(o.ackDelayCount)
  }

  function ReadOptions(body: seq<byte>, leftover: Options): Options {
    if |body| < 24 then leftover
    else Options(Read32(body, 0), Read32(body, 4), Read32(body, 8), Read32(body, 12), Read32(body, 16),
      Read32(body, 20))
  }

  /** The list of sequence numbers an EACK body stands for; a trailing odd byte is ignored. */
  function Words16(body: seq<byte>): (words: seq<uint16>)
    ensures |words| == |body| / 2
    ensures forall j | 0 <= j < |words| :: words[j] == Read16(body, 2 * j)
    decreases |body|
  {
    if |body| < 2 then []
    else [Read16(body, 0)] + Words16(body[2..])
  }

  function SeqBytes(rx: seq<Segment>): (bytes: seq<byte>)
    ensures |bytes| == 2 * |rx|
  {
    if rx == [] then [] else SeqBytes(rx[..|rx| - 1]) + Be16(rx[|rx| - 1].seqNr)
  }

  // Sending

  function SendCmp(c: Conn, syn: bool, ack: bool, eak: bool, rst: bool, seqNr: uint16, ackNr: uint16,
                   body: seq<byte>, cfg: Config, env: Env): Conn
  {
    var seg := Segment(syn, ack, eak, rst, seqNr, ackNr, body);
    var c1 := if syn && |c.rdp.tx| < cfg.maxWindow
              then c.(rdp := c.rdp.(tx := c.rdp.tx + [TxElem(seg, env.now, env.junk)])) else c;
    var c2 := c1.(out := c1.out + [seg]);
    if ack then c2.(rdp := c2.rdp.(rcvLsa := ackNr, ackTimestamp := env.now)) else c2
  }

  function SendAck(c: Conn, cfg: Config, env: Env): Conn {
    SendCmp(c, false, true, false, false, c.rdp.sndNxt, c.rdp.rcvCur, [], cfg, env)
  }

  function SendRst(c: Conn, ack: bool, cfg: Config, env: Env): Conn {
    SendCmp(c, false, ack, false, true, c.rdp.sndNxt, c.rdp.rcvCur, [], cfg, env)
  }

  function SendSynAck(c: Conn, cfg: Config, env: Env): Conn {
    SendCmp(c, true, true, false, false, c.rdp.sndIss, c.rdp.rcvIrs, [], cfg, env)
  }

  function SendEack(c: Conn, cfg: Config, env: Env): Conn {
    SendCmp(c, false, true, true, false, c.rdp.sndNxt, c.rdp.rcvCur, SeqBytes(c.rdp.rx), cfg, env)
  }

  function SendSyn(c: Conn, cfg: Config, env: Env): Conn {
    SendCmp(c, true, false, false, false, c.rdp.sndIss, 0, OptionBytes(cfg.defaults), cfg, env)
  }

  predicate ShouldAck(c: Conn, now: uint32) {
    c.rdp.opt.delayedAcks == 0
    || TimeAfter(now, c.rdp.ackTimestamp + c.rdp.opt.ackTimeout)
    || SeqAfter(c.rdp.rcvCur, c.rdp.rcvLsa + c.rdp.opt.ackDelayCount)
  }

  function CheckAck(c: Conn, cfg: Config, env: Env): Conn {
    if cfg.queueLength - |c.rxq| > 2 * Int32(c.rdp.opt.window) && ShouldAck(c, env.now)
    then SendAck(c, cfg, env) else c
  }

  predicate ReadyForTx(c: Conn) {
    !SeqAfter(c.rdp.sndNxt, c.rdp.sndUna + c.rdp.opt.window - 1)
  }

  datatype SendResult = Sent | ResetError | TimedOutError | NoMemError | NoBufsError

  /** csp_rdp_send; a closed window is the case in which the wait for it times out. */
  function RdpSend(c: Conn, payload: seq<byte>, cfg: Config, env: Env): (SendResult, Conn) {
    if c.rdp.state != Open then (ResetError, c)
    else if !ReadyForTx(c) then (TimedOutError, c)
    else if |payload| + 5 > cfg.bufferSize then (NoMemError, c)
    else if |c.rdp.tx| >= cfg.maxWindow then (NoBufsError, c)
    else
      var seg := Segment(false, true, false, false, c.rdp.sndNxt, c.rdp.rcvCur, payload);
      (Sent, c.(rdp := c.rdp.(tx := c.rdp.tx + [TxElem(seg, env.now, 0)], sndNxt := U16(c.rdp.sndNxt + 1))))
  }

  /** csp_send on an RDP connection: what csp_rdp_send accepted goes to the interface. */
  function Send(c: Conn, payload: seq<byte>, cfg: Config, env: Env): (SendResult, Conn) {
    if !c.open then (ResetError, c)
    else
      var (r, c1) := RdpSend(c, payload, cfg, env);
      if r != Sent then (r, c1)
      else (Sent, c1.(out := c1.out + [c1.rdp.tx[|c1.rdp.tx| - 1].seg]))
  }

  // The reorder queue

  /** The position of the first queued segment with this number, or the length of the queue. */
  function Find(rx: seq<Segment>, seqNr: uint16): (i: nat)
    ensures i <= |rx|
    ensures i < |rx| ==> rx[i].seqNr == seqNr
    ensures forall j | 0 <= j < i :: rx[j].seqNr != seqNr
  {
    if rx == [] then 0
    else if rx[0].seqNr == seqNr then 0
    else Find(rx[1..], seqNr) + 1
  }

  /** csp_rdp_seq_in_rx_queue leaves the queue rotated to just behind the element it found. */
  function Search(rx: seq<Segment>, seqNr: uint16): (bool, seq<Segment>) {
    var i := Find(rx, seqNr);
    if i < |rx| then (true, rx[i + 1..] + rx[..i + 1]) else (false, rx)
  }

  function RxAdd(rx: seq<Segment>, seg: Segment, cfg: Config): (bool, seq<Segment>) {
    var (found, rx1) := Search(rx, seg.seqNr);
    if found || |rx1| >= cfg.maxWindow * 2 then (false, rx1) else (true, rx1 + [seg])
  }

  function Enqueue(q: seq<Item>, item: Item, cfg: Config): seq<Item> {
    if |q| < cfg.queueLength then q + [item] else q
  }

  datatype Flushed = Flushed(rx: seq<Segment>, rcvCur: uint16, rxq: seq<Item>)

  predicate CanDeliver(f: Flushed) {
    Find(f.rx, U16(f.rcvCur + 1)) < |f.rx|
  }

  /** Deliver the next number and leave the queue rotated to behind it. */
  function Deliver(f: Flushed, cfg: Config): Flushed
    requires CanDeliver(f)
  {
    var i := Find(f.rx, U16(f.rcvCur + 1));
    Flushed(f.rx[i + 1..] + f.rx[..i], U16(f.rcvCur + 1), Enqueue(f.rxq, Data(f.rx[i].body), cfg))
  }

  /** csp_rdp_rx_queue_flush: deliver and start again from the front until the next number is not queued. */
  function Flush(f: Flushed, cfg: Config): Flushed
    decreases |f.rx|
  {
    if CanDeliver(f) then Flush(Deliver(f, cfg), cfg) else f
  }

  function RxQueueFlush(c: Conn, cfg: Config): Conn {
    var f := Flush(Flushed(c.rdp.rx, c.rdp.rcvCur, c.rxq), cfg);
    c.(rxq := f.rxq, rdp := c.rdp.(rx := f.rx, rcvCur := f.rcvCur))
  }

  // The retransmission queue

  /** An element that a later number overtook is made to look expired, at most once per quarantine period. */
  function Touch(e: TxElem, words: seq<uint16>, packetTimeout: uint32, now: uint32): TxElem {
    if Overtaken(words, e.seg.seqNr) then Hasten(e, packetTimeout, now) else e
  }

  /** Some listed number is larger; the comparison does not wrap. */
  predicate Overtaken(words: seq<uint16>, seqNr: uint16) {
    words != [] && (Overtaken(words[..|words| - 1], seqNr) || words[|words| - 1] > seqNr)
  }

  function Hasten(e: TxElem, packetTimeout: uint32, now: uint32): TxElem {
    if TimeAfter(now, e.quarantine)
    then e.(timestamp := U32(now - packetTimeout - 1), quarantine := U32(now + packetTimeout / 2))
    else e
  }

  function EackElem(e: TxElem, words: seq<uint16>, packetTimeout: uint32, now: uint32): seq<TxElem> {
    if e.seg.seqNr in words then [] else [Touch(e, words, packetTimeout, now)]
  }

  function FlushEack(tx: seq<TxElem>, words: seq<uint16>, packetTimeout: uint32, now: uint32): seq<TxElem> {
    if tx == [] then []
    else FlushEack(tx[..|tx| - 1], words, packetTimeout, now) + EackElem(tx[|tx| - 1], words, packetTimeout, now)
  }

  predicate Expired(e: TxElem, packetTimeout: uint32, now: uint32) {
    TimeAfter(now, e.timestamp + packetTimeout)
  }

  function Resend(e: TxElem, rcvCur: uint16, now: uint32): TxElem {
    TxElem(e.seg.(ackNr := rcvCur), now, e.quarantine)
  }

  function SweepElem(e: TxElem, r: Rdp, now: uint32): seq<TxElem> {
    if SeqBefore(e.seg.seqNr, r.sndUna) then []
    else if Expired(e, r.opt.packetTimeout, now) then [Resend(e, r.rcvCur, now)]
    else [e]
  }

  function SweepSent(e: TxElem, r: Rdp, now: uint32): seq<Segment> {
    if SeqBefore(e.seg.seqNr, r.sndUna) || !Expired(e, r.opt.packetTimeout, now) then []
    else [Resend(e, r.rcvCur, now).seg]
  }

  /** The retransmission queue after the message-timeout loop: acknowledged elements are gone. */
  function SweepTx(tx: seq<TxElem>, r: Rdp, now: uint32): seq<TxElem> {
    if tx == [] then [] else SweepTx(tx[..|tx| - 1], r, now) + SweepElem(tx[|tx| - 1], r, now)
  }

  /** What the message-timeout loop sends again. */
  function SweepOut(tx: seq<TxElem>, r: Rdp, now: uint32): seq<Segment> {
    if tx == [] then [] else SweepOut(tx[..|tx| - 1], r, now) + SweepSent(tx[|tx| - 1], r, now)
  }

  // Closing

  /** csp_rdp_close_internal; the flag says that some party has not closed yet. */
  function CloseInternal(c: Conn, who: set<Party>, sendRst: bool, cfg: Config, env: Env): (bool, Conn) {
    if c.rdp.state == Closed then (false, c)
    else
      var c1 := c.(rdp := c.rdp.(closedBy := c.rdp.closedBy + who));
      var c2 := if c1.rdp.state == CloseWait then c1
                else
                  var w := c1.(timestamp := env.now, rdp := c1.rdp.(state := CloseWait));
                  if sendRst then SendRst(w, true, cfg, env) else w;
      if c2.rdp.closedBy != ALL_PARTIES then (true, c2)
      else (false, c2.(rdp := c2.rdp.(state := Closed, closedBy := {})))
  }

  function ConnClose(c: Conn, who: set<Party>, cfg: Config, env: Env): Conn {
    if !c.open then c
    else
      var (again, c1) := if c.frdp then CloseInternal(c, who, true, cfg, env) else (false, c);
      if again then c1
      else
        var c2 := c1.(open := false, rxq := []);
        if c.frdp then c2.(rdp := c2.rdp.(tx := [], rx := [])) else c2
  }

  function CheckTimeouts(c: Conn, cfg: Config, env: Env): Conn {
    if c.socket && TimeAfter(env.now, c.timestamp + c.rdp.opt.connTimeout) then
      ConnClose(c, ALL_PARTIES, cfg, env)
    else if c.rdp.state == CloseWait then
      if TimeAfter(env.now, c.timestamp + c.rdp.opt.connTimeout)
      then ConnClose(c, {Protocol, Timeout}, cfg, env) else c
    else
      var c1 := c.(out := c.out + SweepOut(c.rdp.tx, c.rdp, env.now),
                   rdp := c.rdp.(tx := SweepTx(c.rdp.tx, c.rdp, env.now)));
      if c1.rdp.state == Open && c1.rdp.opt.delayedAcks != 0 then CheckAck(c1, cfg, env) else c1
  }

  // Arriving segments

  function DiscardClose(c: Conn, who: set<Party>, cfg: Config, env: Env): Conn {
    if !c.socket then
      var c1 := ConnClose(c, who, cfg, env);
      c1.(rxq := Enqueue(c1.rxq, Wake, cfg))
    else ConnClose(c, who + {Userspace}, cfg, env)
  }

  function ClosedByPeer(seg: Segment, cfg: Config): set<Party> {
    {Protocol} + if seg.ack && cfg.fastClose then {Timeout} else {}
  }

  function NewRst(c: Conn, seg: Segment, cfg: Config, env: Env): (Conn, bool) {
    var c1 := if seg.ack then c.(rdp := c.rdp.(sndUna := U16(seg.ackNr + 1))) else c;
    if c1.rdp.state == Closed then (c1, c1.socket)
    else if c1.rdp.state == CloseWait then (DiscardClose(c1, ClosedByPeer(seg, cfg), cfg, env), false)
    else if seg.seqNr == c1.rdp.rcvCur + 1 then   // an int comparison: no wrap
      var c2 := SendRst(c1.(timestamp := env.now, rdp := c1.rdp.(state := CloseWait)), true, cfg, env);
      (DiscardClose(c2, {Protocol} + if cfg.fastClose then {Timeout} else {}, cfg, env), false)
    else (c1, false)
  }

  /** A passive open: take over the peer's number and options, choose an own number. */
  function AcceptSyn(c: Conn, seg: Segment, env: Env): Conn {
    c.(rdp := c.rdp.(sndIss := env.random, sndNxt := U16(env.random + 1), sndUna := env.random,
                     rcvCur := seg.seqNr, rcvIrs := seg.seqNr, rcvLsa := seg.seqNr,
                     opt := ReadOptions(seg.body, env.leftover), state := SynRcvd))
  }

  function NewInClosed(c: Conn, seg: Segment, cfg: Config, env: Env): Conn {
    if !seg.syn then DiscardClose(SendRst(c, false, cfg, env), {Protocol}, cfg, env)
    else SendSynAck(AcceptSyn(c, seg, env), cfg, env)
  }

  function AcceptSynAck(c: Conn, seg: Segment, env: Env): Conn {
    c.(rdp := c.rdp.(rcvCur := seg.seqNr, rcvIrs := seg.seqNr, rcvLsa := U16(seg.seqNr - 1),
                     sndUna := U16(seg.ackNr + 1), ackTimestamp := env.now, state := Open))
  }

  function NewInSynSent(c: Conn, seg: Segment, cfg: Config, env: Env): Conn {
    if seg.syn && seg.ack then SendAck(AcceptSynAck(c, seg, env), cfg, env)
    else if seg.ack then SendRst(c, false, cfg, env)
    else DiscardClose(c, {Protocol}, cfg, env)
  }

  predicate AckInRange(c: Conn, seg: Segment) {
    SeqBetween(seg.ackNr, c.rdp.sndUna - 1 - c.rdp.opt.window * 2, c.rdp.sndNxt - 1)
  }

  function NewOutOfOrder(c: Conn, seg: Segment, cfg: Config, env: Env): Conn {
    var (added, rx1) := RxAdd(c.rdp.rx, seg, cfg);
    var c1 := c.(rdp := c.rdp.(rx := rx1));
    if added then SendEack(c1, cfg, env) else CheckAck(c1, cfg, env)
  }

  /** The expected number: deliver it unless the application queue is full, then flush the reorder queue. */
  function NewInOrder(c: Conn, seg: Segment, cfg: Config, env: Env): Conn {
    if |c.rxq| >= cfg.queueLength then c
    else
      var c1 := c.(rxq := c.rxq + [Data(seg.body)], rdp := c.rdp.(rcvCur := seg.seqNr));
      RxQueueFlush(CheckAck(c1, cfg, env), cfg)
  }

  /** The data part of the OPEN state, after the acknowledgement has been stored. */
  function NewData(c: Conn, seg: Segment, cfg: Config, env: Env): Conn {
    if seg.seqNr != U16(c.rdp.rcvCur + 1) then NewOutOfOrder(c, seg, cfg, env) else NewInOrder(c, seg, cfg, env)
  }

  function NewAcked(c: Conn, seg: Segment, cfg: Config, env: Env): Conn {
    var c1 := c.(rdp := c.rdp.(sndUna := U16(seg.ackNr + 1)));
    if seg.eak then
      if |seg.body| > 0
      then c1.(rdp := c1.rdp.(tx := FlushEack(c1.rdp.tx, Words16(seg.body), c1.rdp.opt.packetTimeout, env.now)))
      else c1
    else if |seg.body| == 0 then c1
    else NewData(c1, seg, cfg, env)
  }

  /** A passive open completes when the own SYN is acknowledged and the socket can queue the connection. */
  function NewInSynRcvd(c: Conn, seg: Segment, cfg: Config, env: Env): Conn {
    if seg.ackNr != c.rdp.sndIss then DiscardClose(c, {Protocol}, cfg, env)
    else
      var c1 := c.(rdp := c.rdp.(state := Open));
      if c1.socket && !env.acceptRoom then DiscardClose(c1, {Protocol}, cfg, env)
      else NewAcked(c1.(socket := false), seg, cfg, env)
  }

  /** An acknowledging segment whose own number lies in the receive window. */
  function NewInWindow(c: Conn, seg: Segment, cfg: Config, env: Env): Conn {
    if !AckInRange(c, seg) then c
    else if c.rdp.state == SynRcvd then NewInSynRcvd(c, seg, cfg, env)
    else NewAcked(c, seg, cfg, env)
  }

  function NewInOpen(c: Conn, seg: Segment, cfg: Config, env: Env): Conn {
    if seg.syn || !seg.ack then
      if seg.seqNr != c.rdp.rcvIrs then DiscardClose(c, {Protocol}, cfg, env) else c
    else if !SeqBetween(seg.seqNr, c.rdp.rcvCur + 1, c.rdp.rcvCur + c.rdp.opt.window * 2) then
      if c.rdp.state == SynRcvd then SendSynAck(c, cfg, env) else SendEack(c, cfg, env)
    else NewInWindow(c, seg, cfg, env)
  }

  function NewInCloseWait(c: Conn, seg: Segment, cfg: Config, env: Env): Conn {
    if seg.syn || !seg.ack then c
    else if !AckInRange(c, seg) then c
    else SendRst(c.(rdp := c.rdp.(sndUna := U16(seg.ackNr + 1))), true, cfg, env)
  }

  /** csp_rdp_new_packet; the flag asks the router to close the connection. */
  function NewPacket(c: Conn, seg: Segment, cfg: Config, env: Env): (Conn, bool) {
    if seg.rst then NewRst(c, seg, cfg, env)
    else
      match c.rdp.state
      case Closed => (NewInClosed(c, seg, cfg, env), false)
      case SynSent => (NewInSynSent(c, seg, cfg, env), false)
      case SynRcvd => (NewInOpen(c, seg, cfg, env), false)
      case Open => (NewInOpen(c, seg, cfg, env), false)
      case CloseWait => (NewInCloseWait(c, seg, cfg, env), false)
  }

  // Connecting

  /** An active open chooses a new number. */
  function ChooseIss(c: Conn, env: Env): Conn {
    c.(rdp := c.rdp.(sndIss := env.random, sndNxt := U16(env.random + 1), sndUna := env.random, state := SynSent))
  }

  /** csp_rdp_connect up to the wait for the reply. */
  function ConnectStart(c: Conn, cfg: Config, env: Env): Conn {
    var c1 := c.(rdp := c.rdp.(opt := cfg.defaults, ackTimestamp := env.now));
    if c1.rdp.state == Open then c1 else SendSyn(ChooseIss(c1, env), cfg, env)
  }

  /** The second attempt after a half-open connection was found: csp_rdp_flush_all, then SYN again. */
  function ConnectRetry(c: Conn, cfg: Config, env: Env): Conn {
    if c.rdp.state != SynSent then c
    else SendSyn(ChooseIss(c.(rdp := c.rdp.(tx := [], rx := [])), env), cfg, env)
  }

  /** Giving up: csp_rdp_connect's error path followed by csp_connect's csp_close. */
  function ConnectFail(c: Conn, cfg: Config, env: Env): Conn {
    var (_, c1) := CloseInternal(c, {Protocol}, false, cfg, env);
    ConnClose(c1, {Userspace}, cfg, env)
  }

  /** csp_read: take one item, then perhaps acknowledge. */
  function Read(c: Conn, cfg: Config, env: Env): Conn {
    if !c.open || c.rxq == [] then c
    else
      var c1 := c.(rxq := c.rxq[1..]);
      if c1.frdp && c1.rdp.opt.delayedAcks != 0 then CheckAck(c1, cfg, env) else c1
  }
}
