/**
 Two open RDP endpoints joined by a network that loses, duplicates and reorders.

 The unbounded history of a direction is the list of payloads its sender accepted and the list of
 payloads its receiver put into the application queue.  Payload number k (from 0) has the unbounded
 sequence number iss + 1 + k; the 16-bit fields hold such numbers modulo 65536.  A channel is the
 set of all segments ever sent, so that delivering any of them at any time, or never, is the network's choice.
 */
module RdpNetwork {
  import opened Words
  import opened RdpSpec
  import opened RdpQueues

  type Payload = seq<byte>

  /**
   * A segment in the channel, with the number k of payloads its own number stands for and the number a it
   * acknowledges.
   */
  datatype Tagged = Tagged(seg: Segment, k: int, a: int)

  /**
   An endpoint with the history of both directions as it has seen them, and whether its router task has checked the
   timeouts since it handled the last packet.
   */
  datatype Side = Side(c: Conn, accepted: seq<Payload>, delivered: seq<Payload>, checked: bool)

  datatype Net = Net(a: Side, b: Side, ab: set<Tagged>, ba: set<Tagged>)

  function Flip(n: Net): Net {
    Net(n.b, n.a, n.ba, n.ab)
  }

  // Steps of endpoint a

  /** The unbounded numbers of a segment the endpoint has just sent. */
  function TagOf(s: View, seg: Segment): Tagged {
    Tagged(seg, |s.accepted| - U16(s.rdp.sndNxt - seg.seqNr), |s.delivered| - U16(s.rdp.rcvCur - seg.ackNr))
  }

  function Emitted(s: Side): set<Tagged> {
    set seg | seg in s.c.out :: TagOf(ViewOf(s), seg)
  }

  /** Everything sent during the step is in the channel now. */
  function Settle(n: Net, s: Side): Net {
    Net(s.(c := s.c.(out := [])), n.b, n.ab + Emitted(s), n.ba)
  }

  function Payloads(items: seq<Item>): seq<Payload> {
    seq(|items|, i requires 0 <= i < |items| => if items[i].Data? then items[i].bytes else [])
  }

  /** What a step appended to the application queue. */
  function Appended(q: seq<Item>, q': seq<Item>): seq<Payload> {
    if q <= q' then Payloads(q'[|q|..]) else []
  }

  datatype Action =
    | SendPayload(payload: Payload)
    | ReadPacket
    | Check
    | Arrive(x: Tagged)

  function SendSide(s: Side, payload: Payload, cfg: Config, env: Env): Side {
    var (r, c) := Send(s.c, payload, cfg, env);
    s.(c := c, accepted := if r == SendResult.Sent then s.accepted + [payload] else s.accepted)
  }

  function ReadSide(s: Side, cfg: Config, env: Env): Side {
    s.(c := Read(s.c, cfg, env))
  }

  function CheckSide(s: Side, cfg: Config, env: Env): Side {
    s.(c := CheckTimeouts(s.c, cfg, env), checked := true)
  }

  function ArriveSide(s: Side, seg: Segment, cfg: Config, env: Env): Side {
    var (c, close) := NewPacket(s.c, seg, cfg, env);
    var c1 := if close then ConnClose(c, {Userspace}, cfg, env) else c;
    Side(c1, s.accepted, s.delivered + Appended(s.c.rxq, c1.rxq), false)
  }

  /** A packet is less than 2^15 sequence numbers old when it arrives. */
  predicate Young(s: Side, x: Tagged) {
    |s.delivered| - x.k < 0x8000 && |s.accepted| - x.a < 0x8000
  }

  /** If the segment is the expected one, the application queue has room for it and for the run it completes. */
  predicate RoomFor(c: Conn, seg: Segment, cfg: Config) {
    seg.seqNr == U16(c.rdp.rcvCur + 1) && |c.rxq| < cfg.queueLength ==>
      |c.rxq| + 1 + |Run(c.rdp.rx, seg.seqNr)| <= cfg.queueLength
  }

  /** One atomic step of endpoint a, whose settings are cfg. */
  function Step(n: Net, act: Action, cfg: Config, env: Env): Net {
    match act
    case SendPayload(p) => Settle(n, SendSide(n.a, p, cfg, env))
    case ReadPacket => Settle(n, ReadSide(n.a, cfg, env))
    case Check => Settle(n, CheckSide(n.a, cfg, env))
    case Arrive(x) => Settle(n, ArriveSide(n.a, x.seg, cfg, env))
  }

  /**
   What the environment may do: deliver what was sent, not too late, and keep room in the application queue.  As in
   csp_route_work, the router task checks the timeouts and then waits for one packet; user space may send and read
   in between.
   */
  predicate Enabled(n: Net, act: Action, cfg: Config) {
    act.Arrive? ==> n.a.checked && act.x in n.ba && Young(n.a, act.x) && RoomFor(n.a.c, act.x.seg, cfg)
  }

  /** A step of either endpoint; the two may be configured differently. */
  ghost predicate Next(n: Net, n': Net, ca: Config, cb: Config) {
    exists act, env ::
      || (Enabled(n, act, ca) && n' == Step(n, act, ca, env))
      || (Enabled(Flip(n), act, cb) && n' == Flip(Step(Flip(n), act, cb, env)))
  }

  /** A run: consecutive states are related by a step of one endpoint. */
  ghost predicate IsRun(run: seq<Net>, ca: Config, cb: Config) {
    forall i | 0 <= i < |run| - 1 :: Next(run[i], run[i + 1], ca, cb)
  }

  // The invariant of the direction from s to r: `data` carries segments of s, `acks` those of r

  /** The part of an endpoint the invariant speaks about. */
  datatype View = View(rdp: Rdp, accepted: seq<Payload>, delivered: seq<Payload>)

  function ViewOf(s: Side): View {
    View(s.c.rdp, s.accepted, s.delivered)
  }

  function Wire(s: View, k: int): uint16 {
    U16(s.rdp.sndIss + 1 + k)
  }

  /** How many payloads snd_una counts as acknowledged. */
  function Una(s: View): int {
    |s.accepted| - U16(s.rdp.sndNxt - s.rdp.sndUna)
  }

  /** The payload number of an element of the retransmission queue. */
  function TxIndex(s: View, e: TxElem): int {
    |s.accepted| - U16(s.rdp.sndNxt - e.seg.seqNr)
  }

  /** The payload number of an element of the reorder queue. */
  function RxIndex(r: View, e: Segment): int {
    |r.delivered| - 1 + Off(e.seqNr, r.rdp.rcvCur)
  }

  ghost predicate InTx(s: View, k: int) {
    exists e :: e in s.rdp.tx && e.seg.seqNr == Wire(s, k)
  }

  ghost predicate InRx(s: View, r: View, k: int) {
    exists e :: e in r.rdp.rx && e.seqNr == Wire(s, k)
  }

  /** Counters: delivered <= accepted <= delivered + window, and snd_una lies not far below delivered. */
  ghost predicate Counters(s: View, r: View) {
    var n, d, w := |s.accepted|, |r.delivered|, s.rdp.opt.window as int;
    && s.rdp.sndNxt == Wire(s, n)
    && r.rdp.rcvCur == Wire(s, d - 1)
    && r.rdp.rcvIrs == s.rdp.sndIss
    && d <= n <= d + w
    && 0 <= Una(s) <= d
    && n - Una(s) < 0x8000
  }

  /** Delivered is a prefix of accepted, with no gap, repeat or swap. */
  ghost predicate Prefix(s: View, r: View) {
    r.delivered <= s.accepted && forall p | p in r.delivered :: p != []
  }

  predicate TxElemOk(s: View, e: TxElem) {
    && -1 <= TxIndex(s, e) < |s.accepted|
    && Una(s) - TxIndex(s, e) < 0x8000
    && (TxIndex(s, e) >= 0 ==> Plain(e.seg) && !e.seg.eak && e.seg.body == s.accepted[TxIndex(s, e)])
  }

  ghost predicate TxOk(s: View) {
    forall e | e in s.rdp.tx :: TxElemOk(s, e)
  }

  /** Right after the timeouts have been checked, nothing acknowledged is left. */
  ghost predicate TxFresh(s: View) {
    forall e | e in s.rdp.tx :: TxIndex(s, e) >= Una(s)
  }

  predicate RxElemOk(s: View, r: View, e: Segment) {
    && 0 <= RxIndex(r, e) < |s.accepted|
    && e.body != [] && e.body == s.accepted[RxIndex(r, e)]
  }

  ghost predicate RxView(s: View, r: View) {
    && Distinct(r.rdp.rx) && InWindow(r.rdp.rx, r.rdp.rcvCur, 2, s.rdp.opt.window)
    && forall e | e in r.rdp.rx :: RxElemOk(s, r, e)
  }

  /** A SYN or SYN/ACK of this incarnation; the peer is past it. */
  predicate Handshake(s: View, seg: Segment) {
    seg.syn && !seg.rst && seg.seqNr == s.rdp.sndIss
  }

  predicate DataSegOk(s: View, x: Tagged) {
    || Handshake(s, x.seg)
    || (&& Plain(x.seg)
        && 0 <= x.k <= |s.accepted|
        && x.seg.seqNr == Wire(s, x.k)
        && (!x.seg.eak && |x.seg.body| > 0 ==> x.k < |s.accepted| && x.seg.body == s.accepted[x.k]))
  }

  ghost predicate DataOk(s: View, data: set<Tagged>) {
    forall x | x in data :: DataSegOk(s, x)
  }

  /** The payload a listed number stands for is delivered, or waits in the reorder queue. */
  ghost predicate Held(s: View, r: View, k: int) {
    k < |r.delivered| || InRx(s, r, k)
  }

  function EackIndex(y: Tagged, w: uint16): int {
    y.a - 1 + Off(w, y.seg.ackNr)
  }

  ghost predicate EackOk(s: View, r: View, y: Tagged) {
    forall w | w in Words16(y.seg.body) :: EackIndex(y, w) < |s.accepted| && Held(s, r, EackIndex(y, w))
  }

  ghost predicate AckSegOk(s: View, r: View, y: Tagged) {
    || y.seg.syn
    || (&& y.seg.ackNr == Wire(s, y.a - 1)
        && 0 <= y.a <= |r.delivered|
        && (y.seg.eak ==> EackOk(s, r, y)))
  }

  ghost predicate AcksOk(s: View, r: View, acks: set<Tagged>) {
    forall y | y in acks :: AckSegOk(s, r, y)
  }

  /** No accepted payload is lost for good: what is not delivered can be sent again or waits at the receiver. */
  ghost predicate NothingLost(s: View, r: View) {
    forall k | |r.delivered| <= k < |s.accepted| :: InTx(s, k) || InRx(s, r, k)
  }

  ghost predicate Half(s: View, r: View, data: set<Tagged>, acks: set<Tagged>) {
    && Counters(s, r)
    && Prefix(s, r)
    && TxOk(s)
    && RxView(s, r)
    && DataOk(s, data)
    && AcksOk(s, r, acks)
    && NothingLost(s, r)
  }

  predicate Established(c: Conn, window: uint32) {
    && c.open && c.frdp && !c.socket && c.rdp.state == Open
    && c.rdp.opt.window == window && c.out == []
  }

  /** The invariant of the whole system. */
  ghost predicate Inv(n: Net, window: uint32) {
    && SaneWindow(window)
    && Established(n.a.c, window) && Established(n.b.c, window)
    && Half(ViewOf(n.a), ViewOf(n.b), n.ab, n.ba)
    && Half(ViewOf(n.b), ViewOf(n.a), n.ba, n.ab)
  }

  /** An end that has checked its timeouts since the last packet has nothing acknowledged left to send again. */
  ghost predicate Swept(n: Net) {
    (n.a.checked ==> TxFresh(ViewOf(n.a))) && (n.b.checked ==> TxFresh(ViewOf(n.b)))
  }

  // Arithmetic of numbers modulo 2^16

  /** Counting back from number n, a 16-bit field determines its unbounded number. */
  lemma IndexIsNumber(base: int, n: int, x: uint16)
    ensures U16(base + (n - U16(U16(base + n) - x))) == x
  {
  }

  lemma NumberIsIndex(base: int, n: int, k: int)
    requires 0 <= n - k < 0x1_0000
    ensures n - U16(U16(base + n) - U16(base + k)) == k
  {
    SubMod(base + n, base + k);
  }

  /** Counting ahead from number d. */
  lemma AheadIsNumber(base: int, d: int, x: uint16)
    ensures U16(base + d + U16(x - U16(base + d))) == x
  {
  }

  lemma WireEqual(s: View, j: int, k: int)
    requires -0x1_0000 < j - k < 0x1_0000
    ensures Wire(s, j) == Wire(s, k) <==> j == k
  {
    SameNumber(s.rdp.sndIss + 1 + j, s.rdp.sndIss + 1 + k);
  }

  lemma UnaWire(s: View)
    requires s.rdp.sndNxt == Wire(s, |s.accepted|)
    ensures s.rdp.sndUna == Wire(s, Una(s))
  {
    IndexIsNumber(s.rdp.sndIss + 1, |s.accepted|, s.rdp.sndUna);
  }

  lemma TxWire(s: View, e: TxElem)
    requires s.rdp.sndNxt == Wire(s, |s.accepted|)
    ensures e.seg.seqNr == Wire(s, TxIndex(s, e))
  {
    IndexIsNumber(s.rdp.sndIss + 1, |s.accepted|, e.seg.seqNr);
  }

  lemma RxWire(s: View, r: View, e: Segment)
    requires r.rdp.rcvCur == Wire(s, |r.delivered| - 1)
    ensures e.seqNr == Wire(s, RxIndex(r, e))
  {
    AheadIsNumber(s.rdp.sndIss + 1, |r.delivered| - 1, e.seqNr);
  }
}
