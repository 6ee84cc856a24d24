/** The pool of connections: allocation, look-up, ephemeral ports and incoming connections. */
module ConnPool {
  import opened Wrappers

  const PORT_MAX: nat := 63
  const BROADCAST: nat := 31
  const ANY_PORT: nat := 255

  /** A packet header, field by field. */
  datatype Id = Id(pri: nat, src: nat, dst: nat, dport: nat, sport: nat, flags: nat)

  datatype Kind = Client | Server

  datatype Conn = Conn(open: bool, kind: Kind, idin: Id, idout: Id)

  datatype Socket = Socket(connLess: bool)

  /** The node's own address and the highest port that can be bound. */
  datatype Config = Config(address: nat, bindMax: nat)

  predicate ValidConfig(c: Config) {
    c.bindMax < PORT_MAX
  }

  const NO_ID: Id := Id(0, 0, 0, 0, 0, 0)

  datatype Pool = Pool(cs: seq<Conn>, last: nat, sport: nat, ports: seq<Option<Socket>>)

  predicate Shape(c: Config, p: Pool) {
    && ValidConfig(c) && |p.ports| == c.bindMax + 2
    && (p.cs != [] ==> p.last < |p.cs|) && c.bindMax < p.sport <= PORT_MAX
  }

  // Looking up

  predicate Live(c: Conn) {
    c.open && c.kind.Client?
  }

  /** Equality under CSP_ID_CONN_MASK. */
  predicate SameKey(a: Id, b: Id) {
    a.src == b.src && a.dst == b.dst && a.dport == b.dport && a.sport == b.sport
  }

  predicate HasKey(cs: seq<Conn>, id: Id) {
    exists i | 0 <= i < |cs| :: Live(cs[i]) && SameKey(cs[i].idin, id)
  }

  predicate UsesPort(cs: seq<Conn>, port: nat) {
    exists i | 0 <= i < |cs| :: Live(cs[i]) && cs[i].idin.dport == port
  }

  // Allocating

  function Next(i: nat, n: nat): nat {
    if i + 1 == n then 0 else i + 1
  }

  /** The first closed connection among the `left` ones after i, going round. */
  function AllocIndex(cs: seq<Conn>, i: nat, left: nat): (r: Option<nat>)
    requires i < |cs|
    ensures r.Some? ==> r.value < |cs| && !cs[r.value].open
    decreases left
  {
    if left == 0 then None
    else if !cs[Next(i, |cs|)].open then Some(Next(i, |cs|))
    else AllocIndex(cs, Next(i, |cs|), left - 1)
  }

  function Steps(i: nat, k: nat, n: nat): nat
    requires i < n && k < n
  {
    if k > i then k - i else k + n - i
  }

  /** Going round reaches every closed connection, so allocation fails only when all are open. */
  lemma {:induction false} AllocReaches(cs: seq<Conn>, i: nat, left: nat, k: nat)
    requires i < |cs| && k < |cs| && !cs[k].open && Steps(i, k, |cs|) <= left
    ensures AllocIndex(cs, i, left).Some?
    decreases left
  {
    if Next(i, |cs|) != k && cs[Next(i, |cs|)].open {
      AllocReaches(cs, Next(i, |cs|), left - 1, k);
    }
  }

  function Alloc(p: Pool): (r: Option<nat>)
    requires p.cs != [] ==> p.last < |p.cs|
    ensures r.Some? ==> r.value < |p.cs| && !p.cs[r.value].open
  {
    if p.cs == [] then None else AllocIndex(p.cs, p.last, |p.cs|)
  }

  lemma AllocFailsIffFull(p: Pool)
    requires p.cs != [] ==> p.last < |p.cs|
    ensures Alloc(p).None? <==> forall i | 0 <= i < |p.cs| :: p.cs[i].open
  {
    forall i | 0 <= i < |p.cs| && !p.cs[i].open ensures Alloc(p).Some? {
      AllocReaches(p.cs, p.last, |p.cs|, i);
    }
  }

  /** csp_conn_allocate, and the identifiers csp_conn_new fills in. */
  function Open(p: Pool, kind: Kind, idin: Id, idout: Id): (r: (Pool, Option<nat>))
    requires p.cs != [] ==> p.last < |p.cs|
    ensures |r.0.cs| == |p.cs| && r.0.sport == p.sport && r.0.ports == p.ports
    ensures p.cs != [] ==> r.0.last < |p.cs|
  {
    var i := Alloc(p);
    if i.None? then (p, None)
    else (p.(cs := p.cs[i.value := Conn(true, kind, idin, idout)], last := i.value), i)
  }

  // Ephemeral ports

  /** The ports the search tries, in order: from the one after `start` round to the one before it. */
  function Visit(c: Config, start: nat, k: nat): nat
    requires ValidConfig(c)
  {
    if start + 1 + k <= PORT_MAX then start + 1 + k else start + 1 + k - (PORT_MAX - c.bindMax)
  }

  /** The comparison comes before the wrap, so the search passes over `start` when it is the lowest port. */
  function Tries(c: Config, start: nat): nat
    requires ValidConfig(c)
  {
    if start == c.bindMax + 1 then PORT_MAX - c.bindMax else PORT_MAX - c.bindMax - 1
  }

  function FirstUnused(c: Config, cs: seq<Conn>, start: nat, k: nat): (r: Option<nat>)
    requires ValidConfig(c) && c.bindMax < start <= PORT_MAX
    ensures r.Some? ==> c.bindMax < r.value <= PORT_MAX && !UsesPort(cs, r.value)
    decreases PORT_MAX - k
  {
    if k >= Tries(c, start) then None
    else if !UsesPort(cs, Visit(c, start, k)) then Some(Visit(c, start, k))
    else FirstUnused(c, cs, start, k + 1)
  }

  predicate SomeUnused(c: Config, cs: seq<Conn>) {
    exists q | c.bindMax < q <= PORT_MAX :: !UsesPort(cs, q)
  }

  /** When csp_connect's search ends. */
  predicate SearchEnds(c: Config, p: Pool) {
    p.sport != c.bindMax + 1 || SomeUnused(c, p.cs)
  }

  lemma {:induction false} FindsUnused(c: Config, cs: seq<Conn>, start: nat, k: nat, j: nat)
    requires ValidConfig(c) && c.bindMax < start <= PORT_MAX
    requires k <= j < Tries(c, start) && !UsesPort(cs, Visit(c, start, j))
    ensures FirstUnused(c, cs, start, k).Some?
    decreases j - k
  {
    hide UsesPort;
    if k < j && UsesPort(cs, Visit(c, start, k)) {
      FindsUnused(c, cs, start, k + 1, j);
    }
  }

  /** Every port but `start` is tried, and `start` itself when it is the lowest. */
  lemma VisitReaches(c: Config, start: nat, q: nat) returns (k: nat)
    requires ValidConfig(c) && c.bindMax < start <= PORT_MAX && c.bindMax < q <= PORT_MAX
    requires q != start || start == c.bindMax + 1
    ensures k < Tries(c, start) && Visit(c, start, k) == q
  {
    k := if q > start then q - start - 1 else q + PORT_MAX - c.bindMax - start - 1;
  }

  /** The search finds a port exactly when one other than the last given is unused, or any when that is the lowest. */
  lemma SearchFindsIff(c: Config, cs: seq<Conn>, start: nat)
    requires ValidConfig(c) && c.bindMax < start <= PORT_MAX
    ensures FirstUnused(c, cs, start, 0).Some? <==>
            exists q | c.bindMax < q <= PORT_MAX && (q != start || start == c.bindMax + 1) :: !UsesPort(cs, q)
  {
    hide UsesPort;
    forall q | c.bindMax < q <= PORT_MAX && (q != start || start == c.bindMax + 1) && !UsesPort(cs, q)
      ensures FirstUnused(c, cs, start, 0).Some?
    {
      var k := VisitReaches(c, start, q);
      FindsUnused(c, cs, start, 0, k);
    }
    if start != c.bindMax + 1 {
      NotStart(c, cs, start, 0);
    }
  }

  lemma {:induction false} NotStart(c: Config, cs: seq<Conn>, start: nat, k: nat)
    requires ValidConfig(c) && c.bindMax + 1 < start <= PORT_MAX
    ensures FirstUnused(c, cs, start, k) != Some(start)
    decreases PORT_MAX - k
  {
    hide UsesPort;
    if k < Tries(c, start) {
      NotStart(c, cs, start, k + 1);
    }
  }

  /** The port csp_connect's loop looks at in its n-th round, whether or not it stops. */
  function RoundPort(c: Config, start: nat, n: nat): nat
    requires ValidConfig(c)
  {
    if n == 0 then start
    else
      var port := RoundPort(c, start, n - 1) + 1;
      if port > PORT_MAX then c.bindMax + 1 else port
  }

  /** The loop stops in the round after the n-th: it is back at `start`, or the next port is unused. */
  predicate StopsAfter(c: Config, cs: seq<Conn>, start: nat, n: nat)
    requires ValidConfig(c)
  {
    RoundPort(c, start, n) + 1 == start || !UsesPort(cs, RoundPort(c, start, n + 1))
  }

  lemma {:induction false} RoundPortInRange(c: Config, start: nat, n: nat)
    requires ValidConfig(c) && c.bindMax < start <= PORT_MAX
    ensures c.bindMax < RoundPort(c, start, n) <= PORT_MAX
  {
    if n > 0 {
      RoundPortInRange(c, start, n - 1);
    }
  }

  lemma {:induction false} RoundPortIsVisit(c: Config, start: nat, n: nat)
    requires ValidConfig(c) && c.bindMax < start <= PORT_MAX && n < PORT_MAX - c.bindMax
    ensures RoundPort(c, start, n + 1) == Visit(c, start, n)
  {
    if n > 0 {
      RoundPortIsVisit(c, start, n - 1);
    } else {
      assert RoundPort(c, start, 0) == start;
    }
  }

  /**
   * The loop ends unless it starts at the lowest port with every port in use: the comparison with the start comes
   * before the wrap, so the lowest port is never compared.
   */
  lemma LoopEndsIff(c: Config, p: Pool)
    requires Shape(c, p)
    ensures (exists n: nat :: StopsAfter(c, p.cs, p.sport, n)) <==> SearchEnds(c, p)
  {
    hide UsesPort, RoundPort;
    var start := p.sport;
    forall n: nat | StopsAfter(c, p.cs, start, n) ensures SearchEnds(c, p) {
      RoundPortInRange(c, start, n);
      RoundPortInRange(c, start, n + 1);
    }
    if start != c.bindMax + 1 {
      var k := VisitReaches(c, start, start - 1);
      RoundPortIsVisit(c, start, k);
      assert StopsAfter(c, p.cs, start, k + 1);
    } else if SomeUnused(c, p.cs) {
      var q :| c.bindMax < q <= PORT_MAX && !UsesPort(p.cs, q);
      var k := VisitReaches(c, start, q);
      RoundPortIsVisit(c, start, k);
      assert StopsAfter(c, p.cs, start, k);
    }
  }

  // Enough ports

  ghost function PortsUsed(cs: seq<Conn>): set<nat> {
    if cs == [] then {} else PortsUsed(cs[1..]) + {cs[0].idin.dport}
  }

  lemma {:induction false} PortsUsedSize(cs: seq<Conn>)
    ensures |PortsUsed(cs)| <= |cs|
    ensures forall i | 0 <= i < |cs| :: cs[i].idin.dport in PortsUsed(cs)
  {
    if cs != [] {
      PortsUsedSize(cs[1..]);
      assert forall i | 1 <= i < |cs| :: cs[i] == cs[1..][i - 1];
    }
  }

  ghost function PortRange(lo: nat, hi: nat): (s: set<nat>)
    requires lo <= hi
    ensures |s| == hi - lo && forall q: nat :: q in s <==> lo <= q < hi
    decreases hi - lo
  {
    if lo == hi then {} else PortRange(lo, hi - 1) + {hi - 1}
  }

  /** With at most 61 - port_max_bind connections, a port other than the last given is always unused. */
  lemma EnoughPorts(c: Config, cs: seq<Conn>, start: nat) returns (q: nat)
    requires ValidConfig(c) && c.bindMax < start <= PORT_MAX && |cs| + c.bindMax <= 61
    ensures c.bindMax < q <= PORT_MAX && q != start && !UsesPort(cs, q)
  {
    var wanted := PortRange(c.bindMax + 1, PORT_MAX + 1) - {start};
    PortsUsedSize(cs);
    assert PortRange(c.bindMax + 1, PORT_MAX + 1) == wanted + {start};
    if wanted <= PortsUsed(cs) {
      SubsetSize(wanted, PortsUsed(cs));
      assert false;
    }
    q :| q in wanted && q !in PortsUsed(cs);
  }

  lemma SubsetSize(s: set<nat>, t: set<nat>)
    requires s <= t
    ensures |s| <= |t|
  {
    assert t == s + (t - s);
  }
}
