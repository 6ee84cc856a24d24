/** The connection table in place, and what every run of connects, packets, binds and closes keeps. */
module ConnTable {
  import opened Wrappers
  import opened ConnPool

  // Events

  datatype Event =
    | Connect(pri: nat, dest: nat, dport: nat, flags: nat)
    | Arrive(id: Id, secure: bool)
    | Bind(port: nat, socket: Socket)
    | AllocServer
    | Close(i: nat)

  /** csp_port_get_socket. */
  function GetSocket(c: Config, ports: seq<Option<Socket>>, port: nat): Option<Socket>
    requires |ports| == c.bindMax + 2
  {
    if port > c.bindMax then None
    else if ports[port].Some? then ports[port]
    else ports[c.bindMax + 1]
  }

  /** The identifiers csp_connect builds, cut to the widths of the header's fields. */
  function ConnectIn(c: Config, e: Event, port: nat): Id
    requires e.Connect?
  {
    Id(e.pri % 4, e.dest % 32, c.address, port, e.dport % 64, e.flags)
  }

  function ConnectOut(c: Config, e: Event, port: nat): Id
    requires e.Connect?
  {
    Id(e.pri % 4, c.address, e.dest % 32, e.dport % 64, port, e.flags)
  }

  function Reversed(c: Config, id: Id): Id {
    Id(id.pri, c.address, id.src, id.sport, id.dport, id.flags)
  }

  /** csp_connect up to the transport layer. */
  function ConnectTo(c: Config, p: Pool, e: Event): (Pool, Option<nat>)
    requires Shape(c, p) && e.Connect?
  {
    var port := FirstUnused(c, p.cs, p.sport, 0);
    if port.None? then (p, None)
    else Open(p.(sport := port.value), Client, ConnectIn(c, e, port.value), ConnectOut(c, e, port.value))
  }

  /** The connection part of csp_route_work. */
  function Accept(c: Config, p: Pool, id: Id, secure: bool): Pool
    requires Shape(c, p)
  {
    var socket := GetSocket(c, p.ports, id.dport);
    if id.dst != c.address && id.dst != BROADCAST then p
    else if socket.Some? && socket.value.connLess then p
    else if HasKey(p.cs, id) || socket.None? || !secure then p
    else Open(p, Client, id, Reversed(c, id)).0
  }

  /** csp_bind. */
  function BindTo(c: Config, p: Pool, port: nat, socket: Socket): Pool
    requires Shape(c, p)
  {
    var slot := if port == ANY_PORT then c.bindMax + 1 else port;
    if (port != ANY_PORT && port > c.bindMax) || p.ports[slot].Some? then p
    else p.(ports := p.ports[slot := Some(socket)])
  }

  function CloseAt(p: Pool, i: nat): Pool {
    if i < |p.cs| then p.(cs := p.cs[i := p.cs[i].(open := false)]) else p
  }

  function Apply(c: Config, p: Pool, e: Event): (p': Pool)
    requires Shape(c, p)
    ensures Shape(c, p') && |p'.cs| == |p.cs|
  {
    match e
    case Connect(_, _, _, _) => ConnectTo(c, p, e).0
    case Arrive(id, secure) => Accept(c, p, id, secure)
    case Bind(port, socket) => BindTo(c, p, port, socket)
    case AllocServer => Open(p, Server, NO_ID, NO_ID).0
    case Close(i) => CloseAt(p, i)
  }

  /** Whether csp_bind takes the port: in range or the catch-all 255, and not bound yet. */
  predicate Bindable(c: Config, p: Pool, port: nat)
    requires Shape(c, p)
  {
    if port == 255 then p.ports[c.bindMax + 1].None? else port <= c.bindMax && p.ports[port].None?
  }

  /**
   * A bound socket is found for its port, a catch-all socket for every port that can be bound and has none of its own,
   * and other ports find what they found before.
   */
  lemma BoundSocketIsFound(c: Config, p: Pool, port: nat, socket: Socket, q: nat)
    requires Shape(c, p)
    ensures var p' := BindTo(c, p, port, socket);
            GetSocket(c, p'.ports, q) ==
              if Bindable(c, p, port) && q <= c.bindMax
                 && (q == port || (port == 255 && p.ports[q].None?))
              then Some(socket) else GetSocket(c, p.ports, q)
  {
  }

  /** A socket is found for ports up to port_max_bind only. */
  lemma NoSocketAbove(c: Config, ports: seq<Option<Socket>>, q: nat)
    requires |ports| == c.bindMax + 2
    ensures q > c.bindMax ==> GetSocket(c, ports, q).None?
    ensures GetSocket(c, ports, q).Some? ==> GetSocket(c, ports, q) in ports
  {
  }

  /**
   * A packet opens a connection exactly when it is for this node or address 31, new, secure and for a port with a
   * socket that is not connection-less, and an entry is closed; the connection answers to where the packet came from.
   */
  lemma ArrivalOpensIff(c: Config, p: Pool, id: Id, secure: bool)
    requires Shape(c, p)
    ensures var socket := GetSocket(c, p.ports, id.dport);
            var p' := Accept(c, p, id, secure);
            if (id.dst == c.address || id.dst == 31) && !HasKey(p.cs, id) && secure
               && socket.Some? && !socket.value.connLess && (exists i | 0 <= i < |p.cs| :: !p.cs[i].open)
            then exists i | 0 <= i < |p.cs| :: !p.cs[i].open && p'.cs[i].open && p'.cs[i].kind == Client
                   && p'.cs[i].idin == id && p'.cs[i].idout.dst == id.src && p'.cs[i].idout.dport == id.sport
                   && p'.cs[i].idout.src == c.address && p'.cs[i].idout.sport == id.dport
                   && p'.cs[i].idout.pri == id.pri && p'.cs[i].idout.flags == id.flags
                   && forall j | 0 <= j < |p.cs| && j != i :: p'.cs[j] == p.cs[j]
            else p'.cs == p.cs
  {
    hide HasKey, AllocIndex;
    AllocFailsIffFull(p);
    var i := Alloc(p);
    hide Alloc;
    var p' := Accept(c, p, id, secure);
    assert i.Some? && p' == Open(p, Client, id, Reversed(c, id)).0 ==> p'.cs[i.value].open && !p.cs[i.value].open;
  }

  /** A server socket takes one closed entry, if there is one, and clears its identifiers; the others stay. */
  lemma ServerTakesBlankEntry(c: Config, p: Pool)
    requires Shape(c, p)
    ensures var p' := Apply(c, p, AllocServer);
            var none := Id(0, 0, 0, 0, 0, 0);
            if forall i | 0 <= i < |p.cs| :: p.cs[i].open then p'.cs == p.cs
            else exists i | 0 <= i < |p.cs| :: !p.cs[i].open && p'.cs == p.cs[i := Conn(true, Server, none, none)]
  {
    hide AllocIndex;
    AllocFailsIffFull(p);
    hide Alloc;
    assert Alloc(p).Some? ==> !p.cs[Alloc(p).value].open;
  }

  // The invariant

  ghost predicate UniqueKeys(cs: seq<Conn>) {
    forall i, j | 0 <= i < j < |cs| && Live(cs[i]) && Live(cs[j]) :: !SameKey(cs[i].idin, cs[j].idin)
  }

  ghost predicate UniquePorts(c: Config, cs: seq<Conn>) {
    forall i, j | 0 <= i < j < |cs| && Live(cs[i]) && Live(cs[j]) && cs[i].idin.dport > c.bindMax ::
      cs[i].idin.dport != cs[j].idin.dport
  }

  /** The outgoing identifier is from this node and turns the ports and the peer's address of the incoming one round. */
  predicate Mirrors(c: Config, idin: Id, idout: Id) {
    && idout.src == c.address && idout.dst == idin.src
    && idout.dport == idin.sport && idout.sport == idin.dport
  }

  ghost predicate AllMirror(c: Config, cs: seq<Conn>) {
    forall i | 0 <= i < |cs| && Live(cs[i]) :: Mirrors(c, cs[i].idin, cs[i].idout)
  }

  ghost predicate Inv(c: Config, p: Pool) {
    Shape(c, p) && UniqueKeys(p.cs) && UniquePorts(c, p.cs) && AllMirror(c, p.cs)
  }

  /** Opening a connection whose key, and port if it is ephemeral, no open client connection has. */
  lemma OpenKeepsInv(c: Config, p: Pool, idin: Id, idout: Id)
    requires Inv(c, p) && !HasKey(p.cs, idin) && (idin.dport > c.bindMax ==> !UsesPort(p.cs, idin.dport))
    requires Mirrors(c, idin, idout)
    ensures Inv(c, Open(p, Client, idin, idout).0)
  {
    hide AllocIndex;
  }

  lemma OpenServerKeepsInv(c: Config, p: Pool)
    requires Inv(c, p)
    ensures Inv(c, Open(p, Server, NO_ID, NO_ID).0)
  {
    hide AllocIndex;
  }

  lemma UnusedPortHasNoKey(cs: seq<Conn>, id: Id)
    requires !UsesPort(cs, id.dport)
    ensures !HasKey(cs, id)
  {
  }

  lemma ApplyKeepsInv(c: Config, p: Pool, e: Event)
    requires Inv(c, p)
    ensures Inv(c, Apply(c, p, e))
  {
    hide HasKey, UsesPort, FirstUnused, Open, SameKey;
    match e
    case Connect(_, _, _, _) =>
      var port := FirstUnused(c, p.cs, p.sport, 0);
      if port.Some? {
        UnusedPortHasNoKey(p.cs, ConnectIn(c, e, port.value));
        OpenKeepsInv(c, p.(sport := port.value), ConnectIn(c, e, port.value), ConnectOut(c, e, port.value));
      }
    case Arrive(id, secure) =>
      if !HasKey(p.cs, id) && id.dport <= c.bindMax {
        OpenKeepsInv(c, p, id, Reversed(c, id));
      }
    case Bind(port, socket) =>
    case AllocServer =>
      OpenServerKeepsInv(c, p);
    case Close(i) =>
  }

  // Runs

  function Run(c: Config, p: Pool, es: seq<Event>): (p': Pool)
    requires Shape(c, p)
    ensures Shape(c, p') && |p'.cs| == |p.cs|
  {
    if es == [] then p else Apply(c, Run(c, p, es[..|es| - 1]), es[|es| - 1])
  }

  ghost predicate Initial(c: Config, p: Pool) {
    Shape(c, p) && forall i | 0 <= i < |p.cs| :: !p.cs[i].open
  }

  /** In every run no two open client connections share a key, or an ephemeral port. */
  lemma {:induction false} RunKeepsInv(c: Config, p: Pool, es: seq<Event>)
    requires Initial(c, p)
    ensures Inv(c, Run(c, p, es))
  {
    hide Apply;
    if es != [] {
      RunKeepsInv(c, p, es[..|es| - 1]);
      ApplyKeepsInv(c, Run(c, p, es[..|es| - 1]), es[|es| - 1]);
    }
  }

  /** So a packet belongs to at most one open client connection, whichever way the pool is searched. */
  lemma DemultiplexingIsUnambiguous(c: Config, p: Pool, es: seq<Event>, id: Id, i: nat, j: nat)
    requires Initial(c, p)
    requires var cs := Run(c, p, es).cs;
             i < |cs| && j < |cs| && Live(cs[i]) && Live(cs[j]) && SameKey(cs[i].idin, id) && SameKey(cs[j].idin, id)
    ensures i == j
  {
    hide Run;
    RunKeepsInv(c, p, es);
  }

  /** A packet of the peer that answers what connection i sends, its ports and addresses turned round. */
  function Answer(idout: Id, pri: nat, flags: nat): Id {
    Id(pri, idout.dst, idout.src, idout.sport, idout.dport, flags)
  }

  /**
   * In every run, answers to what a connection sends come back to it, and to no other, unless it was opened by a
   * broadcast: its key then holds the broadcast address, and answers to this node never match it.
   */
  lemma AnswersComeBack(c: Config, p: Pool, es: seq<Event>, i: nat, j: nat, pri: nat, flags: nat)
    requires Initial(c, p)
    requires var cs := Run(c, p, es).cs; i < |cs| && j < |cs| && Live(cs[i]) && Live(cs[j])
    ensures var cs := Run(c, p, es).cs;
            var id := Answer(cs[i].idout, pri, flags);
            && (SameKey(cs[i].idin, id) <==> cs[i].idin.dst == c.address)
            && (cs[i].idin.dst == c.address && SameKey(cs[j].idin, id) ==> j == i)
  {
    hide Run;
    RunKeepsInv(c, p, es);
    var cs := Run(c, p, es).cs;
    assert Mirrors(c, cs[i].idin, cs[i].idout);
  }

  /**
   * In every run with at most 61 - port_max_bind connections, csp_connect's search ends, and it makes a new
   * connection with an ephemeral port nobody used whenever some connection is closed.
   */
  lemma ConnectAlwaysFindsPort(c: Config, p: Pool, es: seq<Event>, e: Event)
    requires Initial(c, p) && |p.cs| + c.bindMax <= 61 && e.Connect?
    ensures var q := Run(c, p, es);
            var r := ConnectTo(c, q, e);
            && SearchEnds(c, q)
            && (r.1.Some? <==> exists i | 0 <= i < |q.cs| :: !q.cs[i].open)
            && (r.1.Some? ==> NewConnection(c, q, r.0, r.1.value))
  {
    hide Run, UsesPort, FirstUnused, Alloc;
    var q := Run(c, p, es);
    var port := EnoughPorts(c, q.cs, q.sport);
    SearchFindsIff(c, q.cs, q.sport);
    AllocFailsIffFull(q.(sport := FirstUnused(c, q.cs, q.sport, 0).value));
  }

  /** The packets of the node and port the caller of csp_connect asked for, to this node and the connection's port. */
  function FromPeer(c: Config, e: Event, port: nat, pri: nat, flags: nat): Id
    requires e.Connect?
  {
    Id(pri, e.dest % 32, c.address, port, e.dport % 64, flags)
  }

  /**
   * In every run, a connection csp_connect makes sends to the node and port that were asked for, from this node and the
   * new port, with the priority and flags that were asked for, all cut to the widths of the header's fields; and what
   * that node and port send back belongs to it and to no other connection.
   */
  lemma ConnectReachesPeer(c: Config, p: Pool, es: seq<Event>, e: Event, pri: nat, flags: nat)
    requires Initial(c, p) && e.Connect?
    requires ConnectTo(c, Run(c, p, es), e).1.Some?
    ensures var (q, r) := ConnectTo(c, Run(c, p, es), e);
            var conn := q.cs[r.value];
            && conn.idout.dst == e.dest % 32 && conn.idout.dport == e.dport % 64
            && conn.idout.src == c.address && conn.idout.sport == q.sport
            && conn.idin.src == e.dest % 32 && conn.idin.sport == e.dport % 64
            && conn.idin.dst == c.address && conn.idin.dport == q.sport && c.bindMax < q.sport < 64
            && conn.idout.pri == conn.idin.pri == e.pri % 4 && conn.idout.flags == conn.idin.flags == e.flags
            && forall j | 0 <= j < |q.cs| && Live(q.cs[j]) ::
                 SameKey(q.cs[j].idin, FromPeer(c, e, q.sport, pri, flags)) <==> j == r.value
  {
    hide Run, UsesPort, FirstUnused, Alloc, Inv;
    var before := Run(c, p, es);
    RunKeepsInv(c, p, es);
    ApplyKeepsInv(c, before, e);
    var (q, r) := ConnectTo(c, before, e);
    assert Apply(c, before, e) == q;
    assert Live(q.cs[r.value]);
    InvUnique(c, q);
  }

  lemma InvUnique(c: Config, p: Pool)
    requires Inv(c, p)
    ensures UniqueKeys(p.cs)
  {
  }

  /**
   * Without that bound the loop can be caught: if port_max_bind leaves one ephemeral port, the first csp_connect takes
   * it, and the next one never ends.
   */
  lemma OnePortIsATrap(c: Config, p: Pool, e: Event)
    requires Initial(c, p) && c.bindMax == 62 && p.cs != [] && e.Connect?
    ensures !SearchEnds(c, Run(c, p, [e]))
    ensures forall n: nat :: !StopsAfter(c, Run(c, p, [e]).cs, Run(c, p, [e]).sport, n)
  {
    assert [e][..0] == [] && Run(c, p, []) == p;
    assert Run(c, p, [e]) == Apply(c, p, e);
    assert p.sport == 63;
    assert !UsesPort(p.cs, 63);
    assert Visit(c, 63, 0) == 63 && FirstUnused(c, p.cs, 63, 0) == Some(63);
    var q := Run(c, p, [e]);
    assert q == ConnectTo(c, p, e).0;
    AllocFailsIffFull(p);
    var i := Alloc(p).value;
    assert Live(q.cs[i]) && q.cs[i].idin.dport == 63;
    LoopEndsIff(c, q);
  }

  /** Connection i was closed and is now an open client on an ephemeral port that was unused; nothing else changed. */
  ghost predicate NewConnection(c: Config, p: Pool, p': Pool, i: nat) {
    && |p'.cs| == |p.cs| && i < |p.cs| && !p.cs[i].open && Live(p'.cs[i])
    && c.bindMax < p'.cs[i].idin.dport <= PORT_MAX && !UsesPort(p.cs, p'.cs[i].idin.dport)
    && p'.cs[i].idin.dst == c.address && Mirrors(c, p'.cs[i].idin, p'.cs[i].idout)
    && forall j | 0 <= j < |p.cs| && j != i :: p'.cs[j] == p.cs[j]
  }

  // In place

  class Connections {
    const config: Config
    const conns: array<Conn>
    const ports: array<Option<Socket>>
    var lastGiven: nat
    var sport: nat

    ghost predicate Valid()
      reads this, conns, ports
    {
      Shape(config, State())
    }

    ghost function State(): Pool
      reads this, conns, ports
    {
      Pool(conns[..], lastGiven, sport, ports[..])
    }

    /** csp_conn_init and csp_port_init; `random` is the value of rand(). */
    constructor (config: Config, connMax: nat, random: nat)
      requires ValidConfig(config)
      ensures Valid() && this.config == config && conns.Length == connMax && Initial(config, State())
    {
      this.config := config;
      conns := new Conn[connMax](i => Conn(false, Client, NO_ID, NO_ID));
      ports := new Option<Socket>[config.bindMax + 2](i => None);
      lastGiven := 0;
      sport := random % (PORT_MAX - config.bindMax) + config.bindMax + 1;
    }

    /** csp_conn_find under CSP_ID_CONN_MASK. */
    method FindKey(id: Id) returns (r: Option<nat>)
      ensures r.None? <==> !HasKey(conns[..], id)
      ensures r.Some? ==> r.value < conns.Length && Live(conns[r.value]) && SameKey(conns[r.value].idin, id)
    {
      for i := 0 to conns.Length
        invariant forall j | 0 <= j < i :: !(Live(conns[j]) && SameKey(conns[j].idin, id))
      {
        if conns[i].open && conns[i].kind.Client? && SameKey(conns[i].idin, id) {
          assert Live(conns[..][i]);
          return Some(i);
        }
      }
      return None;
    }

    /** csp_conn_find under CSP_ID_DPORT_MASK. */
    method FindPort(port: nat) returns (used: bool)
      ensures used <==> UsesPort(conns[..], port)
    {
      for i := 0 to conns.Length
        invariant forall j | 0 <= j < i :: !(Live(conns[j]) && conns[j].idin.dport == port)
      {
        if conns[i].open && conns[i].kind.Client? && conns[i].idin.dport == port {
          assert Live(conns[..][i]);
          return true;
        }
      }
      return false;
    }

    /** csp_conn_allocate and csp_conn_new. */
    method New(kind: Kind, idin: Id, idout: Id) returns (r: Option<nat>)
      requires Valid()
      modifies this`lastGiven, conns
      ensures Valid() && (State(), r) == Open(old(State()), kind, idin, idout)
    {
      hide AllocIndex;
      var i: nat := lastGiven;
      ghost var was := State();
      var j := 0;
      while j < conns.Length
        invariant 0 <= j <= conns.Length
        invariant conns.Length > 0 ==> i < conns.Length
        invariant conns.Length > 0 ==>
                    AllocIndex(was.cs, was.last, conns.Length) == AllocIndex(was.cs, i, conns.Length - j)
        invariant State() == was
      {
        AllocStep(was.cs, i, conns.Length - j);
        i := (i + 1) % conns.Length;
        if !conns[i].open {
          conns[i] := Conn(true, kind, idin, idout);
          lastGiven := i;
          return Some(i);
        }
        j := j + 1;
      }
      NothingLeft(was);
      return None;
    }

    /** The search for an ephemeral port in csp_connect. */
    method FindUnusedPort() returns (r: Option<nat>)
      requires Valid() && SearchEnds(config, State())
      modifies this`sport
      ensures r == FirstUnused(config, conns[..], old(sport), 0)
      ensures sport == if r.Some? then r.value else old(sport)
    {
      hide UsesPort, Visit;
      var start := sport;
      ghost var k := 0;
      ghost var unused := UnusedVisit(config, conns[..], start);
      FirstVisit(config, start);
      sport := sport + 1;
      while sport != start
        invariant k <= Tries(config, start)
        invariant sport == if k == 0 then start + 1 else Visit(config, start, k - 1) + 1
        invariant FirstUnused(config, conns[..], start, 0) == FirstUnused(config, conns[..], start, k)
        invariant start == config.bindMax + 1 ==> k <= unused
        decreases Tries(config, start) - k
      {
        NextVisit(config, start, k);
        if sport > PORT_MAX {
          sport := config.bindMax + 1;
        }
        var used := FindPort(sport);
        if !used {
          return Some(sport);
        }
        k := k + 1;
        sport := sport + 1;
      }
      LastVisit(config, start, k);
      return None;
    }

    /** csp_connect up to the transport layer. */
    method Connect(pri: nat, dest: nat, dport: nat, flags: nat) returns (r: Option<nat>)
      requires Valid() && SearchEnds(config, State())
      modifies this, conns
      ensures Valid() && (State(), r) == ConnectTo(config, old(State()), Event.Connect(pri, dest, dport, flags))
    {
      hide FirstUnused, Open, AllocIndex;
      var e := Event.Connect(pri, dest, dport, flags);
      var port := FindUnusedPort();
      if port.None? {
        return None;
      }
      r := New(Client, ConnectIn(config, e, port.value), ConnectOut(config, e, port.value));
    }

    /** csp_conn_close, once the transport layer agrees. */
    method Close(i: nat)
      requires Valid() && i < conns.Length
      modifies conns
      ensures Valid() && State() == CloseAt(old(State()), i)
    {
      conns[i] := conns[i].(open := false);
    }

    /** csp_bind. */
    method Bind(port: nat, socket: Socket) returns (bound: bool)
      requires Valid()
      modifies ports
      ensures Valid() && State() == BindTo(config, old(State()), port, socket)
      ensures bound <==> State() != old(State())
    {
      var slot := port;
      if port == ANY_PORT {
        slot := config.bindMax + 1;
      } else if port > config.bindMax {
        return false;
      }
      if ports[slot].Some? {
        return false;
      }
      ports[slot] := Some(socket);
      return true;
    }

    /** The connection part of csp_route_work for a packet to this node. */
    method RouteIncoming(id: Id, secure: bool)
      requires Valid()
      modifies this`lastGiven, conns
      ensures Valid() && State() == Accept(config, old(State()), id, secure)
    {
      hide HasKey, Open;
      if id.dst != config.address && id.dst != BROADCAST {
        return;
      }
      var socket: Option<Socket> := None;
      if id.dport <= config.bindMax {
        socket := if ports[id.dport].Some? then ports[id.dport] else ports[config.bindMax + 1];
      }
      if socket.Some? && socket.value.connLess {
        return;
      }
      var conn := FindKey(id);
      if conn.None? && socket.Some? && secure {
        var i := New(Client, id, Reversed(config, id));
      }
    }
  }

  lemma AllocStep(cs: seq<Conn>, i: nat, left: nat)
    requires i < |cs| && left > 0
    ensures (i + 1) % |cs| == Next(i, |cs|)
    ensures AllocIndex(cs, i, left) ==
            if cs[Next(i, |cs|)].open then AllocIndex(cs, Next(i, |cs|), left - 1) else Some(Next(i, |cs|))
  {
    if i + 1 == |cs| {
      assert (i + 1) % |cs| == 0;
    }
  }

  lemma NothingLeft(p: Pool)
    requires p.cs != [] ==> p.last < |p.cs|
    ensures forall i | 0 <= i < |p.cs| :: AllocIndex(p.cs, i, 0).None?
  {
  }

  lemma UnusedVisit(c: Config, cs: seq<Conn>, start: nat) returns (k: nat)
    requires ValidConfig(c) && c.bindMax < start <= PORT_MAX
    requires start != c.bindMax + 1 || SomeUnused(c, cs)
    ensures start == c.bindMax + 1 ==> k < Tries(c, start) && !UsesPort(cs, Visit(c, start, k))
  {
    k := 0;
    if start == c.bindMax + 1 {
      var q :| c.bindMax < q <= PORT_MAX && !UsesPort(cs, q);
      k := VisitReaches(c, start, q);
    }
  }

  lemma FirstVisit(c: Config, start: nat)
    requires ValidConfig(c) && c.bindMax < start <= PORT_MAX
    ensures Tries(c, start) >= 0 && (start == c.bindMax + 1 ==> Tries(c, start) >= 1)
  {
  }

  /** While the loop goes on, its next port is the next one of the visiting order. */
  lemma NextVisit(c: Config, start: nat, k: nat)
    requires ValidConfig(c) && c.bindMax < start <= PORT_MAX && k <= Tries(c, start)
    requires start == c.bindMax + 1 ==> k < Tries(c, start)
    ensures var port := if k == 0 then start + 1 else Visit(c, start, k - 1) + 1;
            port != start ==>
              k < Tries(c, start) && Visit(c, start, k) == if port > PORT_MAX then c.bindMax + 1 else port
  {
  }

  /** The loop is back at its start only when every port of the visiting order has been tried. */
  lemma LastVisit(c: Config, start: nat, k: nat)
    requires ValidConfig(c) && c.bindMax < start <= PORT_MAX && k <= Tries(c, start)
    requires start == if k == 0 then start + 1 else Visit(c, start, k - 1) + 1
    ensures k == Tries(c, start)
  {
  }
}
