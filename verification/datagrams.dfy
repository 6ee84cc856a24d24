/** Connections without RDP: a bounded queue between the router and the reader. */
module Datagrams {
  import opened Words
  import opened RdpSpec
  import opened RdpLife

  /** A datagram for the connection, or a read by its holder. */
  datatype Act = Arrive(bytes: seq<byte>) | Take

  function Step(c: Conn, a: Act, cfg: Config, env: Env): Conn {
    Happen(c, match a case Arrive(bytes) => Datagram(bytes) case Take => UserRead, cfg, env)
  }

  function After(c: Conn, acts: seq<Act>, cfg: Config, env: Env): Conn {
    if acts == [] then c else Step(After(c, acts[..|acts| - 1], cfg, env), acts[|acts| - 1], cfg, env)
  }

  /** The datagrams that found a place in the queue. */
  function Accepted(c: Conn, acts: seq<Act>, cfg: Config, env: Env): seq<Item> {
    if acts == [] then []
    else
      var before, a := acts[..|acts| - 1], acts[|acts| - 1];
      Accepted(c, before, cfg, env) +
      if a.Arrive? && |After(c, before, cfg, env).rxq| < cfg.queueLength then [Data(a.bytes)] else []
  }

  /** What the reads brought. */
  function Delivered(c: Conn, acts: seq<Act>, cfg: Config, env: Env): seq<Item> {
    if acts == [] then []
    else
      var before, a := acts[..|acts| - 1], acts[|acts| - 1];
      var q := After(c, before, cfg, env).rxq;
      Delivered(c, before, cfg, env) + if a.Take? && q != [] then [q[0]] else []
  }

  predicate Held(c: Conn) {
    c.open && !c.frdp && !c.socket
  }

  lemma StepMoves(c: Conn, a: Act, cfg: Config, env: Env)
    requires Held(c)
    ensures var c' := Step(c, a, cfg, env);
            && Held(c') && c' == c.(rxq := c'.rxq)
            && (a.Arrive? ==> c'.rxq == c.rxq + if |c.rxq| < cfg.queueLength then [Data(a.bytes)] else [])
            && (a.Take? ==> c'.rxq == if c.rxq == [] then [] else c.rxq[1..])
  {
  }

  /**
   Whatever arrives and is read in whatever order: what has been delivered and what is queued are, in order, what was
   queued first and what was accepted since; and nothing is sent.
   */
  lemma {:induction false} DatagramsInOrder(c: Conn, acts: seq<Act>, cfg: Config, env: Env)
    requires Held(c)
    ensures var c' := After(c, acts, cfg, env);
            && Held(c') && c' == c.(rxq := c'.rxq)
            && Delivered(c, acts, cfg, env) + c'.rxq == c.rxq + Accepted(c, acts, cfg, env)
    decreases |acts|
  {
    hide Step, Held;
    if acts != [] {
      var before, a := acts[..|acts| - 1], acts[|acts| - 1];
      DatagramsInOrder(c, before, cfg, env);
      var d, q := Delivered(c, before, cfg, env), After(c, before, cfg, env).rxq;
      var accepted := Accepted(c, before, cfg, env);
      StepMoves(After(c, before, cfg, env), a, cfg, env);
      if a.Take? {
        assert Accepted(c, acts, cfg, env) == accepted;
        assert q != [] ==> d + [q[0]] + q[1..] == d + q;
      } else {
        var more := if |q| < cfg.queueLength then [Data(a.bytes)] else [];
        assert d + (q + more) == (d + q) + more == c.rxq + (accepted + more);
      }
    }
  }

  /** A datagram for a connection nobody holds yet hands it to the listening socket, or closes it if that is full. */
  lemma FirstDatagram(c: Conn, bytes: seq<byte>, cfg: Config, env: Env)
    requires c.open && !c.frdp && c.socket && |c.rxq| < cfg.queueLength
    ensures var c' := Happen(c, Datagram(bytes), cfg, env);
            if env.acceptRoom then Held(c') && c'.rxq == c.rxq + [Data(bytes)]
            else !c'.open && c'.rxq == []
  {
  }
}
