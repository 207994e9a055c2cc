/**
  The engine's maps and the ping wheel as code.

  There is one method per section that runs under a lock, and each is proved to
  take the step of SocketModel with the same name.

  A socket object shows a socket of the model under the number it carries as a
  ghost, and the engine keeps every socket it was ever handed in a ghost map.
  Closed flags live in the objects, the maps and the wheel refer to the same
  objects, and each method says which of them it changes.

  A tick of the wheel is a run of Prune steps, one for every closed socket.
 */
module SocketEngine {
  import opened Wrappers
  import opened SocketModel

  /** A socket, as far as the engine looks at it; `id` is its number in the model. */
  class Conn {
    ghost const id: nat
    var closed: bool

    constructor (ghost id: nat)
      ensures this.id == id && !closed
    {
      this.id := id;
      closed := false;
    }
  }

  /** The sockets that one goroutine keeps alive. */
  class PingWheel {
    var conns: set<Conn>

    constructor ()
      ensures conns == {}
    {
      conns := {};
    }

    method Add(c: Conn)
      modifies this
      ensures conns == old(conns) + {c}
    {
      conns := conns + {c};
    }

    method Remove(c: Conn)
      modifies this
      ensures conns == old(conns) - {c}
    {
      conns := conns - {c};
    }

    /** One socket of a tick: pruned when it is marked closed, pinged otherwise. */
    method Visit(c: Conn) returns (pinged: bool)
      modifies this
      ensures pinged <==> !c.closed
      ensures conns == if c.closed then old(conns) - {c} else old(conns)
    {
      if c.closed {
        Remove(c);
        return false;
      }
      return true;
    }
  }

  class Engine {
    var hot: map<nat, Conn>
    var opening: set<nat>
    const wheel: PingWheel
    ghost var all: map<nat, Conn>   // every socket so far, by its number in the model

    constructor ()
      ensures fresh(wheel) && Shows(START)
    {
      hot, opening, all := map[], {}, map[];
      wheel := new PingWheel();
    }

    /** The model's sockets, seen as objects. */
    ghost predicate ShowsConns(s: State)
      reads this, all.Values
    {
      all.Keys == s.conns.Keys && forall c :: c in all ==> all[c].id == c && all[c].closed == s.conns[c].closed
    }

    ghost predicate ShowsHot(s: State) reads this {
      hot.Keys == s.hot.Keys && forall k :: k in hot ==> s.hot[k] in all && hot[k] == all[s.hot[k]]
    }

    ghost predicate ShowsWheel(s: State) reads this, wheel {
      && s.wheel <= all.Keys && (forall c :: c in all ==> (all[c] in wheel.conns <==> c in s.wheel))
      && (forall conn <- wheel.conns :: conn.id in all && all[conn.id] == conn)
    }

    ghost predicate Shows(s: State)
      reads this, wheel, all.Values
    {
      ShowsConns(s) && ShowsHot(s) && ShowsWheel(s) && opening == s.opening
    }

    /** Open a socket for a bot, unless it has one or one is on its way; `dial` says whether to start a dial. */
    method OpenHot(k: nat, ghost d: nat, ghost s: State) returns (dial: bool)
      requires Shows(s) && Enabled(s, Step.OpenHot(k, d))
      modifies this`opening
      ensures Shows(Next(s, Step.OpenHot(k, d)))
      ensures dial <==> d in Next(s, Step.OpenHot(k, d)).dials
    {
      if k in hot && !hot[k].closed {
        return false;
      }
      if k in opening {
        return false;
      }
      opening := opening + {k};
      return true;
    }

    /** The dial succeeded: there is a new open socket, in the hands of the dial. */
    method DialOk(ghost d: nat, ghost c: nat, ghost s: State) returns (conn: Conn)
      requires Shows(s) && Enabled(s, Step.DialOk(d, c))
      modifies this`all
      ensures fresh(conn) && all == old(all)[c := conn]
      ensures Shows(Next(s, Step.DialOk(d, c)))
    {
      conn := new Conn(c);
      all := all[c := conn];
    }

    /** The dial failed: the bot is no longer being opened. */
    method DialFailed(k: nat, ghost d: nat, ghost s: State)
      requires Shows(s) && Enabled(s, Step.DialFailed(d)) && s.dials[d].bot == k
      modifies this`opening
      ensures Shows(Next(s, Step.DialFailed(d)))
    {
      opening := opening - {k};
    }

    /** A dial has its socket: register it if it is still wanted and the bot has no live one. */
    method Register(k: nat, conn: Conn, ghost d: nat, ghost s: State) returns (kept: bool)
      requires Shows(s) && Enabled(s, Step.Register(d)) && s.dials[d].bot == k
      requires s.dials[d].conn in all && all[s.dials[d].conn] == conn
      modifies this`opening, this`hot, wheel
      ensures Shows(Next(s, Step.Register(d)))
      ensures kept <==> d !in Next(s, Step.Register(d)).dials
    {
      if k !in opening {
        return false;
      }
      opening := opening - {k};
      if k in hot && !hot[k].closed {
        return false;
      }
      hot := hot[k := conn];
      wheel.Add(conn);
      return true;
    }

    /** Register did not keep the socket: close it. */
    method CloseRejected(conn: Conn, ghost d: nat, ghost s: State)
      requires Shows(s) && Enabled(s, Step.CloseRejected(d))
      requires s.dials[d].conn in all && all[s.dials[d].conn] == conn
      modifies conn`closed
      ensures Shows(Next(s, Step.CloseRejected(d)))
    {
      conn.closed := true;
    }

    /** Take the bot's socket, wanted or registered, out of the engine; the caller then closes it. */
    method CloseHot(k: nat, ghost x: nat, ghost s: State) returns (conn: Conn?)
      requires Shows(s) && Enabled(s, Step.CloseHot(k, x))
      modifies this`opening, this`hot
      ensures Shows(Next(s, Step.CloseHot(k, x)))
      ensures conn != null <==> x in Next(s, Step.CloseHot(k, x)).closers
      ensures conn != null ==> k in old(hot) && conn == old(hot)[k]
    {
      conn := null;
      if k in hot {
        conn := hot[k];
      }
      hot := hot - {k};
      opening := opening - {k};
    }

    /** After CloseHot: out of the wheel, and then closed. */
    method Unwheel(conn: Conn, ghost x: nat, ghost s: State)
      requires Shows(s) && Enabled(s, Step.Unwheel(x)) && s.closers[x].conn in all && all[s.closers[x].conn] == conn
      modifies wheel
      ensures Shows(Next(s, Step.Unwheel(x)))
    {
      wheel.Remove(conn);
    }

    method CloseConn(conn: Conn, ghost x: nat, ghost s: State)
      requires Shows(s) && Enabled(s, Step.CloseConn(x)) && s.closers[x].conn in all && all[s.closers[x].conn] == conn
      modifies conn`closed
      ensures Shows(Next(s, Step.CloseConn(x)))
    {
      conn.closed := true;
    }

    /** A read loop ends: it marks its socket closed, and then owes its onClose. */
    method Die(conn: Conn, ghost s: State)
      requires Shows(s) && conn.id in all && all[conn.id] == conn && Enabled(s, Step.Die(conn.id))
      modifies conn`closed
      ensures Shows(Next(s, Step.Die(conn.id)))
    {
      conn.closed := true;
    }

    /**
      A read loop has ended.  Only a socket that is still registered died
      unexpectedly; it is evicted, so that the bot can be dialed again.
     */
    method OnClose(k: nat, ghost c: nat, ghost s: State) returns (unexpected: bool)
      requires Shows(s) && Enabled(s, Step.OnClose(c)) && s.conns[c].bot == k
      modifies this`hot, wheel
      ensures Shows(Next(s, Step.OnClose(c)))
      ensures unexpected <==> HasDead(s, k)
    {
      ghost var s' := Next(s, Step.OnClose(c));
      unexpected := k in hot && hot[k].closed;
      assert ShowsConns(s');
      if unexpected {
        wheel.Remove(hot[k]);
        hot := hot - {k};
      }
    }

    /** One socket of a tick is one more Prune step, or none. */
    method VisitOne(conn: Conn, ghost start: State, ghost trace: seq<Step>, ghost s: State)
      returns (pinged: bool, ghost trace': seq<Step>, ghost s': State)
      requires Shows(s) && conn.id in all && all[conn.id] == conn
      requires Exec(start, trace) == Some(s) && AllPrunes(trace)
      modifies wheel
      ensures pinged <==> !conn.closed
      ensures wheel.conns == if conn.closed then old(wheel.conns) - {conn} else old(wheel.conns)
      ensures trace' == trace + (if conn.closed then [Prune(conn.id)] else [])
      ensures Exec(start, trace') == Some(s') && AllPrunes(trace') && Shows(s')
    {
      trace', s' := trace, s;
      if conn.closed {
        trace', s' := trace + [Prune(conn.id)], Next(s, Prune(conn.id));
        ExecSnoc(start, trace, s, Prune(conn.id));
      }
      pinged := wheel.Visit(conn);
    }

    /** How far a tick has come: `rest` is still to be visited, `pinged` was open. */
    ghost predicate Ticked(before: set<Conn>, rest: set<Conn>, pinged: set<Conn>)
      reads wheel, before
    {
      && rest <= wheel.conns <= before && pinged <= before
      && (forall c <- before - rest :: c in wheel.conns <==> !c.closed)
      && forall c <- before :: c in pinged <==> c in wheel.conns && c !in rest
    }

    /**
      One tick of the wheel: a snapshot, and then one socket after the other, each
      under the lock for itself.  Open sockets are pinged, closed ones pruned.
     */
    method Tick(ghost s: State) returns (pinged: set<Conn>, ghost trace: seq<Step>, ghost s': State)
      requires Shows(s)
      modifies wheel
      ensures Exec(s, trace) == Some(s') && Shows(s') && AllPrunes(trace)
      ensures forall c :: c in wheel.conns <==> c in old(wheel.conns) && !c.closed
      ensures pinged == wheel.conns
    {
      var snapshot := wheel.conns;
      pinged, trace, s' := {}, [], s;
      while snapshot != {}
        invariant Ticked(old(wheel.conns), snapshot, pinged)
        invariant Exec(s, trace) == Some(s') && Shows(s') && AllPrunes(trace)
        decreases |snapshot|
      {
        var c :| c in snapshot;
        var open;
        open, trace, s' := VisitOne(c, s, trace, s');
        snapshot := snapshot - {c};
        if open {
          pinged := pinged + {c};
        }
      }
    }
  }

  lemma ExecSnoc(start: State, trace: seq<Step>, s: State, step: Step)
    requires Exec(start, trace) == Some(s) && Enabled(s, step)
    ensures Exec(start, trace + [step]) == Some(Next(s, step))
  {
    assert (trace + [step])[..|trace|] == trace;
  }

  predicate AllPrunes(steps: seq<Step>) {
    forall step <- steps :: step.Prune?
  }
}
