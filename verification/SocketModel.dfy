/**
  Who owns which socket: dials, intentional closes, sockets that die and the ping
  wheel's pruning, as atomic steps.  A section under the engine's lock is one
  step; so is a write of a socket's closed flag.
 */
module SocketModel {
  import opened Wrappers

  /** A read loop runs, has ended and owes its onClose, or has made that one call. */
  datatype Loop = Running | Ended | Told

  /** A socket: the bot it serves, whether it is marked closed, and its read loop. */
  datatype Socket = Socket(bot: nat, closed: bool, loop: Loop)

  /** A dial goroutine: dialing, holding a new socket, or about to close a socket nobody wants. */
  datatype Dial = Dialing(bot: nat) | Dialed(bot: nat, conn: nat) | Rejecting(conn: nat)

  /** The rest of a CloseHot, once the engine's lock is released. */
  datatype Closer = Unwheeling(conn: nat) | Closing(conn: nat)

  datatype State = State(
    conns: map<nat, Socket>,      // every socket so far
    hot: map<nat, nat>,           // bot to registered socket
    opening: set<nat>,            // bots whose dial is wanted
    wheel: set<nat>,              // sockets that are pinged
    dials: map<nat, Dial>,
    closers: map<nat, Closer>)

  const START := State(map[], map[], {}, {}, map[], map[])

  datatype Step =
    | OpenHot(bot: nat, dial: nat)
    | DialOk(dial: nat, conn: nat)
    | DialFailed(dial: nat)
    | Register(dial: nat)
    | CloseRejected(dial: nat)
    | CloseHot(bot: nat, closer: nat)
    | Unwheel(closer: nat)
    | CloseConn(closer: nat)
    | Die(conn: nat)
    | OnClose(conn: nat)
    | Prune(conn: nat)

  predicate Enabled(s: State, step: Step) {
    match step
    case OpenHot(_, d) => d !in s.dials
    case DialOk(d, c) => d in s.dials && s.dials[d].Dialing? && c !in s.conns
    case DialFailed(d) => d in s.dials && s.dials[d].Dialing?
    case Register(d) => d in s.dials && s.dials[d].Dialed?
    case CloseRejected(d) => d in s.dials && s.dials[d].Rejecting? && s.dials[d].conn in s.conns
    case CloseHot(_, x) => x !in s.closers
    case Unwheel(x) => x in s.closers && s.closers[x].Unwheeling?
    case CloseConn(x) => x in s.closers && s.closers[x].Closing? && s.closers[x].conn in s.conns
    case Die(c) => c in s.conns && s.conns[c].loop.Running?
    case OnClose(c) => c in s.conns && s.conns[c].loop.Ended?
    case Prune(c) => c in s.conns && s.conns[c].closed
  }

  /** The bot's socket is registered and not marked closed. */
  predicate HasLive(s: State, k: nat) {
    k in s.hot && s.hot[k] in s.conns && !s.conns[s.hot[k]].closed
  }

  /** The bot has a registered socket, and it is marked closed. */
  predicate HasDead(s: State, k: nat) {
    k in s.hot && s.hot[k] in s.conns && s.conns[s.hot[k]].closed
  }

  function MarkClosed(s: State, c: nat): map<nat, Socket>
    requires c in s.conns
  {
    s.conns[c := s.conns[c].(closed := true)]
  }

  function Next(s: State, step: Step): State
    requires Enabled(s, step)
  {
    match step
    case OpenHot(k, d) =>
      if HasLive(s, k) || k in s.opening then s
      else s.(opening := s.opening + {k}, dials := s.dials[d := Dialing(k)])
    case DialOk(d, c) =>
      s.(conns := s.conns[c := Socket(s.dials[d].bot, false, Running)],
         dials := s.dials[d := Dialed(s.dials[d].bot, c)])
    case DialFailed(d) => s.(opening := s.opening - {s.dials[d].bot}, dials := s.dials - {d})
    case Register(d) =>
      var k, c := s.dials[d].bot, s.dials[d].conn;
      if k !in s.opening then s.(dials := s.dials[d := Rejecting(c)])
      else if HasLive(s, k) then s.(opening := s.opening - {k}, dials := s.dials[d := Rejecting(c)])
      else s.(opening := s.opening - {k}, hot := s.hot[k := c], wheel := s.wheel + {c}, dials := s.dials - {d})
    case CloseRejected(d) => s.(conns := MarkClosed(s, s.dials[d].conn), dials := s.dials - {d})
    case CloseHot(k, x) =>
      var s' := s.(hot := s.hot - {k}, opening := s.opening - {k});
      if k in s.hot then s'.(closers := s.closers[x := Unwheeling(s.hot[k])]) else s'
    case Unwheel(x) =>
      s.(wheel := s.wheel - {s.closers[x].conn}, closers := s.closers[x := Closing(s.closers[x].conn)])
    case CloseConn(x) => s.(conns := MarkClosed(s, s.closers[x].conn), closers := s.closers - {x})
    case Die(c) => s.(conns := s.conns[c := s.conns[c].(closed := true, loop := Ended)])
    case OnClose(c) =>
      var k := s.conns[c].bot;
      var told := s.(conns := s.conns[c := s.conns[c].(loop := Told)]);
      if HasDead(s, k) then told.(hot := s.hot - {k}, wheel := s.wheel - {s.hot[k]}) else told
    case Prune(c) => s.(wheel := s.wheel - {c})
  }

  function Exec(s: State, steps: seq<Step>): Option<State> {
    if steps == [] then Some(s)
    else match Exec(s, steps[..|steps| - 1])
         case None => None
         case Some(s') => if Enabled(s', steps[|steps| - 1]) then Some(Next(s', steps[|steps| - 1])) else None
  }

  // ----- the invariant -----

  predicate Registered(s: State, c: nat) {
    exists k <- s.hot :: s.hot[k] == c
  }

  predicate Holds(d: Dial, c: nat) {
    (d.Dialed? || d.Rejecting?) && d.conn == c
  }

  predicate Serves(s: State, c: nat, k: nat) {
    c in s.conns && s.conns[c].bot == k
  }

  /** A goroutine that will register or close the socket. */
  ghost predicate Held(s: State, c: nat) {
    (exists d <- s.dials :: Holds(s.dials[d], c)) || (exists x <- s.closers :: s.closers[x].conn == c)
  }

  /** Registered sockets serve the bot they are registered for; so no socket is registered twice. */
  ghost predicate HotOwn(s: State) {
    forall k <- s.hot :: Serves(s, s.hot[k], k)
  }

  /** A socket in the hands of a dial or of a closer is not registered, and no other dial has it. */
  ghost predicate DialsOwn(s: State) {
    && (forall d <- s.dials, c: nat :: Holds(s.dials[d], c) ==> c in s.conns && !Registered(s, c))
    && (forall d <- s.dials :: s.dials[d].Dialed? ==> Serves(s, s.dials[d].conn, s.dials[d].bot))
    && (forall d <- s.dials, e <- s.dials, c: nat :: d != e && Holds(s.dials[d], c) ==> !Holds(s.dials[e], c))
  }

  ghost predicate ClosersOwn(s: State) {
    forall x <- s.closers :: s.closers[x].conn in s.conns && !Registered(s, s.closers[x].conn)
                             && forall d <- s.dials :: !Holds(s.dials[d], s.closers[x].conn)
  }

  ghost predicate LiveOwned(s: State) {
    forall c <- s.conns :: !s.conns[c].closed ==> Registered(s, c) || Held(s, c)
  }

  ghost predicate LivePinged(s: State) {
    forall k <- s.hot :: HasLive(s, k) ==> s.hot[k] in s.wheel
  }

  ghost predicate Inv(s: State) {
    HotOwn(s) && DialsOwn(s) && ClosersOwn(s) && LiveOwned(s) && LivePinged(s)
  }

  lemma StepKeepsHot(s: State, step: Step)
    requires HotOwn(s) && DialsOwn(s) && Enabled(s, step)
    ensures HotOwn(Next(s, step))
  {}

  /** Registering is the only way to become registered, and only for a dial's own socket. */
  lemma RegisteredAfter(s: State, step: Step, c: nat)
    requires Enabled(s, step) && Registered(Next(s, step), c)
    ensures Registered(s, c) || (step.Register? && Holds(s.dials[step.dial], c) && step.dial !in Next(s, step).dials)
  {
    var s' := Next(s, step);
    var k :| k in s'.hot && s'.hot[k] == c;
    if k in s.hot && s.hot[k] == c {
      assert Registered(s, c);
    }
  }

  lemma NewSocketUnregistered(s: State, c: nat)
    requires HotOwn(s) && c !in s.conns
    ensures !Registered(s, c)
  {}

  lemma DialNotRegistered(s: State, step: Step, d: nat, c: nat)
    requires HotOwn(s) && DialsOwn(s) && Enabled(s, step)
    requires d in Next(s, step).dials && Holds(Next(s, step).dials[d], c)
    ensures c in Next(s, step).conns && !Registered(Next(s, step), c)
  {
    var s' := Next(s, step);
    if d in s.dials && Holds(s.dials[d], c) {
      assert !Registered(s, c);
    } else {
      assert step.DialOk? && c == step.conn;
      NewSocketUnregistered(s, c);
    }
    if Registered(s', c) {
      RegisteredAfter(s, step, c);
    }
  }

  lemma StepKeepsDials(s: State, step: Step)
    requires HotOwn(s) && DialsOwn(s) && Enabled(s, step)
    ensures DialsOwn(Next(s, step))
  {
    var s' := Next(s, step);
    forall d, c: nat | d in s'.dials && Holds(s'.dials[d], c) ensures c in s'.conns && !Registered(s', c) {
      DialNotRegistered(s, step, d, c);
    }
    forall d, e, c: nat | d in s'.dials && e in s'.dials && d != e && Holds(s'.dials[d], c)
      ensures !Holds(s'.dials[e], c)
    {
      DialsApart(s, step, d, e, c);
    }
    forall d <- s'.dials | s'.dials[d].Dialed? ensures Serves(s', s'.dials[d].conn, s'.dials[d].bot) {
      DialServes(s, step, d);
    }
  }

  lemma DialServes(s: State, step: Step, d: nat)
    requires DialsOwn(s) && Enabled(s, step) && d in Next(s, step).dials && Next(s, step).dials[d].Dialed?
    ensures var s' := Next(s, step); Serves(s', s'.dials[d].conn, s'.dials[d].bot)
  {}

  lemma DialsApart(s: State, step: Step, d: nat, e: nat, c: nat)
    requires DialsOwn(s) && Enabled(s, step) && d in Next(s, step).dials && e in Next(s, step).dials && d != e
    requires Holds(Next(s, step).dials[d], c)
    ensures !Holds(Next(s, step).dials[e], c)
  {}

  /** A closer's socket stays unregistered, and a new closer's one has just been taken out. */
  lemma CloserNotRegistered(s: State, step: Step, x: nat)
    requires HotOwn(s) && ClosersOwn(s) && Enabled(s, step) && x in Next(s, step).closers
    ensures var s' := Next(s, step);
            s'.closers[x].conn in s'.conns && !Registered(s', s'.closers[x].conn)
  {
    var s' := Next(s, step);
    var c := s'.closers[x].conn;
    if Registered(s', c) {
      RegisteredAfter(s, step, c);
    }
  }

  lemma CloserNotHeld(s: State, step: Step, x: nat, d: nat)
    requires HotOwn(s) && DialsOwn(s) && ClosersOwn(s) && Enabled(s, step)
    requires x in Next(s, step).closers && d in Next(s, step).dials
    ensures !Holds(Next(s, step).dials[d], Next(s, step).closers[x].conn)
  {
    var s' := Next(s, step);
    var c := s'.closers[x].conn;
    assert x !in s.closers ==> Registered(s, c);
  }

  lemma StepKeepsClosers(s: State, step: Step)
    requires HotOwn(s) && DialsOwn(s) && ClosersOwn(s) && Enabled(s, step)
    ensures ClosersOwn(Next(s, step))
  {
    var s' := Next(s, step);
    forall x <- s'.closers ensures s'.closers[x].conn in s'.conns && !Registered(s', s'.closers[x].conn) {
      CloserNotRegistered(s, step, x);
    }
    forall x <- s'.closers, d <- s'.dials ensures !Holds(s'.dials[d], s'.closers[x].conn) {
      CloserNotHeld(s, step, x, d);
    }
  }

  /** A socket that stops being registered was marked closed, or a closer has it. */
  lemma RegisteredStays(s: State, step: Step, c: nat)
    requires Inv(s) && Enabled(s, step) && Registered(s, c) && c in s.conns && !s.conns[c].closed
    ensures Registered(Next(s, step), c) || Held(Next(s, step), c)
  {
    var s' := Next(s, step);
    var k :| k in s.hot && s.hot[k] == c;
    assert HasLive(s, k);
    if k in s'.hot && s'.hot[k] == c {
      assert Registered(s', c);
    } else {
      OnlyCloseHotRemovesLive(s, step, k);
      assert step.closer in s'.closers && s'.closers[step.closer].conn == c;
    }
  }

  /** A dial keeps its socket until it registers or closes it. */
  lemma DialStays(s: State, step: Step, d: nat, c: nat)
    requires Enabled(s, step) && d in s.dials && Holds(s.dials[d], c)
    ensures var s' := Next(s, step);
            (d in s'.dials && Holds(s'.dials[d], c)) || Registered(s', c) || (c in s'.conns && s'.conns[c].closed)
  {
    if step.Register? && step.dial == d && d !in Next(s, step).dials {
      assert Next(s, step).hot[s.dials[d].bot] == c;
    }
  }

  /** So does a closer. */
  lemma CloserStays(s: State, step: Step, x: nat)
    requires Enabled(s, step) && x in s.closers
    ensures var s', c := Next(s, step), s.closers[x].conn;
            (x in s'.closers && s'.closers[x].conn == c) || (c in s'.conns && s'.conns[c].closed)
  {}

  lemma StillOwned(s: State, step: Step, c: nat)
    requires Inv(s) && Enabled(s, step) && c in s.conns && !s.conns[c].closed && (Registered(s, c) || Held(s, c))
    requires c in Next(s, step).conns && !Next(s, step).conns[c].closed
    ensures Registered(Next(s, step), c) || Held(Next(s, step), c)
  {
    if Registered(s, c) {
      RegisteredStays(s, step, c);
    } else if d :| d in s.dials && Holds(s.dials[d], c) {
      DialStays(s, step, d, c);
    } else {
      var x :| x in s.closers && s.closers[x].conn == c;
      CloserStays(s, step, x);
    }
  }

  lemma StepKeepsLiveOwned(s: State, step: Step)
    requires Inv(s) && Enabled(s, step)
    ensures LiveOwned(Next(s, step))
  {
    var s' := Next(s, step);
    forall c <- s'.conns | !s'.conns[c].closed ensures Registered(s', c) || Held(s', c) {
      if c in s.conns {
        assert !s.conns[c].closed;
        StillOwned(s, step, c);
      } else {
        assert Holds(s'.dials[step.dial], c);
      }
    }
  }

  lemma StepKeepsPinged(s: State, step: Step)
    requires Inv(s) && Enabled(s, step)
    ensures LivePinged(Next(s, step))
  {
    var s' := Next(s, step);
    forall k <- s'.hot | HasLive(s', k) ensures s'.hot[k] in s'.wheel {
      if k in s.hot && s.hot[k] == s'.hot[k] {
        assert HasLive(s, k);
        assert Registered(s, s.hot[k]);
      }
    }
  }

  lemma StepKeepsInv(s: State, step: Step)
    requires Inv(s) && Enabled(s, step)
    ensures Inv(Next(s, step))
  {
    StepKeepsHot(s, step);
    StepKeepsDials(s, step);
    StepKeepsClosers(s, step);
    StepKeepsLiveOwned(s, step);
    StepKeepsPinged(s, step);
  }

  lemma {:induction false} ReachableInv(steps: seq<Step>)
    requires Exec(START, steps).Some?
    ensures Inv(Exec(START, steps).value)
    decreases |steps|
  {
    if steps != [] {
      ReachableInv(steps[..|steps| - 1]);
      StepKeepsInv(Exec(START, steps[..|steps| - 1]).value, steps[|steps| - 1]);
    }
  }

  // ----- what holds in every interleaving -----

  /**
    No socket leaks: one that is not marked closed is either the registered socket
    of its bot, and then it is pinged, or in the hands of a goroutine that is about
    to register or close it; and it is never both.
   */
  lemma NoSocketLeaks(steps: seq<Step>, c: nat)
    requires Exec(START, steps).Some? && c in Exec(START, steps).value.conns
    ensures var s := Exec(START, steps).value;
            var bot := s.conns[c].bot;
            && (forall k <- s.hot :: s.hot[k] == c ==> k == bot)
            && (!s.conns[c].closed ==> (bot in s.hot && s.hot[bot] == c && c in s.wheel) || Held(s, c))
            && !(bot in s.hot && s.hot[bot] == c && Held(s, c))
  {
    ReachableInv(steps);
    var s := Exec(START, steps).value;
    var bot := s.conns[c].bot;
    if bot in s.hot && s.hot[bot] == c {
      assert Registered(s, c);
      assert !s.conns[c].closed ==> HasLive(s, bot);
    }
  }

  /** Nothing but CloseHot takes a live socket away from its bot. */
  lemma OnlyCloseHotRemovesLive(s: State, step: Step, k: nat)
    requires Enabled(s, step) && HasLive(s, k)
    requires var s' := Next(s, step); !(k in s'.hot && s'.hot[k] == s.hot[k])
    ensures step.CloseHot? && step.bot == k
  {}

  lemma ClosedStays(s: State, step: Step, c: nat)
    requires Enabled(s, step) && c in s.conns
    ensures c in Next(s, step).conns && (s.conns[c].closed ==> Next(s, step).conns[c].closed)
  {}

  /** A bot keeps its socket, over any run without CloseHot for it, until the socket itself is closed. */
  lemma {:induction false} LiveStays(s: State, steps: seq<Step>, k: nat)
    requires Inv(s) && HasLive(s, k) && Exec(s, steps).Some?
    requires forall step <- steps :: !(step.CloseHot? && step.bot == k)
    ensures var s', c := Exec(s, steps).value, s.hot[k];
            Inv(s') && c in s'.conns && (s'.conns[c].closed || (HasLive(s', k) && s'.hot[k] == c))
    decreases |steps|
  {
    if steps != [] {
      var front, last := steps[..|steps| - 1], steps[|steps| - 1];
      assert last in steps && forall step <- front :: step in steps;
      LiveStays(s, front, k);
      var mid := Exec(s, front).value;
      StepKeepsInv(mid, last);
      ClosedStays(mid, last, s.hot[k]);
      if HasLive(mid, k) && !(k in Next(mid, last).hot && Next(mid, last).hot[k] == mid.hot[k]) {
        OnlyCloseHotRemovesLive(mid, last, k);
      }
    }
  }

  /** Neither registered nor wanted. */
  predicate Off(s: State, k: nat) {
    k !in s.hot && k !in s.opening
  }

  lemma StepStaysOff(s: State, step: Step, k: nat)
    requires Off(s, k) && Enabled(s, step) && !(step.OpenHot? && step.bot == k)
    ensures Off(Next(s, step), k)
  {}

  lemma {:induction false} StaysOff(s: State, steps: seq<Step>, k: nat)
    requires Off(s, k) && Exec(s, steps).Some?
    requires forall step <- steps :: !(step.OpenHot? && step.bot == k)
    ensures Off(Exec(s, steps).value, k)
    decreases |steps|
  {
    if steps != [] {
      var front, last := steps[..|steps| - 1], steps[|steps| - 1];
      assert last in steps && forall step <- front :: step in steps;
      StaysOff(s, front, k);
      StepStaysOff(Exec(s, front).value, last, k);
    }
  }

  /** After CloseHot(k), whatever dials are still in flight, no socket is registered for k until it is opened again. */
  lemma ClosedUntilOpened(s: State, x: nat, steps: seq<Step>, k: nat)
    requires x !in s.closers && Exec(Next(s, CloseHot(k, x)), steps).Some?
    requires forall step <- steps :: !(step.OpenHot? && step.bot == k)
    ensures k !in Exec(Next(s, CloseHot(k, x)), steps).value.hot
  {
    StaysOff(Next(s, CloseHot(k, x)), steps, k);
  }
}
