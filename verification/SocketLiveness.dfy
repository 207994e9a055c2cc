/**
  What the engine achieves: wanted bots get a live, pinged socket, failed dials can
  be tried again, and sockets that were closed or died are gone.
 */
module SocketLiveness {
  import opened Wrappers
  import opened SocketModel

  // ----- getting a socket -----

  /** A dial starts exactly when the bot has no live socket and none on its way. */
  lemma OpenHotExact(s: State, k: nat, d: nat)
    requires Enabled(s, OpenHot(k, d))
    ensures d in Next(s, OpenHot(k, d)).dials <==> !HasLive(s, k) && k !in s.opening
    ensures !HasLive(s, k) && k !in s.opening ==>
              Next(s, OpenHot(k, d)).dials == s.dials[d := Dialing(k)] && k in Next(s, OpenHot(k, d)).opening
  {}

  /** A dialed socket that is open, and wanted by a bot without a live one, becomes the bot's live, pinged socket. */
  lemma RegisterKeepsWanted(s: State, d: nat, k: nat, c: nat)
    requires Inv(s) && d in s.dials && s.dials[d] == Dialed(k, c)
    requires k in s.opening && !HasLive(s, k) && c in s.conns && !s.conns[c].closed
    ensures var s' := Next(s, Register(d));
            k in s'.hot && s'.hot[k] == c && HasLive(s', k) && c in s'.wheel && d !in s'.dials && k !in s'.opening
  {}

  /** Any other dialed socket is not registered, and is in line to be closed. */
  lemma RegisterRejects(s: State, d: nat, k: nat, c: nat)
    requires d in s.dials && s.dials[d] == Dialed(k, c) && (k !in s.opening || HasLive(s, k))
    ensures var s' := Next(s, Register(d));
            s'.hot == s.hot && s'.wheel == s.wheel && s'.dials == s.dials[d := Rejecting(c)] && k !in s'.opening
  {}

  /** The bot that a dial is for, while it is still dialing or holds its socket. */
  predicate DialFor(dial: Dial, k: nat) {
    (dial.Dialing? || dial.Dialed?) && dial.bot == k
  }

  /** Bot k is wanted and has no live socket; dial d is its only one, and its socket, c, is open if it is there. */
  ghost predicate OnItsWay(s: State, k: nat, d: nat, c: nat) {
    && k in s.opening && !HasLive(s, k) && d in s.dials
    && (s.dials[d] == Dialing(k) || (s.dials[d] == Dialed(k, c) && c in s.conns && !s.conns[c].closed))
    && forall e <- s.dials :: e != d ==> !DialFor(s.dials[e], k)
  }

  /** Nothing that gives up on the dial: no CloseHot, no failure, and its socket, c, does not die. */
  predicate LetsArrive(step: Step, k: nat, d: nat, c: nat) {
    && !(step.CloseHot? && step.bot == k) && !(step.DialFailed? && step.dial == d) && !(step.Die? && step.conn == c)
    && !(step.Register? && step.dial == d) && (step.DialOk? && step.dial == d ==> step.conn == c)
  }

  lemma StillNotLive(s: State, step: Step, k: nat, d: nat, c: nat)
    requires HotOwn(s) && OnItsWay(s, k, d, c) && Enabled(s, step) && LetsArrive(step, k, d, c)
    ensures !HasLive(Next(s, step), k) && k in Next(s, step).opening
  {}

  lemma StillTheOnlyDial(s: State, step: Step, k: nat, d: nat, c: nat)
    requires OnItsWay(s, k, d, c) && Enabled(s, step) && LetsArrive(step, k, d, c)
    ensures forall e <- Next(s, step).dials :: e != d ==> !DialFor(Next(s, step).dials[e], k)
  {}

  lemma StillDialed(s: State, step: Step, k: nat, d: nat, c: nat)
    requires Inv(s) && OnItsWay(s, k, d, c) && Enabled(s, step) && LetsArrive(step, k, d, c)
    ensures var s' := Next(s, step);
            d in s'.dials
            && (s'.dials[d] == Dialing(k) || (s'.dials[d] == Dialed(k, c) && c in s'.conns && !s'.conns[c].closed))
  {
    assert s.dials[d] == Dialed(k, c) ==> Holds(s.dials[d], c);
  }

  lemma {:induction false} StaysOnItsWay(s: State, steps: seq<Step>, k: nat, d: nat, c: nat)
    requires Inv(s) && OnItsWay(s, k, d, c) && Exec(s, steps).Some?
    requires forall step <- steps :: LetsArrive(step, k, d, c)
    ensures Inv(Exec(s, steps).value) && OnItsWay(Exec(s, steps).value, k, d, c)
    decreases |steps|
  {
    if steps != [] {
      var front, last := steps[..|steps| - 1], steps[|steps| - 1];
      assert last in steps && forall step <- front :: step in steps;
      StaysOnItsWay(s, front, k, d, c);
      var mid := Exec(s, front).value;
      StepKeepsInv(mid, last);
      StillNotLive(mid, last, k, d, c);
      StillTheOnlyDial(mid, last, k, d, c);
      StillDialed(mid, last, k, d, c);
    }
  }

  /**
    A wanted bot gets its socket.  From an OpenHot that starts a dial, through any
    interleaving in which the bot is not closed, the dial does not fail, its socket
    does not die, and no older dial of the bot is still around, the dial's Register
    leaves the bot with that socket: registered, live and pinged.
   */
  lemma WantedGetsSocket(s: State, k: nat, d: nat, c: nat, steps: seq<Step>)
    requires Inv(s) && Enabled(s, OpenHot(k, d)) && !HasLive(s, k) && k !in s.opening
    requires forall e <- s.dials :: !DialFor(s.dials[e], k)
    requires Exec(Next(s, OpenHot(k, d)), steps).Some? && forall step <- steps :: LetsArrive(step, k, d, c)
    requires Enabled(Exec(Next(s, OpenHot(k, d)), steps).value, Register(d))
    ensures var s' := Next(Exec(Next(s, OpenHot(k, d)), steps).value, Register(d));
            k in s'.hot && s'.hot[k] == c && HasLive(s', k) && c in s'.wheel
  {
    StepKeepsInv(s, OpenHot(k, d));
    StaysOnItsWay(Next(s, OpenHot(k, d)), steps, k, d, c);
    RegisterKeepsWanted(Exec(Next(s, OpenHot(k, d)), steps).value, d, k, c);
  }

  lemma StaysUnwanted(s: State, step: Step, k: nat)
    requires k !in s.opening && Enabled(s, step) && !(step.OpenHot? && step.bot == k)
    ensures k !in Next(s, step).opening
  {}

  lemma {:induction false} UnwantedUntilOpened(s: State, steps: seq<Step>, k: nat)
    requires k !in s.opening && Exec(s, steps).Some? && forall step <- steps :: !(step.OpenHot? && step.bot == k)
    ensures k !in Exec(s, steps).value.opening
    decreases |steps|
  {
    if steps != [] {
      var front, last := steps[..|steps| - 1], steps[|steps| - 1];
      assert last in steps && forall step <- front :: step in steps;
      UnwantedUntilOpened(s, front, k);
      StaysUnwanted(Exec(s, front).value, last, k);
    }
  }

  /** After a failed dial, whatever else happens, the next OpenHot starts a new one unless the bot has a socket. */
  lemma DialedAgain(s: State, d: nat, steps: seq<Step>, e: nat)
    requires Enabled(s, DialFailed(d)) && Exec(Next(s, DialFailed(d)), steps).Some?
    requires forall step <- steps :: !(step.OpenHot? && step.bot == s.dials[d].bot)
    requires e !in Exec(Next(s, DialFailed(d)), steps).value.dials
    ensures var k, s1 := s.dials[d].bot, Exec(Next(s, DialFailed(d)), steps).value;
            e in Next(s1, OpenHot(k, e)).dials <==> !HasLive(s1, k)
  {
    UnwantedUntilOpened(Next(s, DialFailed(d)), steps, s.dials[d].bot);
  }

  // ----- losing a socket -----

  /** Socket c has been taken out of the engine by closer x, which unwheels it, then closes it, and is then done. */
  ghost predicate OnItsWayOut(s: State, x: nat, c: nat) {
    && c in s.conns && (forall d <- s.dials :: !Holds(s.dials[d], c))
    && if x in s.closers then s.closers[x].conn == c && (s.closers[x].Closing? ==> c !in s.wheel)
       else s.conns[c].closed && c !in s.wheel
  }

  lemma StillUndialed(s: State, step: Step, c: nat)
    requires Enabled(s, step) && c in s.conns && forall d <- s.dials :: !Holds(s.dials[d], c)
    ensures c in Next(s, step).conns && forall d <- Next(s, step).dials :: !Holds(Next(s, step).dials[d], c)
  {}

  lemma StillOnItsWayOut(s: State, step: Step, x: nat, c: nat)
    requires OnItsWayOut(s, x, c) && Enabled(s, step) && !(step.CloseHot? && step.closer == x)
    ensures OnItsWayOut(Next(s, step), x, c)
  {
    StillUndialed(s, step, c);
  }

  lemma {:induction false} StaysOnItsWayOut(s: State, steps: seq<Step>, x: nat, c: nat)
    requires OnItsWayOut(s, x, c) && Exec(s, steps).Some?
    requires forall step <- steps :: !(step.CloseHot? && step.closer == x)
    ensures OnItsWayOut(Exec(s, steps).value, x, c)
    decreases |steps|
  {
    if steps != [] {
      var front, last := steps[..|steps| - 1], steps[|steps| - 1];
      assert last in steps && forall step <- front :: step in steps;
      StaysOnItsWayOut(s, front, x, c);
      StillOnItsWayOut(Exec(s, front).value, last, x, c);
    }
  }

  /** Once a CloseHot has run to its end, in any interleaving, the bot's socket is closed and no longer pinged. */
  lemma CloseHotCloses(s: State, k: nat, x: nat, steps: seq<Step>)
    requires Inv(s) && Enabled(s, CloseHot(k, x)) && k in s.hot && Exec(Next(s, CloseHot(k, x)), steps).Some?
    requires forall step <- steps :: !(step.CloseHot? && step.closer == x)
    requires x !in Exec(Next(s, CloseHot(k, x)), steps).value.closers
    ensures var s' := Exec(Next(s, CloseHot(k, x)), steps).value;
            s.hot[k] in s'.conns && s'.conns[s.hot[k]].closed && s.hot[k] !in s'.wheel
  {
    StepKeepsInv(s, CloseHot(k, x));
    assert x in Next(s, CloseHot(k, x)).closers;
    StaysOnItsWayOut(Next(s, CloseHot(k, x)), steps, x, s.hot[k]);
  }

  lemma {:induction false} ClosedForGood(s: State, steps: seq<Step>, c: nat)
    requires c in s.conns && s.conns[c].closed && Exec(s, steps).Some?
    ensures var s' := Exec(s, steps).value;
            c in s'.conns && s'.conns[c].closed && s'.conns[c].bot == s.conns[c].bot
    decreases |steps|
  {
    if steps != [] {
      var front, last := steps[..|steps| - 1], steps[|steps| - 1];
      ClosedForGood(s, front, c);
      StillClosed(Exec(s, front).value, last, c);
    }
  }

  lemma StillClosed(s: State, step: Step, c: nat)
    requires c in s.conns && s.conns[c].closed && Enabled(s, step)
    ensures var s' := Next(s, step); c in s'.conns && s'.conns[c].closed && s'.conns[c].bot == s.conns[c].bot
  {}

  /** A socket that dies is not its bot's socket, nor pinged for it, once its onClose has run. */
  lemma DeadSocketGoes(s: State, c: nat, steps: seq<Step>)
    requires Enabled(s, Die(c)) && Exec(Next(s, Die(c)), steps).Some?
    requires Enabled(Exec(Next(s, Die(c)), steps).value, OnClose(c))
    ensures var s1 := Exec(Next(s, Die(c)), steps).value;
            var s', k := Next(s1, OnClose(c)), s.conns[c].bot;
            && !(k in s'.hot && s'.hot[k] == c)
            && (k in s1.hot && s1.hot[k] == c ==> c !in s'.wheel && k !in s'.hot)
            && (HasLive(s1, k) ==> s'.hot == s1.hot && s'.wheel == s1.wheel)
  {
    ClosedForGood(Next(s, Die(c)), steps, c);
  }
}
