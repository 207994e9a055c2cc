/**
  One socket's request table, shared by requesters and a reader, as a system of atomic
  steps: a mutex section, an atomic counter, or a channel operation each.
 */
module ConnModel {
  import opened Wrappers
  import opened Protowire
  import opened Decode
  import opened Acks

  /** How a request ends. */
  datatype Outcome = Acked(ack: Ack) | RejectedBy(ack: Ack) | NoAck | SendFailed

  /** Where a request is: Registered to Leaving it has an entry in the table. */
  datatype Phase = Allocated | Registered | Waiting | Leaving(outcome: Outcome) | Done(outcome: Outcome)

  /** Where the read loop is with the frame it has read. */
  datatype Reader =
    | Idle
    | Got(frame: Bytes)
    | Checked(frame: Bytes, waiting: bool)
    | Resolving(ack: Ack)
    | Sending(cid: nat, ack: Ack)

  datatype State = State(
    lastCid: nat,                      // the id sequence, shared with pings
    pinged: set<nat>,                  // the ids that pings took
    phases: map<nat, Phase>,           // every request so far
    pending: set<nat>,                 // the table's keys
    chans: map<nat, Option<Ack>>,      // each request's channel, of capacity one
    reader: Reader,
    frames: seq<Bytes>,                // what the read loop has dispatched
    handed: seq<Message>)              // what onMessage has been called with

  const START := State(0, {}, map[], {}, map[], Idle, [], [])

  datatype Step =
    | Ping
    | Alloc
    | Register(cid: nat)
    | Send(cid: nat, ok: bool)
    | Receive(cid: nat)
    | Timeout(cid: nat)
    | Finish(cid: nat)
    | Read(frame: Bytes)
    | Check
    | Dispatch
    | Lookup
    | TrySend

  predicate Enabled(s: State, step: Step) {
    match step
    case Ping => true
    case Alloc => true
    case Register(c) => c in s.phases && s.phases[c] == Allocated
    case Send(c, _) => c in s.phases && s.phases[c] == Registered
    case Receive(c) => c in s.phases && s.phases[c] == Waiting && c in s.chans && s.chans[c].Some?
    case Timeout(c) => c in s.phases && s.phases[c] == Waiting
    case Finish(c) => c in s.phases && s.phases[c].Leaving?
    case Read(_) => s.reader.Idle?
    case Check => s.reader.Got?
    case Dispatch => s.reader.Checked?
    case Lookup => s.reader.Resolving?
    case TrySend => s.reader.Sending? && s.reader.cid in s.chans
  }

  /** What a frame hands to onMessage: its channel message, unless the bot sent it itself. */
  function Handed(bot: Bytes, frame: Bytes): seq<Message> {
    var r := FrameOf(Fields(frame));
    if r.Found? && r.msg.senderId != bot then [r.msg] else []
  }

  function OutcomeOf(a: Ack): Outcome {
    if a.err then RejectedBy(a) else Acked(a)
  }

  function Next(bot: Bytes, s: State, step: Step): State
    requires Enabled(s, step)
  {
    match step
    case Ping => s.(lastCid := s.lastCid + 1, pinged := s.pinged + {s.lastCid + 1})
    case Alloc =>
      var c := s.lastCid + 1;
      s.(lastCid := c, phases := s.phases[c := Allocated], chans := s.chans[c := None])
    case Register(c) => s.(phases := s.phases[c := Registered], pending := s.pending + {c})
    case Send(c, ok) => s.(phases := s.phases[c := if ok then Waiting else Leaving(SendFailed)])
    case Receive(c) => s.(phases := s.phases[c := Leaving(OutcomeOf(s.chans[c].value))], chans := s.chans[c := None])
    case Timeout(c) => s.(phases := s.phases[c := Leaving(NoAck)])
    case Finish(c) => s.(phases := s.phases[c := Done(s.phases[c].outcome)], pending := s.pending - {c})
    case Read(frame) => s.(reader := Got(frame))
    case Check => s.(reader := Checked(s.reader.frame, s.pending != {}))
    case Dispatch =>
      var frame := s.reader.frame;
      if s.reader.waiting && AckOf(frame).Some? then
        s.(reader := Resolving(AckOf(frame).value), frames := s.frames + [frame])
      else
        s.(reader := Idle, frames := s.frames + [frame], handed := s.handed + Handed(bot, frame))
    case Lookup =>
      s.(reader := if s.reader.ack.cid in s.pending then Sending(s.reader.ack.cid, s.reader.ack) else Idle)
    case TrySend =>
      var c := s.reader.cid;
      s.(reader := Idle, chans := if s.chans[c].None? then s.chans[c := Some(s.reader.ack)] else s.chans)
  }

  /** The state after `steps` from `s`, if every one of them could be taken. */
  function ExecFrom(bot: Bytes, s: State, steps: seq<Step>): Option<State> {
    if steps == [] then Some(s)
    else match ExecFrom(bot, s, steps[..|steps| - 1])
         case None => None
         case Some(s') => if Enabled(s', steps[|steps| - 1]) then Some(Next(bot, s', steps[|steps| - 1])) else None
  }

  /** A run of a new socket. */
  function Exec(bot: Bytes, steps: seq<Step>): Option<State> {
    ExecFrom(bot, START, steps)
  }

  // ----- the invariant -----

  predicate InTable(p: Phase) {
    p.Registered? || p.Waiting? || p.Leaving?
  }

  /** `a` is a reply that some dispatched frame carried. */
  predicate Heard(s: State, a: Ack) {
    exists f <- s.frames :: AckOf(f) == Some(a)
  }

  /** An ack in the hands of request `c`: its own id, and from a frame. */
  ghost predicate Own(s: State, c: nat, a: Ack) {
    a.cid == c && Heard(s, a)
  }

  ghost predicate OutcomeOwn(s: State, c: nat, o: Outcome) {
    && (o.Acked? ==> Own(s, c, o.ack) && !o.ack.err)
    && (o.RejectedBy? ==> Own(s, c, o.ack) && o.ack.err)
  }

  ghost predicate PhaseOwn(s: State, c: nat, p: Phase) {
    (p.Leaving? || p.Done?) ==> OutcomeOwn(s, c, p.outcome)
  }

  ghost predicate TableExact(s: State) {
    forall c :: c in s.pending <==> c in s.phases && InTable(s.phases[c])
  }

  ghost predicate IdsInRange(s: State) {
    && s.phases.Keys == s.chans.Keys && (forall c <- s.phases :: 1 <= c <= s.lastCid)
    && forall c <- s.pinged :: 1 <= c <= s.lastCid && c !in s.phases
  }

  ghost predicate PhasesOwn(s: State) {
    forall c <- s.phases :: PhaseOwn(s, c, s.phases[c])
  }

  ghost predicate ChansOwn(s: State) {
    forall c <- s.chans :: s.chans[c].Some? ==> Own(s, c, s.chans[c].value)
  }

  ghost predicate ReaderOwn(s: State) {
    && (s.reader.Resolving? ==> Heard(s, s.reader.ack))
    && (s.reader.Sending? ==> s.reader.cid in s.chans && Own(s, s.reader.cid, s.reader.ack))
  }

  ghost predicate AcksOwn(s: State) {
    PhasesOwn(s) && ChansOwn(s) && ReaderOwn(s)
  }

  ghost predicate Inv(s: State) {
    TableExact(s) && IdsInRange(s) && AcksOwn(s)
  }

  lemma StepKeepsTable(bot: Bytes, s: State, step: Step)
    requires TableExact(s) && IdsInRange(s) && Enabled(s, step)
    ensures TableExact(Next(bot, s, step)) && IdsInRange(Next(bot, s, step))
  {}

  lemma HeardGrows(s: State, s': State, a: Ack)
    requires Heard(s, a) && s.frames <= s'.frames
    ensures Heard(s', a)
  {
    var f :| f in s.frames && AckOf(f) == Some(a);
    assert f in s'.frames;
  }

  lemma FramesGrow(bot: Bytes, s: State, step: Step)
    requires Enabled(s, step)
    ensures s.frames <= Next(bot, s, step).frames
  {}

  /** What has been heard stays heard. */
  ghost predicate HearsMore(s: State, s': State) {
    forall a :: Heard(s, a) ==> Heard(s', a)
  }

  lemma StepHearsMore(bot: Bytes, s: State, step: Step)
    requires Enabled(s, step)
    ensures HearsMore(s, Next(bot, s, step))
  {
    var s' := Next(bot, s, step);
    FramesGrow(bot, s, step);
    forall a | Heard(s, a) ensures Heard(s', a) {
      HeardGrows(s, s', a);
    }
  }

  lemma StepKeepsPhases(bot: Bytes, s: State, step: Step)
    requires PhasesOwn(s) && ChansOwn(s) && Enabled(s, step) && HearsMore(s, Next(bot, s, step))
    ensures PhasesOwn(Next(bot, s, step))
  {}

  lemma StepKeepsChans(bot: Bytes, s: State, step: Step)
    requires ChansOwn(s) && ReaderOwn(s) && Enabled(s, step) && HearsMore(s, Next(bot, s, step))
    ensures ChansOwn(Next(bot, s, step))
  {}

  lemma StepKeepsReader(bot: Bytes, s: State, step: Step)
    requires TableExact(s) && IdsInRange(s) && ReaderOwn(s) && Enabled(s, step) && HearsMore(s, Next(bot, s, step))
    ensures ReaderOwn(Next(bot, s, step))
  {
    var s' := Next(bot, s, step);
    if step.Dispatch? && s'.reader.Resolving? {
      assert s.reader.frame in s'.frames;
    }
  }

  lemma StepKeepsInv(bot: Bytes, s: State, step: Step)
    requires Inv(s) && Enabled(s, step)
    ensures Inv(Next(bot, s, step))
  {
    StepKeepsTable(bot, s, step);
    StepHearsMore(bot, s, step);
    StepKeepsPhases(bot, s, step);
    StepKeepsChans(bot, s, step);
    StepKeepsReader(bot, s, step);
  }

  lemma {:induction false} ReachableInv(bot: Bytes, steps: seq<Step>)
    requires Exec(bot, steps).Some?
    ensures Inv(Exec(bot, steps).value)
    decreases |steps|
  {
    if steps != [] {
      ReachableInv(bot, steps[..|steps| - 1]);
      StepKeepsInv(bot, Exec(bot, steps[..|steps| - 1]).value, steps[|steps| - 1]);
    }
  }

  // ----- requests -----

  /**
    Over every interleaving: a request that succeeds, or is rejected, ends with a
    reply that bears its own id and came in a frame; the table holds exactly the
    registered requests that have not finished.
   */
  lemma OwnReplyOnly(bot: Bytes, steps: seq<Step>, c: nat)
    requires Exec(bot, steps).Some? && c in Exec(bot, steps).value.phases
    ensures var s, p := Exec(bot, steps).value, Exec(bot, steps).value.phases[c];
            && (c in s.pending <==> p.Registered? || p.Waiting? || p.Leaving?)
            && (p.Done? && p.outcome.Acked? ==>
                  && p.outcome.ack.cid == c && !p.outcome.ack.err
                  && exists f <- s.frames :: AckOf(f) == Some(p.outcome.ack))
            && (p.Done? && p.outcome.RejectedBy? ==>
                  && p.outcome.ack.cid == c && p.outcome.ack.err
                  && exists f <- s.frames :: AckOf(f) == Some(p.outcome.ack))
  {
    ReachableInv(bot, steps);
    var s := Exec(bot, steps).value;
    assert PhaseOwn(s, c, s.phases[c]);
  }

  /**
    Ids are never reused.  The next request, or the next ping, takes an id that
    no request and no ping has had, and no id has served both.
   */
  lemma FreshIds(bot: Bytes, steps: seq<Step>)
    requires Exec(bot, steps).Some?
    ensures var s := Exec(bot, steps).value;
            var c := s.lastCid + 1;
            && Enabled(s, Alloc) && c in Next(bot, s, Alloc).phases
            && Enabled(s, Ping) && c in Next(bot, s, Ping).pinged
            && c !in s.phases && c !in s.pinged && c !in s.pending
            && (forall d <- s.pinged :: d < c && d !in s.phases) && forall d <- s.phases :: d < c
  {
    ReachableInv(bot, steps);
  }

  /**
    What the reader does with a reply to `a.cid` touches no other request: a late
    or duplicate reply cannot resolve a later one.
   */
  lemma ReplyTouchesOnlyItsOwn(bot: Bytes, s: State, step: Step, c: nat)
    requires Inv(s) && Enabled(s, step) && (step.Dispatch? || step.Lookup? || step.TrySend?)
    requires step.TrySend? ==> s.reader.ack.cid != c
    ensures var s' := Next(bot, s, step);
            s'.phases == s.phases && s'.pending == s.pending
            && (c in s.chans ==> c in s'.chans && s'.chans[c] == s.chans[c])
  {}

  lemma StepKeepsDone(bot: Bytes, s: State, step: Step, c: nat)
    requires Inv(s) && Enabled(s, step) && c in s.phases && s.phases[c].Done?
    ensures var s' := Next(bot, s, step); c in s'.phases && s'.phases[c] == s.phases[c] && c !in s'.pending
  {
    StepKeepsTable(bot, s, step);
  }

  /** A finished request stays as it finished and out of the table, whatever arrives later. */
  lemma {:induction false} DoneIsFinal(bot: Bytes, s: State, later: seq<Step>, c: nat)
    requires Inv(s) && c in s.phases && s.phases[c].Done? && ExecFrom(bot, s, later).Some?
    ensures var s' := ExecFrom(bot, s, later).value;
            Inv(s') && c in s'.phases && s'.phases[c] == s.phases[c] && c !in s'.pending
    decreases |later|
  {
    if later != [] {
      var front, last := later[..|later| - 1], later[|later| - 1];
      DoneIsFinal(bot, s, front, c);
      StepKeepsInv(bot, ExecFrom(bot, s, front).value, last);
      StepKeepsDone(bot, ExecFrom(bot, s, front).value, last, c);
    }
  }

  // ----- the reader never blocks -----

  function Rank(r: Reader): nat {
    match r
    case Idle => 0
    case Sending(_, _) => 1
    case Resolving(_) => 2
    case Checked(_, _) => 3
    case Got(_) => 4
  }

  /** The reader's next step with a frame in hand. */
  function ReaderStep(r: Reader): Step
    requires !r.Idle?
  {
    match r
    case Got(_) => Check
    case Checked(_, _) => Dispatch
    case Resolving(_) => Lookup
    case Sending(_, _) => TrySend
  }

  predicate IsReaderStep(step: Step) {
    step.Read? || step.Check? || step.Dispatch? || step.Lookup? || step.TrySend?
  }

  /** The reader's step is enabled and brings it nearer to reading again, and no step of anyone else moves it. */
  lemma ReaderGoesOn(bot: Bytes, s: State, other: Step)
    requires Inv(s) && !s.reader.Idle?
    ensures Enabled(s, ReaderStep(s.reader))
    ensures Rank(Next(bot, s, ReaderStep(s.reader)).reader) < Rank(s.reader)
    ensures Enabled(s, other) && !IsReaderStep(other) ==> Next(bot, s, other).reader == s.reader
  {}

  /** The reader's steps until it reads again. */
  lemma {:induction false} ReaderFinishes(bot: Bytes, s: State) returns (steps: seq<Step>)
    requires Inv(s)
    ensures |steps| <= Rank(s.reader) && (forall step <- steps :: IsReaderStep(step))
    ensures ExecFrom(bot, s, steps).Some? && ExecFrom(bot, s, steps).value.reader.Idle?
    decreases Rank(s.reader)
  {
    if s.reader.Idle? {
      steps := [];
    } else {
      var step := ReaderStep(s.reader);
      ReaderGoesOn(bot, s, step);
      StepKeepsInv(bot, s, step);
      var rest := ReaderFinishes(bot, Next(bot, s, step));
      steps := [step] + rest;
      ExecStep(bot, s, step, rest);
    }
  }

  lemma {:induction false} ExecStep(bot: Bytes, s: State, step: Step, rest: seq<Step>)
    requires Enabled(s, step)
    ensures ExecFrom(bot, s, [step] + rest) == ExecFrom(bot, Next(bot, s, step), rest)
    decreases |rest|
  {
    if rest == [] {
      assert [step] + rest == [step] && [step][..0] == [];
    } else {
      var front := rest[..|rest| - 1];
      assert ([step] + rest)[..|rest|] == [step] + front;
      ExecStep(bot, s, step, front);
    }
  }

  /**
    The reader never blocks.  Whatever requesters and pings do while it has a
    frame in hand, it is where it was, and from there at most four steps of its
    own, none of which waits for anyone, take it back to reading.
   */
  lemma {:induction false} ReaderNeverBlocks(bot: Bytes, s: State, others: seq<Step>) returns (own: seq<Step>)
    requires Inv(s) && ExecFrom(bot, s, others).Some? && forall step <- others :: !IsReaderStep(step)
    ensures var s' := ExecFrom(bot, s, others).value;
            && Inv(s') && s'.reader == s.reader
            && |own| <= 4 && (forall step <- own :: IsReaderStep(step))
            && ExecFrom(bot, s', own).Some? && ExecFrom(bot, s', own).value.reader.Idle?
    decreases |others|
  {
    if others != [] {
      var front, last := others[..|others| - 1], others[|others| - 1];
      assert last in others && forall step <- front :: step in others;
      var _ := ReaderNeverBlocks(bot, s, front);
      StepKeepsInv(bot, ExecFrom(bot, s, front).value, last);
      if !s.reader.Idle? {
        ReaderGoesOn(bot, ExecFrom(bot, s, front).value, last);
      }
    }
    own := ReaderFinishes(bot, ExecFrom(bot, s, others).value);
  }

  // ----- waiting for replies costs no message -----

  function HandedAll(bot: Bytes, frames: seq<Bytes>): seq<Message> {
    if frames == [] then [] else HandedAll(bot, frames[..|frames| - 1]) + Handed(bot, frames[|frames| - 1])
  }

  lemma HandedSnoc(bot: Bytes, frames: seq<Bytes>, f: Bytes)
    ensures HandedAll(bot, frames + [f]) == HandedAll(bot, frames) + Handed(bot, f)
  {
    assert (frames + [f])[..|frames|] == frames;
  }

  /** A reply that plays one role hands nothing on. */
  lemma ReplyHandsNothing(bot: Bytes, frame: Bytes)
    requires SingleRole(frame) && AckOf(frame).Some?
    ensures Handed(bot, frame) == []
  {
    NeverBoth(frame);
  }

  /** A frame adds what it hands on, whether or not somebody waits for a reply. */
  lemma DispatchHands(bot: Bytes, s: State)
    requires s.reader.Checked? && SingleRole(s.reader.frame)
    ensures var s' := Next(bot, s, Dispatch);
            s'.frames == s.frames + [s.reader.frame] && s'.handed == s.handed + Handed(bot, s.reader.frame)
  {
    if s.reader.waiting && AckOf(s.reader.frame).Some? {
      ReplyHandsNothing(bot, s.reader.frame);
      assert s.handed + [] == s.handed;
    }
  }

  lemma OthersHandNothing(bot: Bytes, s: State, step: Step)
    requires Enabled(s, step) && !step.Dispatch?
    ensures Next(bot, s, step).frames == s.frames && Next(bot, s, step).handed == s.handed
  {}

  lemma {:induction false} ExecHands(bot: Bytes, steps: seq<Step>)
    requires Exec(bot, steps).Some? && forall f <- Exec(bot, steps).value.frames :: SingleRole(f)
    ensures Exec(bot, steps).value.handed == HandedAll(bot, Exec(bot, steps).value.frames)
    decreases |steps|
  {
    if steps != [] {
      var last := steps[|steps| - 1];
      var s, s' := Exec(bot, steps[..|steps| - 1]).value, Exec(bot, steps).value;
      FramesGrow(bot, s, last);
      assert forall f <- s.frames :: f in s'.frames;
      ExecHands(bot, steps[..|steps| - 1]);
      if last.Dispatch? {
        assert s.reader.frame in s'.frames;
        DispatchHands(bot, s);
        HandedSnoc(bot, s.frames, s.reader.frame);
      } else {
        OthersHandNothing(bot, s, last);
      }
    }
  }

  /**
    For frames that are each one case of the Envelope, onMessage sees the same
    messages in the same order, however requests come and go in the meantime.
   */
  lemma TimingCostsNothing(bot: Bytes, a: seq<Step>, b: seq<Step>)
    requires Exec(bot, a).Some? && Exec(bot, b).Some?
    requires Exec(bot, a).value.frames == Exec(bot, b).value.frames
    requires forall f <- Exec(bot, a).value.frames :: SingleRole(f)
    ensures Exec(bot, a).value.handed == Exec(bot, b).value.handed
         == HandedAll(bot, Exec(bot, a).value.frames)
  {
    ExecHands(bot, a);
    ExecHands(bot, b);
  }

  /** A frame with both roles is the exception: it is handed on only when nobody waits. */
  lemma TwoRolesExact(bot: Bytes, s: State)
    requires s.reader.Checked?
    ensures var quiet := Next(bot, s.(reader := Checked(s.reader.frame, false)), Dispatch);
            var busy := Next(bot, s.(reader := Checked(s.reader.frame, true)), Dispatch);
            quiet.handed == busy.handed <==> !(AckOf(s.reader.frame).Some? && Handed(bot, s.reader.frame) != [])
  {
    assert s.handed + [] == s.handed;
  }
}
