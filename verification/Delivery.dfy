/**
  How messages reach the callback of one bot: polls that run side by side, each
  with its own page, and socket frames, over one set of ids and the cursors.
 */
module Delivery {
  import opened Sequences
  import opened Wrappers
  import opened Dedup

  // Each store command is one atomic step, and so is each callback.  A command that
  // fails leaves the store as it was; but the question whether an id was seen is two
  // commands, and the second can fail after the first has recorded the id.
  //
  // A channel's messages are numbered, and a cursor stands for the number of the
  // first message after it.  The `start` of a cursor is bookkeeping of the model:
  // where the page began that the chain of polls leading to it started with.

  /** A posted message; `own` when the bot posted it itself. */
  datatype Post = Post(id: MessageId, own: bool)

  /** What is in the channels: channel and number to message. */
  type History = (nat, nat) -> Post

  datatype Cursor = Cursor(start: nat, pos: nat)

  /**
    A poll of one channel, or a socket frame, under way.  `token` says which new
    record a callback is owed for; an empty id is never recorded, nor is the id of
    a socket frame whose lookup failed.
   */
  datatype Job =
    | Reading(ch: nat, from: Option<Cursor>)
    | Handling(ch: nat, start: nat, next: nat, hi: nat, moved: bool)
    | Calling(ch: nat, start: nat, next: nat, hi: nat, moved: bool, token: Option<nat>)
    | Hot(id: MessageId, token: Option<nat>)

  /** One callback. */
  datatype Call = Call(id: MessageId, token: Option<nat>)

  datatype State = State(
    mem: Memory,
    cursors: map<nat, Cursor>,
    jobs: map<nat, Job>,
    calls: seq<Call>,
    emitted: set<(nat, nat)>,          // channel and number of every polled message handed to the callback
    blind: set<MessageId>,             // ids of socket frames whose lookup in the store failed
    lost: set<nat>)                    // records whose poll ended in an error before it called back

  const START := State(EMPTY_MEMORY, map[], map[], [], {}, {}, {})

  datatype Step =
    | Begin(job: nat, ch: nat)           // read the cursor
    | List(job: nat, lo: nat, hi: nat)   // get the page [lo, hi)
    | Ask(job: nat)                      // skip an own message, or ask whether the next one was seen
    | Emit(job: nat)                     // call back
    | SetCursor(job: nat)
    | Leave(job: nat)                    // nothing new, or an error
    | Abandon(job: nat)                  // an error right after the id was recorded
    | Hear(job: nat, id: MessageId)      // a socket frame
    | HearBlind(job: nat, id: MessageId) // a socket frame whose lookup fails: it is delivered unrecorded
    | Trim

  predicate Enabled(s: State, step: Step) {
    match step
    case Begin(j, _) => j !in s.jobs
    case List(j, lo, hi) =>
      && j in s.jobs && s.jobs[j].Reading? && lo <= hi
      && (s.jobs[j].from.Some? ==> lo == s.jobs[j].from.value.pos)
    case Ask(j) => j in s.jobs && s.jobs[j].Handling? && s.jobs[j].next < s.jobs[j].hi
    case Emit(j) => j in s.jobs && (s.jobs[j].Calling? || s.jobs[j].Hot?)
    case SetCursor(j) => j in s.jobs && s.jobs[j].Handling? && s.jobs[j].next == s.jobs[j].hi && s.jobs[j].moved
    case Leave(j) => j in s.jobs && (s.jobs[j].Reading? || s.jobs[j].Handling?)
    case Abandon(j) => j in s.jobs && s.jobs[j].Calling? && s.jobs[j].token.Some?
    case Hear(j, _) => j !in s.jobs
    case HearBlind(j, id) => j !in s.jobs && id != NoId
    case Trim => true
  }

  /** What asking about `id` does: is it new, what is then remembered, and the token for the callback. */
  function Novel(mem: Memory, id: MessageId): bool {
    id == NoId || id !in mem.window
  }

  function Remember(mem: Memory, id: MessageId): Memory {
    if id == NoId then mem else mem.Add(id)
  }

  function TokenFor(mem: Memory, id: MessageId): Option<nat> {
    if id == NoId then None else Some(|mem.recorded|)
  }

  function Next(h: History, cap: nat, s: State, step: Step): State
    requires Enabled(s, step)
  {
    match step
    case Begin(j, ch) =>
      s.(jobs := s.jobs[j := Reading(ch, if ch in s.cursors then Some(s.cursors[ch]) else None)])
    case List(j, lo, hi) =>
      var r := s.jobs[j];
      s.(jobs := s.jobs[j := Handling(r.ch, if r.from.Some? then r.from.value.start else lo, lo, hi, lo < hi)])
    case Ask(j) =>
      var r := s.jobs[j];
      var p := h(r.ch, r.next);
      if p.own || !Novel(s.mem, p.id) then s.(jobs := s.jobs[j := Handling(r.ch, r.start, r.next + 1, r.hi, r.moved)])
      else s.(mem := Remember(s.mem, p.id),
              jobs := s.jobs[j := Calling(r.ch, r.start, r.next, r.hi, r.moved, TokenFor(s.mem, p.id))])
    case Emit(j) =>
      var r := s.jobs[j];
      if r.Hot? then s.(jobs := s.jobs - {j}, calls := s.calls + [Call(r.id, r.token)])
      else s.(jobs := s.jobs[j := Handling(r.ch, r.start, r.next + 1, r.hi, r.moved)],
              calls := s.calls + [Call(h(r.ch, r.next).id, r.token)], emitted := s.emitted + {(r.ch, r.next)})
    case SetCursor(j) =>
      var r := s.jobs[j];
      s.(jobs := s.jobs - {j}, cursors := s.cursors[r.ch := Cursor(r.start, r.hi)])
    case Leave(j) => s.(jobs := s.jobs - {j})
    case Abandon(j) => s.(jobs := s.jobs - {j}, lost := s.lost + {s.jobs[j].token.value})
    case Hear(j, id) =>
      if !Novel(s.mem, id) then s
      else s.(mem := Remember(s.mem, id), jobs := s.jobs[j := Hot(id, TokenFor(s.mem, id))])
    case HearBlind(j, id) => s.(jobs := s.jobs[j := Hot(id, None)], blind := s.blind + {id})
    case Trim => s.(mem := s.mem.Trim(cap))
  }

  /** The state after `steps` from `s`, if every one of them could be taken. */
  function Exec(h: History, cap: nat, s: State, steps: seq<Step>): Option<State> {
    if steps == [] then Some(s)
    else match Exec(h, cap, s, steps[..|steps| - 1])
         case None => None
         case Some(s') =>
           if Enabled(s', steps[|steps| - 1]) then Some(Next(h, cap, s', steps[|steps| - 1])) else None
  }

  lemma ExecNext(h: History, cap: nat, s: State, steps: seq<Step>, s': State, step: Step)
    requires Exec(h, cap, s, steps) == Some(s') && Enabled(s', step)
    ensures Exec(h, cap, s, steps + [step]) == Some(Next(h, cap, s', step))
  {
    assert (steps + [step])[..|steps|] == steps;
  }

  lemma {:induction false} ExecConcat(h: History, cap: nat, s: State, a: seq<Step>, b: seq<Step>)
    requires Exec(h, cap, s, a).Some?
    ensures Exec(h, cap, s, a + b) == Exec(h, cap, Exec(h, cap, s, a).value, b)
    decreases |b|
  {
    if b == [] {
      assert a + b == a;
    } else {
      var front := b[..|b| - 1];
      assert (a + b)[..|a + b| - 1] == a + front && (a + b)[|a + b| - 1] == b[|b| - 1];
      ExecConcat(h, cap, s, a, front);
    }
  }

  // ----- tokens: every new record is owed one callback -----

  function Token(j: Job): Option<nat> {
    match j
    case Calling(_, _, _, _, _, token) => token
    case Hot(_, token) => token
    case _ => None
  }

  function CallId(h: History, j: Job): MessageId {
    match j
    case Calling(ch, _, next, _, _, _) => h(ch, next).id
    case Hot(id, _) => id
    case _ => NoId
  }

  /** `token` is the record of `id`, or there is none: the id is empty, or some lookup of it failed. */
  ghost predicate TokenOf(s: State, token: Option<nat>, id: MessageId) {
    match token
    case None => id == NoId || id in s.blind
    case Some(t) => t < |s.mem.recorded| && s.mem.recorded[t] == id
  }

  ghost predicate TokensValid(h: History, s: State) {
    && (forall j <- s.jobs :: TokenOf(s, Token(s.jobs[j]), CallId(h, s.jobs[j])))
    && (forall c <- s.calls :: TokenOf(s, c.token, c.id))
  }

  ghost predicate JobsApart(s: State) {
    forall j <- s.jobs, k <- s.jobs :: j != k && Token(s.jobs[j]).Some? ==> Token(s.jobs[j]) != Token(s.jobs[k])
  }

  ghost predicate JobsUncalled(s: State) {
    forall j <- s.jobs, c <- s.calls :: Token(s.jobs[j]).Some? ==> Token(s.jobs[j]) != c.token
  }

  ghost predicate CallsApart(s: State) {
    forall p, q :: 0 <= p < q < |s.calls| && s.calls[p].token.Some? ==> s.calls[p].token != s.calls[q].token
  }

  ghost predicate TokensApart(s: State) {
    JobsApart(s) && JobsUncalled(s) && CallsApart(s)
  }

  /** Record t has had its callback, or a job is about to make it. */
  ghost predicate Accounted(s: State, t: nat) {
    (exists c <- s.calls :: c.token == Some(t)) || (exists j <- s.jobs :: Token(s.jobs[j]) == Some(t))
  }

  ghost predicate AllAccounted(s: State) {
    && (forall t <- s.lost :: t < |s.mem.recorded|)
    && forall t: nat :: t < |s.mem.recorded| ==> (Accounted(s, t) <==> t !in s.lost)
  }

  // ----- coverage: nothing behind a cursor was skipped -----

  /** The message was the bot's own, or was handed to the callback, or was recorded by whoever saw it first. */
  ghost predicate Handled(h: History, s: State, ch: nat, n: nat) {
    || h(ch, n).own
    || (ch, n) in s.emitted
    || (h(ch, n).id != NoId && h(ch, n).id in s.mem.recorded)
  }

  ghost predicate Covered(h: History, s: State, ch: nat, lo: nat, hi: nat) {
    forall n: nat :: lo <= n < hi ==> Handled(h, s, ch, n)
  }

  /** A poll has handled everything from its chain's start to where it is. */
  ghost predicate JobCovers(h: History, s: State, j: Job) {
    match j
    case Reading(ch, from) =>
      from.Some? ==> from.value.start <= from.value.pos && Covered(h, s, ch, from.value.start, from.value.pos)
    case Handling(ch, start, next, hi, _) => start <= next <= hi && Covered(h, s, ch, start, next)
    case Calling(ch, start, next, hi, _, _) => start <= next < hi && Covered(h, s, ch, start, next)
    case Hot(_, _) => true
  }

  ghost predicate Coverage(h: History, s: State) {
    && (forall ch <- s.cursors :: CursorCovers(h, s, ch, s.cursors[ch]))
    && (forall j <- s.jobs :: JobCovers(h, s, s.jobs[j]))
  }

  ghost predicate Inv(h: History, cap: nat, s: State) {
    Sound(s.mem, cap) && TokensValid(h, s) && TokensApart(s) && AllAccounted(s) && Coverage(h, s)
  }

  // ----- steps keep the invariant -----

  /** Nothing that was handled becomes unhandled. */
  ghost predicate Grows(s: State, s': State) {
    s.emitted <= s'.emitted && s.mem.recorded <= s'.mem.recorded && s.blind <= s'.blind
  }

  lemma NextGrows(h: History, cap: nat, s: State, step: Step)
    requires Enabled(s, step)
    ensures Grows(s, Next(h, cap, s, step))
  {}

  lemma CoveredGrows(h: History, s: State, s': State, ch: nat, lo: nat, hi: nat)
    requires Grows(s, s') && Covered(h, s, ch, lo, hi)
    ensures Covered(h, s', ch, lo, hi)
  {
    forall n: nat | lo <= n < hi ensures Handled(h, s', ch, n) {
      assert Handled(h, s, ch, n);
    }
  }

  lemma JobCoversGrows(h: History, s: State, s': State, j: Job)
    requires Grows(s, s') && JobCovers(h, s, j)
    ensures JobCovers(h, s', j)
  {
    match j
    case Reading(ch, from) =>
      if from.Some? {
        CoveredGrows(h, s, s', ch, from.value.start, from.value.pos);
      }
    case Handling(ch, start, next, _, _) => CoveredGrows(h, s, s', ch, start, next);
    case Calling(ch, start, next, _, _, _) => CoveredGrows(h, s, s', ch, start, next);
    case Hot(_, _) =>
  }

  lemma CoveredMore(h: History, s: State, ch: nat, lo: nat, hi: nat)
    requires Covered(h, s, ch, lo, hi) && Handled(h, s, ch, hi)
    ensures Covered(h, s, ch, lo, hi + 1)
  {
    forall n: nat | lo <= n < hi + 1 ensures Handled(h, s, ch, n) {
      assert n < hi ==> Handled(h, s, ch, n);
    }
  }

  lemma SuffixMembers(m: Memory, cap: nat)
    requires Sound(m, cap)
    ensures forall x <- m.window :: x in m.recorded
  {}

  /** A message that is passed over is the bot's own or was recorded; one that is called back is handed over. */
  lemma PassedIsHandled(h: History, cap: nat, s: State, step: Step)
    requires Inv(h, cap, s) && Enabled(s, step) && (step.Ask? || (step.Emit? && s.jobs[step.job].Calling?))
    ensures var r, s' := s.jobs[step.job], Next(h, cap, s, step);
            step.job in s'.jobs && (s'.jobs[step.job].Handling? ==> Handled(h, s', r.ch, r.next))
  {
    SuffixMembers(s.mem, cap);
  }

  lemma PollAdvances(h: History, cap: nat, s: State, step: Step)
    requires Inv(h, cap, s) && Enabled(s, step) && (step.Ask? || (step.Emit? && s.jobs[step.job].Calling?))
    ensures var s' := Next(h, cap, s, step); step.job in s'.jobs && JobCovers(h, s', s'.jobs[step.job])
  {
    var r, s' := s.jobs[step.job], Next(h, cap, s, step);
    PassedIsHandled(h, cap, s, step);
    NextGrows(h, cap, s, step);
    assert JobCovers(h, s, r);
    CoveredGrows(h, s, s', r.ch, r.start, r.next);
    if s'.jobs[step.job].Handling? {
      CoveredMore(h, s', r.ch, r.start, r.next);
    }
  }

  lemma PollStarts(h: History, cap: nat, s: State, step: Step)
    requires Inv(h, cap, s) && Enabled(s, step) && (step.Begin? || step.List?)
    ensures var s' := Next(h, cap, s, step); step.job in s'.jobs && JobCovers(h, s', s'.jobs[step.job])
  {
    var s' := Next(h, cap, s, step);
    NextGrows(h, cap, s, step);
    if step.Begin? {
      if step.ch in s.cursors {
        CursorCoversGrows(h, s, s', step.ch, s.cursors[step.ch]);
      }
    } else {
      JobCoversGrows(h, s, s', s.jobs[step.job]);
    }
  }

  /** The job that takes a step covers what it should afterwards. */
  lemma MovedJobCovers(h: History, cap: nat, s: State, step: Step, j: nat)
    requires Inv(h, cap, s) && Enabled(s, step) && !step.Trim? && step.job == j && j in Next(h, cap, s, step).jobs
    ensures JobCovers(h, Next(h, cap, s, step), Next(h, cap, s, step).jobs[j])
  {
    match step
    case Begin(_, _) => PollStarts(h, cap, s, step);
    case List(_, _, _) => PollStarts(h, cap, s, step);
    case Ask(_) => PollAdvances(h, cap, s, step);
    case Emit(_) => PollAdvances(h, cap, s, step);
    case Hear(_, _) =>
    case HearBlind(_, _) =>
    case SetCursor(_) =>
    case Leave(_) =>
    case Abandon(_) =>
  }

  /** A step moves only its own job. */
  lemma OtherJobStays(h: History, cap: nat, s: State, step: Step, j: nat)
    requires Enabled(s, step) && (step.Trim? || step.job != j) && j in Next(h, cap, s, step).jobs
    ensures j in s.jobs && Next(h, cap, s, step).jobs[j] == s.jobs[j]
  {}

  lemma OtherJobCovers(h: History, cap: nat, s: State, step: Step, j: nat)
    requires Coverage(h, s) && Enabled(s, step) && (step.Trim? || step.job != j) && j in Next(h, cap, s, step).jobs
    ensures JobCovers(h, Next(h, cap, s, step), Next(h, cap, s, step).jobs[j])
  {
    OtherJobStays(h, cap, s, step, j);
    var s', job := Next(h, cap, s, step), s.jobs[j];
    assert Grows(s, s') by {
      NextGrows(h, cap, s, step);
    }
    JobCoversGrows(h, s, s', job);
  }

  ghost predicate CursorCovers(h: History, s: State, ch: nat, c: Cursor) {
    c.start <= c.pos && Covered(h, s, ch, c.start, c.pos)
  }

  lemma CursorCoversGrows(h: History, s: State, s': State, ch: nat, c: Cursor)
    requires Grows(s, s') && CursorCovers(h, s, ch, c)
    ensures CursorCovers(h, s', ch, c)
  {
    CoveredGrows(h, s, s', ch, c.start, c.pos);
  }

  /** A poll that has taken its whole page may set the cursor. */
  lemma TakenPageCovers(h: History, s: State, j: Job)
    requires j.Handling? && JobCovers(h, s, j) && j.next == j.hi
    ensures CursorCovers(h, s, j.ch, Cursor(j.start, j.hi))
  {}

  lemma CursorStillCovers(h: History, cap: nat, s: State, step: Step, ch: nat)
    requires Coverage(h, s) && Enabled(s, step) && ch in Next(h, cap, s, step).cursors
    ensures CursorCovers(h, Next(h, cap, s, step), ch, Next(h, cap, s, step).cursors[ch])
  {
    var s' := Next(h, cap, s, step);
    NextGrows(h, cap, s, step);
    if step.SetCursor? && s.jobs[step.job].ch == ch {
      TakenPageCovers(h, s, s.jobs[step.job]);
    }
    CursorCoversGrows(h, s, s', ch, s'.cursors[ch]);
  }

  lemma StepKeepsCoverage(h: History, cap: nat, s: State, step: Step)
    requires Inv(h, cap, s) && Enabled(s, step)
    ensures Coverage(h, Next(h, cap, s, step))
  {
    var s' := Next(h, cap, s, step);
    forall j <- s'.jobs ensures JobCovers(h, s', s'.jobs[j]) {
      if !step.Trim? && step.job == j {
        MovedJobCovers(h, cap, s, step, j);
      } else {
        OtherJobCovers(h, cap, s, step, j);
      }
    }
    forall ch <- s'.cursors ensures CursorCovers(h, s', ch, s'.cursors[ch]) {
      CursorStillCovers(h, cap, s, step, ch);
    }
  }

  // ----- tokens -----

  lemma TokenStays(s: State, s': State, token: Option<nat>, id: MessageId)
    requires TokenOf(s, token, id) && s.mem.recorded <= s'.mem.recorded && s.blind <= s'.blind
    ensures TokenOf(s', token, id)
  {}

  lemma StepKeepsValid(h: History, cap: nat, s: State, step: Step)
    requires TokensValid(h, s) && Enabled(s, step)
    ensures TokensValid(h, Next(h, cap, s, step))
  {
    var s' := Next(h, cap, s, step);
    NextGrows(h, cap, s, step);
    forall j <- s'.jobs ensures TokenOf(s', Token(s'.jobs[j]), CallId(h, s'.jobs[j])) {
      if j in s.jobs {
        TokenStays(s, s', Token(s.jobs[j]), CallId(h, s.jobs[j]));
      }
    }
    forall c <- s'.calls ensures TokenOf(s', c.token, c.id) {
      if c in s.calls {
        TokenStays(s, s', c.token, c.id);
      } else {
        assert c.token == Token(s.jobs[step.job]) && c.id == CallId(h, s.jobs[step.job]);
      }
    }
  }

  /** A token held by a job or used in a call is the number of a record. */
  lemma TokensBounded(h: History, s: State)
    requires TokensValid(h, s)
    ensures forall j <- s.jobs :: Token(s.jobs[j]).Some? ==> Token(s.jobs[j]).value < |s.mem.recorded|
    ensures forall c <- s.calls :: c.token.Some? ==> c.token.value < |s.mem.recorded|
  {
    forall j <- s.jobs ensures Token(s.jobs[j]).Some? ==> Token(s.jobs[j]).value < |s.mem.recorded| {
      assert TokenOf(s, Token(s.jobs[j]), CallId(h, s.jobs[j]));
    }
  }

  /** What a step does to tokens: nothing, a new one for its job, or its job's one is used up. */
  lemma TokenEffect(h: History, cap: nat, s: State, step: Step)
    requires TokensValid(h, s) && Enabled(s, step)
    ensures var s' := Next(h, cap, s, step);
            && (forall k <- s'.jobs :: (step.Trim? || k != step.job) ==> k in s.jobs && s'.jobs[k] == s.jobs[k])
            && (!step.Emit? ==> s'.calls == s.calls)
            && (!step.Trim? && step.job in s'.jobs && Token(s'.jobs[step.job]).Some? ==>
                  Token(s'.jobs[step.job]).value == |s.mem.recorded| || s' == s)
            && (step.Emit? ==>
                  s'.mem == s.mem && exists id :: s'.calls == s.calls + [Call(id, Token(s.jobs[step.job]))])
  {
    if step.Emit? {
      var s' := Next(h, cap, s, step);
      assert s'.calls == s.calls + [Call(s'.calls[|s.calls|].id, Token(s.jobs[step.job]))];
    }
  }

  lemma StepKeepsJobsApart(h: History, cap: nat, s: State, step: Step)
    requires TokensValid(h, s) && JobsApart(s) && Enabled(s, step)
    ensures JobsApart(Next(h, cap, s, step))
  {
    TokensBounded(h, s);
    TokenEffect(h, cap, s, step);
  }

  lemma StepKeepsUncalled(h: History, cap: nat, s: State, step: Step)
    requires TokensValid(h, s) && JobsApart(s) && JobsUncalled(s) && Enabled(s, step)
    ensures JobsUncalled(Next(h, cap, s, step))
  {
    var s' := Next(h, cap, s, step);
    TokensBounded(h, s);
    TokenEffect(h, cap, s, step);
    assert step.Emit? ==> forall c <- s'.calls :: c in s.calls || c.token == Token(s.jobs[step.job]);
  }

  lemma StepKeepsCallsApart(h: History, cap: nat, s: State, step: Step)
    requires TokensValid(h, s) && JobsUncalled(s) && CallsApart(s) && Enabled(s, step)
    ensures CallsApart(Next(h, cap, s, step))
  {
    var s' := Next(h, cap, s, step);
    TokenEffect(h, cap, s, step);
    if step.Emit? {
      forall p, q | 0 <= p < q < |s'.calls| && s'.calls[p].token.Some? ensures s'.calls[p].token != s'.calls[q].token {
        assert s'.calls[p] in s.calls;
      }
    }
  }

  lemma StepKeepsAccounts(h: History, cap: nat, s: State, step: Step)
    requires TokensValid(h, s) && TokensApart(s) && AllAccounted(s) && Enabled(s, step)
    ensures AllAccounted(Next(h, cap, s, step))
  {
    var s' := Next(h, cap, s, step);
    NextGrows(h, cap, s, step);
    if step.Abandon? {
      assert TokenOf(s, Token(s.jobs[step.job]), CallId(h, s.jobs[step.job]));
    }
    forall t: nat | t < |s'.mem.recorded| ensures Accounted(s', t) <==> t !in s'.lost {
      if t < |s.mem.recorded| {
        if Accounted(s, t) {
          StillAccounted(h, cap, s, step, t);
        } else {
          StillLost(h, cap, s, step, t);
        }
      } else {
        assert Token(s'.jobs[step.job]) == Some(t);
      }
    }
  }

  /** A record keeps its callback, or the job that owes it, unless that job abandons it. */
  lemma StillAccounted(h: History, cap: nat, s: State, step: Step, t: nat)
    requires TokensValid(h, s) && TokensApart(s) && Enabled(s, step) && Accounted(s, t)
    ensures Accounted(Next(h, cap, s, step), t)
       <==> !(step.Abandon? && Token(s.jobs[step.job]) == Some(t))
  {
    var s' := Next(h, cap, s, step);
    TokenEffect(h, cap, s, step);
    if c :| c in s.calls && c.token == Some(t) {
      assert c in s'.calls;
    } else {
      var j :| j in s.jobs && Token(s.jobs[j]) == Some(t);
      if step.Emit? && step.job == j {
        assert s'.calls[|s.calls|].token == Some(t) && s'.calls[|s.calls|] in s'.calls;
      } else if !(step.Abandon? && step.job == j) {
        assert j in s'.jobs && s'.jobs[j] == s.jobs[j];
      }
    }
  }

  /** A record that no callback is owed for stays one: a step hands out new tokens only. */
  lemma StillLost(h: History, cap: nat, s: State, step: Step, t: nat)
    requires TokensValid(h, s) && Enabled(s, step) && t < |s.mem.recorded| && !Accounted(s, t)
    ensures !Accounted(Next(h, cap, s, step), t)
  {
    TokenEffect(h, cap, s, step);
  }

  lemma StepKeepsInv(h: History, cap: nat, s: State, step: Step)
    requires Inv(h, cap, s) && Enabled(s, step)
    ensures Inv(h, cap, Next(h, cap, s, step))
  {
    StepKeepsSound(h, cap, s, step);
    StepKeepsValid(h, cap, s, step);
    StepKeepsJobsApart(h, cap, s, step);
    StepKeepsUncalled(h, cap, s, step);
    StepKeepsCallsApart(h, cap, s, step);
    StepKeepsAccounts(h, cap, s, step);
    StepKeepsCoverage(h, cap, s, step);
  }

  lemma StepKeepsSound(h: History, cap: nat, s: State, step: Step)
    requires Sound(s.mem, cap) && Enabled(s, step)
    ensures Sound(Next(h, cap, s, step).mem, cap)
  {
    match step
    case Ask(j) => AddKeeps(s.mem, cap, h(s.jobs[j].ch, s.jobs[j].next).id);
    case Hear(_, id) => AddKeeps(s.mem, cap, id);
    case Trim => TrimKeeps(s.mem, cap);
    case _ =>
  }

  lemma {:induction false} ReachableInv(h: History, cap: nat, steps: seq<Step>)
    requires Exec(h, cap, START, steps).Some?
    ensures Inv(h, cap, Exec(h, cap, START, steps).value)
    decreases |steps|
  {
    if steps != [] {
      var front := steps[..|steps| - 1];
      ReachableInv(h, cap, front);
      StepKeepsInv(h, cap, Exec(h, cap, START, front).value, steps[|steps| - 1]);
    }
  }

  // ----- at most once -----

  /** No socket frame with this id had a lookup that failed. */
  ghost predicate LookupsWork(steps: seq<Step>, id: MessageId) {
    forall step <- steps :: !(step.HearBlind? && step.id == id)
  }

  lemma {:induction false} NeverBlind(h: History, cap: nat, steps: seq<Step>, id: MessageId)
    requires Exec(h, cap, START, steps).Some? && LookupsWork(steps, id)
    ensures id !in Exec(h, cap, START, steps).value.blind
    decreases |steps|
  {
    if steps != [] {
      var front, last := steps[..|steps| - 1], steps[|steps| - 1];
      assert last in steps && forall step <- front :: step in steps;
      NeverBlind(h, cap, front, id);
    }
  }

  /**
    In every interleaving of frames and polls, two callbacks for one non-empty id
    come from two records of it, and just before the later record at least `cap`
    ids were newly recorded, all different and different from it, after the
    earlier one; unless one of the two is a callback without a record, and that is
    only ever one for a socket frame that could not be looked up.
   */
  lemma AtMostOnce(h: History, cap: nat, steps: seq<Step>, p: nat, q: nat)
    requires Exec(h, cap, START, steps).Some?
    requires var calls := Exec(h, cap, START, steps).value.calls;
             p < q < |calls| && calls[p].id == calls[q].id != NoId
    ensures var s := Exec(h, cap, START, steps).value;
            var a, b := s.calls[p].token, s.calls[q].token;
            && (a.None? || b.None? ==> !LookupsWork(steps, s.calls[p].id))
            && (a.Some? && b.Some? ==> exists i: nat, j: nat ::
                  && i < j < |s.mem.recorded| && s.mem.recorded[i] == s.mem.recorded[j] == s.calls[p].id
                  && {Some(i), Some(j)} == {a, b} && ManyOthers(s.mem.recorded, i, j, cap, s.calls[p].id))
  {
    ReachableInv(h, cap, steps);
    var s := Exec(h, cap, START, steps).value;
    if LookupsWork(steps, s.calls[p].id) {
      NeverBlind(h, cap, steps, s.calls[p].id);
    }
    assert TokenOf(s, s.calls[p].token, s.calls[p].id) && TokenOf(s, s.calls[q].token, s.calls[q].id);
    if s.calls[p].token.Some? && s.calls[q].token.Some? {
      var a, b := s.calls[p].token.value, s.calls[q].token.value;
      var i, j := if a < b then a else b, if a < b then b else a;
      assert i < j && s.mem.recorded[i] == s.mem.recorded[j] == s.calls[p].id;
      assert {Some(i), Some(j)} == {s.calls[p].token, s.calls[q].token};
    }
  }

  // ----- no message behind the cursor is skipped -----

  /** A message was handed to the callback, or whoever recorded its id did so or is at it: in a poll, or in a frame. */
  ghost predicate Reaches(h: History, s: State, ch: nat, n: nat) {
    || (ch, n) in s.emitted
    || exists t: nat :: t < |s.mem.recorded| && s.mem.recorded[t] == h(ch, n).id && Accounted(s, t)
  }

  /** Some poll recorded the id and then ended in an error before the callback. */
  ghost predicate Lost(s: State, id: MessageId) {
    exists t <- s.lost :: t < |s.mem.recorded| && s.mem.recorded[t] == id
  }

  /** Some record of the id was not given up. */
  ghost predicate Kept(s: State, id: MessageId) {
    exists t: nat :: t < |s.mem.recorded| && s.mem.recorded[t] == id && t !in s.lost
  }

  /** No store call failed after it had recorded its id. */
  ghost predicate RecordsHold(steps: seq<Step>) {
    forall step <- steps :: !step.Abandon?
  }

  lemma {:induction false} NoneLost(h: History, cap: nat, steps: seq<Step>)
    requires Exec(h, cap, START, steps).Some? && RecordsHold(steps)
    ensures Exec(h, cap, START, steps).value.lost == {}
    decreases |steps|
  {
    if steps != [] {
      var front, last := steps[..|steps| - 1], steps[|steps| - 1];
      assert last in steps && forall step <- front :: step in steps;
      NoneLost(h, cap, front);
    }
  }

  /**
    Whatever polls overlap, fail or are tried again, and even when a stale one
    moves a cursor back: every message between the first page of the cursor's
    chain and the cursor is the bot's own or reaches the callback, unless a store
    call failed after it had recorded its id.  It then reaches the callback if and
    only if a poll handed it over or the id has a record that was not given up.
   */
  lemma NothingSkipped(h: History, cap: nat, steps: seq<Step>, ch: nat, n: nat)
    requires Exec(h, cap, START, steps).Some?
    requires var s := Exec(h, cap, START, steps).value;
             ch in s.cursors && s.cursors[ch].start <= n < s.cursors[ch].pos && !h(ch, n).own
    ensures var s := Exec(h, cap, START, steps).value;
            && (Reaches(h, s, ch, n) || Lost(s, h(ch, n).id))
            && (Reaches(h, s, ch, n) <==> (ch, n) in s.emitted || Kept(s, h(ch, n).id))
            && (RecordsHold(steps) ==> Reaches(h, s, ch, n))
  {
    ReachableInv(h, cap, steps);
    var s := Exec(h, cap, START, steps).value;
    if RecordsHold(steps) {
      NoneLost(h, cap, steps);
    }
    assert CursorCovers(h, s, ch, s.cursors[ch]);
    assert Handled(h, s, ch, n);
    if (ch, n) !in s.emitted {
      var t :| 0 <= t < |s.mem.recorded| && s.mem.recorded[t] == h(ch, n).id;
      assert Accounted(s, t) <==> t !in s.lost;
    }
  }
}
