/**
  When a cursor can be trusted.  A poll that finds no cursor starts a chain: its
  page may begin anywhere, and everything before that page is out of sight.
 */
module CursorChains {
  import opened Sequences
  import opened Wrappers
  import opened Dedup
  import opened Delivery

  // Here is exactly when the chain of a channel cannot change, which chains a run can
  // lead to, exactly when nothing behind the cursor can be skipped, and runs where
  // something is.

  // ----- driving one poll to its end -----

  lemma ExecCons(h: History, cap: nat, s: State, step: Step, rest: seq<Step>)
    requires Enabled(s, step)
    ensures Exec(h, cap, s, [step] + rest) == Exec(h, cap, Next(h, cap, s, step), rest)
  {
    assert [step][..0] == [];
    assert Exec(h, cap, s, [step]) == Some(Next(h, cap, s, step));
    ExecConcat(h, cap, s, [step], rest);
  }

  lemma {:induction false} ExecKeepsInv(h: History, cap: nat, s: State, steps: seq<Step>)
    requires Inv(h, cap, s) && Exec(h, cap, s, steps).Some?
    ensures Inv(h, cap, Exec(h, cap, s, steps).value)
    decreases |steps|
  {
    if steps != [] {
      var front := steps[..|steps| - 1];
      ExecKeepsInv(h, cap, s, front);
      StepKeepsInv(h, cap, Exec(h, cap, s, front).value, steps[|steps| - 1]);
    }
  }

  /** A poll with a page that can move the cursor of its channel. */
  predicate HasPage(j: Job) {
    (j.Handling? && j.moved && j.next <= j.hi) || (j.Calling? && j.moved && j.next < j.hi)
  }

  /** What such a poll does next: it asks, calls back, or sets the cursor. */
  function OwnStep(j: Job, job: nat): Step
    requires HasPage(j)
  {
    if j.Calling? then Emit(job) else if j.next < j.hi then Ask(job) else SetCursor(job)
  }

  predicate OwnSteps(steps: seq<Step>) {
    forall step <- steps :: step.Ask? || step.Emit? || step.SetCursor?
  }

  /** No two messages of the channel share an id. */
  ghost predicate UniqueIds(h: History, ch: nat) {
    forall m: nat, n: nat :: m != n && h(ch, m).id == h(ch, n).id ==> h(ch, m).id == NoId
  }

  /** Messages before `next` that were not handled still are not. */
  ghost predicate LeavesAlone(h: History, s: State, s': State, ch: nat, next: nat) {
    forall n: nat :: n < next && Handled(h, s', ch, n) ==> Handled(h, s, ch, n)
  }

  /** How many steps of its own a poll with a page has left, before it sets the cursor. */
  function Left(j: Job): nat
    requires HasPage(j)
  {
    2 * (j.hi - j.next) + if j.Calling? then 0 else 1
  }

  lemma OwnStepEffect(h: History, cap: nat, s: State, job: nat)
    requires job in s.jobs && HasPage(s.jobs[job]) && (s.jobs[job].Calling? || s.jobs[job].next < s.jobs[job].hi)
    ensures var r := s.jobs[job];
            && Enabled(s, OwnStep(r, job))
            && var s' := Next(h, cap, s, OwnStep(r, job));
               && s'.cursors == s.cursors && job in s'.jobs && HasPage(s'.jobs[job])
               && s'.jobs[job].ch == r.ch && s'.jobs[job].start == r.start && s'.jobs[job].hi == r.hi
               && r.next <= s'.jobs[job].next && Left(s'.jobs[job]) < Left(r)
  {}

  lemma OwnStepLeaves(h: History, cap: nat, s: State, job: nat)
    requires job in s.jobs && HasPage(s.jobs[job]) && Enabled(s, OwnStep(s.jobs[job], job))
    requires UniqueIds(h, s.jobs[job].ch)
    ensures var r := s.jobs[job]; LeavesAlone(h, s, Next(h, cap, s, OwnStep(r, job)), r.ch, r.next)
  {
    var r := s.jobs[job];
    var s' := Next(h, cap, s, OwnStep(r, job));
    forall n: nat | n < r.next && Handled(h, s', r.ch, n) ensures Handled(h, s, r.ch, n) {
      assert s'.emitted == s.emitted || s'.emitted == s.emitted + {(r.ch, r.next)};
      assert s'.mem.recorded == s.mem.recorded || s'.mem.recorded == s.mem.recorded + [h(r.ch, r.next).id];
    }
  }

  /** Left to itself, a poll with a page sets the cursor past it, in its own chain. */
  lemma {:induction false} Drive(h: History, cap: nat, s: State, job: nat) returns (steps: seq<Step>)
    requires job in s.jobs && HasPage(s.jobs[job])
    ensures OwnSteps(steps) && Exec(h, cap, s, steps).Some?
    ensures var r, s' := s.jobs[job], Exec(h, cap, s, steps).value;
            && s'.cursors == s.cursors[r.ch := Cursor(r.start, r.hi)]
            && (UniqueIds(h, r.ch) ==> LeavesAlone(h, s, s', r.ch, r.next))
    decreases Left(s.jobs[job])
  {
    var r := s.jobs[job];
    var step := OwnStep(r, job);
    if r.Handling? && r.next == r.hi {
      steps := [step];
      ExecCons(h, cap, s, step, []);
      assert [step] + [] == [step];
    } else {
      OwnStepEffect(h, cap, s, job);
      var mid := Next(h, cap, s, step);
      var rest := Drive(h, cap, mid, job);
      ExecCons(h, cap, s, step, rest);
      steps := [step] + rest;
      if UniqueIds(h, r.ch) {
        OwnStepLeaves(h, cap, s, job);
        LeavesMore(h, s, mid, Exec(h, cap, s, steps).value, r.ch, r.next, mid.jobs[job].next);
      }
    }
  }

  lemma LeavesMore(h: History, a: State, b: State, c: State, ch: nat, next: nat, later: nat)
    requires LeavesAlone(h, a, b, ch, next) && LeavesAlone(h, b, c, ch, later) && next <= later
    ensures LeavesAlone(h, a, c, ch, next)
  {}

  /** Can the poll still set the cursor of `ch`? */
  predicate Contends(j: Job, ch: nat) {
    (j.Reading? && j.ch == ch) || (HasPage(j) && j.ch == ch)
  }

  /** Where the page of such a poll begins, and its chain; a poll without a cursor gets a page at `lo`. */
  function PageAt(j: Job, lo: nat): nat
    requires !j.Hot?
  {
    match j
    case Reading(_, from) => if from.Some? then from.value.pos else lo
    case Handling(_, _, next, _, _) => next
    case Calling(_, _, next, _, _, _) => next
  }

  function ChainOf(j: Job, lo: nat): nat
    requires !j.Hot?
  {
    match j
    case Reading(_, from) => if from.Some? then from.value.start else lo
    case Handling(_, start, _, _, _) => start
    case Calling(_, start, _, _, _, _) => start
  }

  /** A poll that contends for the cursor can win: its chain, and whatever it has passed over, stay. */
  lemma Win(h: History, cap: nat, s: State, job: nat, lo: nat) returns (steps: seq<Step>)
    requires job in s.jobs && !s.jobs[job].Hot? && Contends(s.jobs[job], s.jobs[job].ch)
    ensures Exec(h, cap, s, steps).Some?
    ensures var r, s' := s.jobs[job], Exec(h, cap, s, steps).value;
            && r.ch in s'.cursors && s'.cursors[r.ch].start == ChainOf(r, lo)
            && PageAt(r, lo) <= s'.cursors[r.ch].pos && (r.Reading? ==> PageAt(r, lo) < s'.cursors[r.ch].pos)
            && (UniqueIds(h, r.ch) ==> LeavesAlone(h, s, s', r.ch, PageAt(r, lo)))
  {
    var r := s.jobs[job];
    if r.Reading? {
      var at := PageAt(r, lo);
      var step := List(job, at, at + 1);
      var mid := Next(h, cap, s, step);
      var rest := Drive(h, cap, mid, job);
      ExecCons(h, cap, s, step, rest);
      steps := [step] + rest;
    } else {
      steps := Drive(h, cap, s, job);
    }
  }

  // ----- when the chain cannot change -----

  /**
    A poll of `ch` that can still set the cursor of another chain than the one that
    began at `start`: it found no cursor, or one of another chain, or it has got a
    page of another chain with something in it.
   */
  predicate Rival(j: Job, ch: nat, start: nat) {
    match j
    case Reading(c, from) => c == ch && (from.None? || from.value.start != start)
    case Handling(c, from, _, _, moved) => c == ch && moved && from != start
    case Calling(c, from, _, _, moved, _) => c == ch && moved && from != start
    case Hot(_, _) => false
  }

  predicate NoRivals(s: State, ch: nat, start: nat) {
    forall j <- s.jobs :: !Rival(s.jobs[j], ch, start)
  }

  predicate InChain(s: State, ch: nat, start: nat) {
    ch in s.cursors && s.cursors[ch].start == start
  }

  lemma StepKeepsChain(h: History, cap: nat, s: State, step: Step, ch: nat, start: nat)
    requires InChain(s, ch, start) && NoRivals(s, ch, start) && Enabled(s, step)
    ensures InChain(Next(h, cap, s, step), ch, start) && NoRivals(Next(h, cap, s, step), ch, start)
  {}

  lemma {:induction false} ChainStaysForever(h: History, cap: nat, s: State, steps: seq<Step>, ch: nat, start: nat)
    requires InChain(s, ch, start) && NoRivals(s, ch, start) && Exec(h, cap, s, steps).Some?
    ensures InChain(Exec(h, cap, s, steps).value, ch, start) && NoRivals(Exec(h, cap, s, steps).value, ch, start)
    decreases |steps|
  {
    if steps != [] {
      var front := steps[..|steps| - 1];
      ChainStaysForever(h, cap, s, front, ch, start);
      StepKeepsChain(h, cap, Exec(h, cap, s, front).value, steps[|steps| - 1], ch, start);
    }
  }

  /** A rival can take the cursor over. */
  lemma RivalWins(h: History, cap: nat, s: State, ch: nat, start: nat, job: nat) returns (steps: seq<Step>)
    requires Inv(h, cap, s) && job in s.jobs && Rival(s.jobs[job], ch, start)
    ensures Exec(h, cap, s, steps).Some? && !InChain(Exec(h, cap, s, steps).value, ch, start)
  {
    assert JobCovers(h, s, s.jobs[job]);
    steps := Win(h, cap, s, job, start + 1);
  }

  /** Every continuation leaves the cursor of `ch` in the chain it is in if and only if no rival is under way. */
  lemma ChainExact(h: History, cap: nat, s: State, ch: nat, start: nat)
    requires Inv(h, cap, s) && InChain(s, ch, start)
    ensures NoRivals(s, ch, start)
       <==> forall steps :: Exec(h, cap, s, steps).Some? ==> InChain(Exec(h, cap, s, steps).value, ch, start)
  {
    if NoRivals(s, ch, start) {
      forall steps | Exec(h, cap, s, steps).Some? ensures InChain(Exec(h, cap, s, steps).value, ch, start) {
        ChainStaysForever(h, cap, s, steps, ch, start);
      }
    } else {
      var job :| job in s.jobs && Rival(s.jobs[job], ch, start);
      var steps := RivalWins(h, cap, s, ch, start, job);
      assert Exec(h, cap, s, steps).Some?;
    }
  }

  // ----- when nothing can be skipped -----

  /** Everything from message `first` to the cursor was handled. */
  ghost predicate NoGap(h: History, s: State, ch: nat, first: nat) {
    ch in s.cursors && Covered(h, s, ch, first, s.cursors[ch].pos)
  }

  /**
    A poll of `ch` cannot move the cursor past a message from `first` on that is
    not handled: all before its page are, and when it found no cursor, so that its
    page may begin anywhere, all there will ever be.
   */
  ghost predicate LeavesNoGap(h: History, s: State, j: Job, ch: nat, first: nat) {
    match j
    case Reading(c, from) =>
      c == ch ==> if from.Some? then Covered(h, s, ch, first, from.value.pos)
                  else forall n: nat :: n >= first ==> Handled(h, s, ch, n)
    case Handling(c, _, next, _, moved) => c == ch && moved ==> Covered(h, s, ch, first, next)
    case Calling(c, _, next, _, moved, _) => c == ch && moved ==> Covered(h, s, ch, first, next)
    case Hot(_, _) => true
  }

  ghost predicate Seamless(h: History, s: State, ch: nat, first: nat) {
    NoGap(h, s, ch, first) && forall j <- s.jobs :: LeavesNoGap(h, s, s.jobs[j], ch, first)
  }

  lemma LeavesNoGapGrows(h: History, s: State, s': State, j: Job, ch: nat, first: nat)
    requires Grows(s, s') && LeavesNoGap(h, s, j, ch, first)
    ensures LeavesNoGap(h, s', j, ch, first)
  {
    match j
    case Reading(c, from) =>
      if c == ch {
        if from.Some? {
          CoveredGrows(h, s, s', ch, first, from.value.pos);
        } else {
          forall n: nat | n >= first ensures Handled(h, s', ch, n) {
            assert Handled(h, s, ch, n);
          }
        }
      }
    case Handling(c, _, next, _, moved) =>
      if c == ch && moved {
        CoveredGrows(h, s, s', ch, first, next);
      }
    case Calling(c, _, next, _, moved, _) =>
      if c == ch && moved {
        CoveredGrows(h, s, s', ch, first, next);
      }
    case Hot(_, _) =>
  }

  lemma BeginLeavesNoGap(h: History, cap: nat, s: State, step: Step, ch: nat, first: nat)
    requires Seamless(h, s, ch, first) && Enabled(s, step) && (step.Begin? || step.List?)
    ensures var s' := Next(h, cap, s, step); step.job in s'.jobs && LeavesNoGap(h, s', s'.jobs[step.job], ch, first)
  {
    var s' := Next(h, cap, s, step);
    NextGrows(h, cap, s, step);
    if step.List? {
      LeavesNoGapGrows(h, s, s', s.jobs[step.job], ch, first);
    } else if step.ch == ch {
      CoveredGrows(h, s, s', ch, first, s.cursors[ch].pos);
    }
  }

  lemma AdvanceLeavesNoGap(h: History, cap: nat, s: State, step: Step, ch: nat, first: nat)
    requires Inv(h, cap, s) && Seamless(h, s, ch, first) && Enabled(s, step)
    requires step.Ask? || (step.Emit? && s.jobs[step.job].Calling?)
    ensures var s' := Next(h, cap, s, step); step.job in s'.jobs && LeavesNoGap(h, s', s'.jobs[step.job], ch, first)
  {
    var r, s' := s.jobs[step.job], Next(h, cap, s, step);
    PassedIsHandled(h, cap, s, step);
    NextGrows(h, cap, s, step);
    assert LeavesNoGap(h, s, r, ch, first);
    LeavesNoGapGrows(h, s, s', r, ch, first);
    if r.ch == ch && r.moved && s'.jobs[step.job].Handling? {
      CoveredMore(h, s', ch, first, r.next);
    }
  }

  lemma JobStaysSeamless(h: History, cap: nat, s: State, step: Step, ch: nat, first: nat, j: nat)
    requires Inv(h, cap, s) && Seamless(h, s, ch, first) && Enabled(s, step) && j in Next(h, cap, s, step).jobs
    ensures LeavesNoGap(h, Next(h, cap, s, step), Next(h, cap, s, step).jobs[j], ch, first)
  {
    if step.Trim? || step.job != j {
      OtherJobStays(h, cap, s, step, j);
      NextGrows(h, cap, s, step);
      LeavesNoGapGrows(h, s, Next(h, cap, s, step), s.jobs[j], ch, first);
    } else if step.Begin? || step.List? {
      BeginLeavesNoGap(h, cap, s, step, ch, first);
    } else if step.Ask? || (step.Emit? && s.jobs[j].Calling?) {
      AdvanceLeavesNoGap(h, cap, s, step, ch, first);
    }
  }

  lemma CursorStaysSeamless(h: History, cap: nat, s: State, step: Step, ch: nat, first: nat)
    requires Seamless(h, s, ch, first) && Enabled(s, step)
    ensures NoGap(h, Next(h, cap, s, step), ch, first)
  {
    var s' := Next(h, cap, s, step);
    NextGrows(h, cap, s, step);
    if step.SetCursor? && s.jobs[step.job].ch == ch {
      assert LeavesNoGap(h, s, s.jobs[step.job], ch, first);
    }
    CoveredGrows(h, s, s', ch, first, s'.cursors[ch].pos);
  }

  lemma {:induction false} SeamlessForever(h: History, cap: nat, s: State, steps: seq<Step>, ch: nat, first: nat)
    requires Inv(h, cap, s) && Seamless(h, s, ch, first) && Exec(h, cap, s, steps).Some?
    ensures Seamless(h, Exec(h, cap, s, steps).value, ch, first)
    decreases |steps|
  {
    if steps != [] {
      var front, last := steps[..|steps| - 1], steps[|steps| - 1];
      SeamlessForever(h, cap, s, front, ch, first);
      ExecKeepsInv(h, cap, s, front);
      var mid := Exec(h, cap, s, front).value;
      CursorStaysSeamless(h, cap, mid, last, ch, first);
      forall j <- Next(h, cap, mid, last).jobs
        ensures LeavesNoGap(h, Next(h, cap, mid, last), Next(h, cap, mid, last).jobs[j], ch, first)
      {
        JobStaysSeamless(h, cap, mid, last, ch, first, j);
      }
    }
  }

  /** The message that a poll which leaves a gap would pass over. */
  lemma GapOf(h: History, s: State, j: Job, ch: nat, first: nat) returns (n: nat)
    requires JobCovers(h, s, j) && !LeavesNoGap(h, s, j, ch, first)
    ensures first <= n && !Handled(h, s, ch, n) && Contends(j, ch)
    ensures n < if j.Reading? && j.from.None? then n + 1 else PageAt(j, 0)
  {
    if j.Reading? && j.from.None? {
      n :| n >= first && !Handled(h, s, ch, n);
    } else {
      n :| first <= n < PageAt(j, 0) && !Handled(h, s, ch, n);
    }
  }

  lemma GapOpens(h: History, cap: nat, s: State, ch: nat, first: nat, job: nat) returns (steps: seq<Step>)
    requires Inv(h, cap, s) && UniqueIds(h, ch) && job in s.jobs && !LeavesNoGap(h, s, s.jobs[job], ch, first)
    ensures Exec(h, cap, s, steps).Some? && !NoGap(h, Exec(h, cap, s, steps).value, ch, first)
  {
    assert JobCovers(h, s, s.jobs[job]);
    var n := GapOf(h, s, s.jobs[job], ch, first);
    steps := Win(h, cap, s, job, n + 1);
    assert !Handled(h, Exec(h, cap, s, steps).value, ch, n);
  }

  /** However the run goes on, everything from `first` to the cursor of `ch` is handled. */
  ghost predicate NeverGap(h: History, cap: nat, s: State, ch: nat, first: nat) {
    forall steps :: Exec(h, cap, s, steps).Some? ==> NoGap(h, Exec(h, cap, s, steps).value, ch, first)
  }

  /**
    Exactly when nothing can be skipped.  Take any reachable state and any message
    `first`.  Whatever polls and frames follow, everything from `first` to the
    cursor is handled if and only if that is so now, and no poll under way has, or
    can still get, a page behind a message that is not handled.  (Only-if is for
    channels whose messages have ids of their own; a message that shares the id of
    a later one is handled with it.)
   */
  lemma NothingSkippedExact(h: History, cap: nat, s: State, ch: nat, first: nat)
    requires Inv(h, cap, s) && ch in s.cursors
    ensures Seamless(h, s, ch, first) ==> NeverGap(h, cap, s, ch, first)
    ensures UniqueIds(h, ch) && NeverGap(h, cap, s, ch, first) ==> Seamless(h, s, ch, first)
  {
    if Seamless(h, s, ch, first) {
      forall steps | Exec(h, cap, s, steps).Some? ensures NoGap(h, Exec(h, cap, s, steps).value, ch, first) {
        SeamlessForever(h, cap, s, steps, ch, first);
      }
    } else if !NoGap(h, s, ch, first) {
      var none: seq<Step> := [];
      assert Exec(h, cap, s, none) == Some(s);
    } else if UniqueIds(h, ch) {
      var job :| job in s.jobs && !LeavesNoGap(h, s, s.jobs[job], ch, first);
      var steps := GapOpens(h, cap, s, ch, first, job);
      assert Exec(h, cap, s, steps).Some?;
    }
  }

  // ----- which chains a run can lead to -----

  /** A poll that found no cursor gets a page with something in it. */
  predicate IsFirstPage(s: State, step: Step, ch: nat) {
    step.List? && step.job in s.jobs && s.jobs[step.job] == Reading(ch, None) && step.lo < step.hi
  }

  /** Where the first pages of `ch` began, in the order they were listed. */
  function FirstPages(h: History, cap: nat, steps: seq<Step>, ch: nat): seq<nat> {
    if steps == [] then []
    else
      var front, last := steps[..|steps| - 1], steps[|steps| - 1];
      var s := Exec(h, cap, START, front);
      FirstPages(h, cap, front, ch) + if s.Some? && IsFirstPage(s.value, last, ch) then [last.lo] else []
  }

  /** The chain of a poll of `ch` began at one of `pages`, as far as it has one. */
  predicate JobFrom(j: Job, ch: nat, pages: seq<nat>) {
    match j
    case Reading(c, from) => c == ch && from.Some? ==> from.value.start in pages
    case Handling(c, start, _, _, moved) => c == ch && moved ==> start in pages
    case Calling(c, start, _, _, moved, _) => c == ch && moved ==> start in pages
    case Hot(_, _) => true
  }

  predicate AllFrom(s: State, ch: nat, pages: seq<nat>) {
    (ch in s.cursors ==> s.cursors[ch].start in pages) && forall j <- s.jobs :: JobFrom(s.jobs[j], ch, pages)
  }

  lemma AllFromMore(s: State, ch: nat, pages: seq<nat>, more: seq<nat>)
    requires AllFrom(s, ch, pages)
    ensures AllFrom(s, ch, pages + more)
  {
    assert forall x <- pages :: x in pages + more;
  }

  lemma StepAllFrom(h: History, cap: nat, s: State, step: Step, ch: nat, pages: seq<nat>)
    requires AllFrom(s, ch, pages) && Enabled(s, step) && (IsFirstPage(s, step, ch) ==> step.lo in pages)
    ensures AllFrom(Next(h, cap, s, step), ch, pages)
  {}

  /** Every cursor of `ch` is of a chain that began at one of the first pages. */
  lemma {:induction false} ChainsAreFirstPages(h: History, cap: nat, steps: seq<Step>, ch: nat)
    requires Exec(h, cap, START, steps).Some?
    ensures AllFrom(Exec(h, cap, START, steps).value, ch, FirstPages(h, cap, steps, ch))
    decreases |steps|
  {
    if steps != [] {
      var front, last := steps[..|steps| - 1], steps[|steps| - 1];
      ChainsAreFirstPages(h, cap, front, ch);
      var s := Exec(h, cap, START, front).value;
      var more := if IsFirstPage(s, last, ch) then [last.lo] else [];
      AllFromMore(s, ch, FirstPages(h, cap, front, ch), more);
      StepAllFrom(h, cap, s, last, ch, FirstPages(h, cap, front, ch) + more);
    }
  }

  /** Cut a run anywhere and go on without another first page: can the cursor of `ch` be of the chain from `start`? */
  ghost predicate CanBecome(h: History, cap: nat, steps: seq<Step>, ch: nat, start: nat) {
    exists k: nat, more: seq<Step> :: k <= |steps| && LeadsTo(h, cap, steps[..k], more, ch, start)
  }

  ghost predicate LeadsTo(h: History, cap: nat, steps: seq<Step>, more: seq<Step>, ch: nat, start: nat) {
    && FirstPages(h, cap, steps + more, ch) == FirstPages(h, cap, steps, ch)
    && Exec(h, cap, START, steps + more).Some?
    && InChain(Exec(h, cap, START, steps + more).value, ch, start)
  }

  lemma {:induction false} FirstPagesPrefix(h: History, cap: nat, steps: seq<Step>, ch: nat, k: nat)
    requires k <= |steps|
    ensures forall p <- FirstPages(h, cap, steps[..k], ch) :: p in FirstPages(h, cap, steps, ch)
    decreases |steps|
  {
    if k == |steps| {
      assert steps[..k] == steps;
    } else {
      var front := steps[..|steps| - 1];
      FirstPagesPrefix(h, cap, front, ch, k);
      assert front[..k] == steps[..k];
    }
  }

  lemma {:induction false} OwnStepsListNothing(h: History, cap: nat, steps: seq<Step>, own: seq<Step>, ch: nat)
    requires OwnSteps(own)
    ensures FirstPages(h, cap, steps + own, ch) == FirstPages(h, cap, steps, ch)
    decreases |own|
  {
    if own == [] {
      assert steps + own == steps;
    } else {
      var front, last := own[..|own| - 1], own[|own| - 1];
      assert last in own && forall step <- front :: step in own;
      assert (steps + own)[..|steps + own| - 1] == steps + front && (steps + own)[|steps + own| - 1] == last;
      OwnStepsListNothing(h, cap, steps, front, ch);
    }
  }

  /** The poll that gets first page p can win right away. */
  lemma {:induction false} FirstPageCanWin(h: History, cap: nat, steps: seq<Step>, ch: nat, p: nat)
    requires Exec(h, cap, START, steps).Some? && p in FirstPages(h, cap, steps, ch)
    ensures CanBecome(h, cap, steps, ch, p)
    decreases |steps|
  {
    var front, last := steps[..|steps| - 1], steps[|steps| - 1];
    if p in FirstPages(h, cap, front, ch) {
      FirstPageCanWin(h, cap, front, ch, p);
      var k: nat, more: seq<Step> :| k <= |front| && LeadsTo(h, cap, front[..k], more, ch, p);
      assert front[..k] == steps[..k];
    } else {
      var s := Exec(h, cap, START, steps).value;
      var own := Drive(h, cap, s, last.job);
      ExecConcat(h, cap, START, steps, own);
      OwnStepsListNothing(h, cap, steps, own, ch);
      assert steps[..|steps|] == steps;
      assert LeadsTo(h, cap, steps[..|steps|], own, ch, p);
    }
  }

  /**
    The chains that a run can lead to are exactly its first pages.  So the cursor
    of a channel counts from the one first page, however the run goes on from
    anywhere, if and only if no other first page was listed.
   */
  lemma ChainsExact(h: History, cap: nat, steps: seq<Step>, ch: nat, start: nat)
    requires Exec(h, cap, START, steps).Some?
    ensures CanBecome(h, cap, steps, ch, start) <==> start in FirstPages(h, cap, steps, ch)
  {
    if CanBecome(h, cap, steps, ch, start) {
      var k: nat, more: seq<Step> :| k <= |steps| && LeadsTo(h, cap, steps[..k], more, ch, start);
      ChainsAreFirstPages(h, cap, steps[..k] + more, ch);
      FirstPagesPrefix(h, cap, steps, ch, k);
    }
    if start in FirstPages(h, cap, steps, ch) {
      FirstPageCanWin(h, cap, steps, ch, start);
    }
  }

  // ----- polls that take turns -----

  predicate Polls(j: Job, ch: nat) {
    !j.Hot? && j.ch == ch
  }

  /**
    May a poll of `ch` begin?  Once there is a cursor, always.  Before that, only
    when no other poll of the channel is under way and none has got a page with
    something in it; so not as a retry of one that did and then failed.
   */
  predicate MayBegin(h: History, cap: nat, steps: seq<Step>, s: State, ch: nat) {
    ch in s.cursors || (FirstPages(h, cap, steps, ch) == [] && forall j <- s.jobs :: !Polls(s.jobs[j], ch))
  }

  predicate TakeTurns(h: History, cap: nat, steps: seq<Step>, ch: nat) {
    steps == [] ||
    var front, last := steps[..|steps| - 1], steps[|steps| - 1];
    var s := Exec(h, cap, START, front);
    TakeTurns(h, cap, front, ch) && (s.Some? && last.Begin? && last.ch == ch ==> MayBegin(h, cap, front, s.value, ch))
  }

  /** At most one poll without a cursor is waiting for its page, and none once there was a first page. */
  predicate OneInTurn(s: State, ch: nat, pages: seq<nat>) {
    && |pages| <= 1
    && (pages != [] ==> forall j <- s.jobs :: s.jobs[j] != Reading(ch, None))
    && (forall j <- s.jobs, k <- s.jobs :: s.jobs[j] == s.jobs[k] == Reading(ch, None) ==> j == k)
  }

  lemma StepInTurn(h: History, cap: nat, s: State, step: Step, ch: nat, pages: seq<nat>)
    requires OneInTurn(s, ch, pages) && Enabled(s, step)
    requires step.Begin? && step.ch == ch ==>
             ch in s.cursors || (pages == [] && forall j <- s.jobs :: !Polls(s.jobs[j], ch))
    ensures OneInTurn(Next(h, cap, s, step), ch, pages + if IsFirstPage(s, step, ch) then [step.lo] else [])
  {
    assert pages + [] == pages;
  }

  lemma {:induction false} TurnsGiveOneFirstPage(h: History, cap: nat, steps: seq<Step>, ch: nat)
    requires Exec(h, cap, START, steps).Some? && TakeTurns(h, cap, steps, ch)
    ensures OneInTurn(Exec(h, cap, START, steps).value, ch, FirstPages(h, cap, steps, ch))
    decreases |steps|
  {
    if steps != [] {
      var front, last := steps[..|steps| - 1], steps[|steps| - 1];
      TurnsGiveOneFirstPage(h, cap, front, ch);
      StepInTurn(h, cap, Exec(h, cap, START, front).value, last, ch, FirstPages(h, cap, front, ch));
    }
  }

  /**
    From the first page on, nothing is lost.  In every run in which the polls of a
    channel take turns until it has a cursor, whatever they do afterwards, there is
    one first page, and every message from where it began to the cursor is the
    bot's own or reaches the callback, or a store call failed after it had recorded
    its id.
   */
  lemma NothingSkippedFromFirstPage(h: History, cap: nat, steps: seq<Step>, ch: nat, n: nat)
    requires Exec(h, cap, START, steps).Some? && TakeTurns(h, cap, steps, ch)
    requires ch in Exec(h, cap, START, steps).value.cursors
    ensures |FirstPages(h, cap, steps, ch)| == 1
    ensures FirstPages(h, cap, steps, ch)[0] <= n < Exec(h, cap, START, steps).value.cursors[ch].pos
            ==> var s := Exec(h, cap, START, steps).value;
                h(ch, n).own || Reaches(h, s, ch, n) || (Lost(s, h(ch, n).id) && !RecordsHold(steps))
  {
    var s, pages := Exec(h, cap, START, steps).value, FirstPages(h, cap, steps, ch);
    TurnsGiveOneFirstPage(h, cap, steps, ch);
    ChainsAreFirstPages(h, cap, steps, ch);
    assert s.cursors[ch].start == pages[0];
    if s.cursors[ch].start <= n < s.cursors[ch].pos && !h(ch, n).own {
      NothingSkipped(h, cap, steps, ch, n);
    }
  }

  // ----- four runs -----

  /** A channel where only message 1 is somebody else's. */
  function OneToAnswer(ch: nat, n: nat): Post {
    Post(MsgId(n), n != 1)
  }

  lemma DemoStep(cap: nat, run: seq<Step>, i: nat, s: State, s': State)
    requires i < |run| && Exec(OneToAnswer, cap, START, run[..i]) == Some(s)
    requires Enabled(s, run[i]) && Next(OneToAnswer, cap, s, run[i]) == s'
    ensures Exec(OneToAnswer, cap, START, run[..i + 1]) == Some(s')
  {
    ExecNext(OneToAnswer, cap, START, run[..i], s, run[i]);
    TakeNext(run, i);
  }

  const TWO_FIRST_POLLS: seq<Step> :=
    [Begin(0, 0), Begin(1, 0), List(0, 0, 1), List(1, 2, 3), Ask(0), SetCursor(0), Ask(1), SetCursor(1)]

  /** Both polls find no cursor; the first gets page [0, 1) and the second page [2, 3). */
  lemma BothStart(cap: nat, run: seq<Step>) returns (s: State)
    requires |run| >= 4 && run[0] == Begin(0, 0) && run[1] == Begin(1, 0)
    requires run[2] == List(0, 0, 1) && run[3] == List(1, 2, 3)
    ensures Exec(OneToAnswer, cap, START, run[..4]) == Some(s)
    ensures s == START.(jobs := map[0 := Handling(0, 0, 0, 1, true), 1 := Handling(0, 2, 2, 3, true)])
  {
    var s1 := START.(jobs := map[0 := Reading(0, None)]);
    var s2 := START.(jobs := map[0 := Reading(0, None), 1 := Reading(0, None)]);
    var s3 := START.(jobs := map[0 := Handling(0, 0, 0, 1, true), 1 := Reading(0, None)]);
    s := START.(jobs := map[0 := Handling(0, 0, 0, 1, true), 1 := Handling(0, 2, 2, 3, true)]);
    DemoStep(cap, run, 0, START, s1);
    DemoStep(cap, run, 1, s1, s2);
    DemoStep(cap, run, 2, s2, s3);
    DemoStep(cap, run, 3, s3, s);
  }

  /** The first poll passes its one message and sets the cursor. */
  lemma FirstSets(cap: nat, run: seq<Step>, s4: State) returns (s: State)
    requires |run| >= 6 && run[4] == Ask(0) && run[5] == SetCursor(0)
    requires s4 == START.(jobs := map[0 := Handling(0, 0, 0, 1, true), 1 := Handling(0, 2, 2, 3, true)])
    requires Exec(OneToAnswer, cap, START, run[..4]) == Some(s4)
    ensures Exec(OneToAnswer, cap, START, run[..6]) == Some(s)
    ensures s == START.(jobs := map[1 := Handling(0, 2, 2, 3, true)], cursors := map[0 := Cursor(0, 1)])
  {
    var s5 := START.(jobs := map[0 := Handling(0, 0, 1, 1, true), 1 := Handling(0, 2, 2, 3, true)]);
    DemoStep(cap, run, 4, s4, s5);
    s := START.(jobs := map[1 := Handling(0, 2, 2, 3, true)], cursors := map[0 := Cursor(0, 1)]);
    DemoStep(cap, run, 5, s5, s);
  }

  /** So does the second, which moves the cursor on. */
  lemma SecondSets(cap: nat, run: seq<Step>, s6: State)
    requires |run| == 8 && run[6] == Ask(1) && run[7] == SetCursor(1)
    requires s6 == START.(jobs := map[1 := Handling(0, 2, 2, 3, true)], cursors := map[0 := Cursor(0, 1)])
    requires Exec(OneToAnswer, cap, START, run[..6]) == Some(s6)
    ensures Exec(OneToAnswer, cap, START, run) == Some(START.(cursors := map[0 := Cursor(2, 3)]))
  {
    var s7 := s6.(jobs := map[1 := Handling(0, 2, 3, 3, true)]);
    DemoStep(cap, run, 6, s6, s7);
    DemoStep(cap, run, 7, s7, START.(cursors := map[0 := Cursor(2, 3)]));
    assert run[..8] == run;
  }

  /**
    Two polls that both find no cursor can get pages with a gap between them; the
    cursor of the second then hides the gap from every later poll, though the
    cursor of the first had been set before it.
   */
  lemma TwoFirstPollsSkip(cap: nat)
    ensures var r := Exec(OneToAnswer, cap, START, TWO_FIRST_POLLS);
            var r6 := Exec(OneToAnswer, cap, START, TWO_FIRST_POLLS[..6]);
            && r6.Some? && r6.value.cursors == map[0 := Cursor(0, 1)]
            && r.Some? && r.value.cursors == map[0 := Cursor(2, 3)] && r.value.jobs == map[]
            && !Handled(OneToAnswer, r.value, 0, 1)
  {
    var s4 := BothStart(cap, TWO_FIRST_POLLS);
    var s6 := FirstSets(cap, TWO_FIRST_POLLS, s4);
    SecondSets(cap, TWO_FIRST_POLLS, s6);
  }

  const RETRIED_FIRST_POLL: seq<Step> :=
    [Begin(0, 0), List(0, 0, 1), Ask(0), Leave(0), Begin(1, 0), List(1, 2, 3), Ask(1), SetCursor(1)]

  /** The first poll has taken page [0, 1), and an error keeps it from setting the cursor. */
  lemma FirstFails(cap: nat, run: seq<Step>)
    requires |run| >= 4 && run[0] == Begin(0, 0) && run[1] == List(0, 0, 1) && run[2] == Ask(0) && run[3] == Leave(0)
    ensures Exec(OneToAnswer, cap, START, run[..4]) == Some(START)
    ensures 0 in FirstPages(OneToAnswer, cap, run[..2], 0)
  {
    var s1 := START.(jobs := map[0 := Reading(0, None)]);
    var s2 := START.(jobs := map[0 := Handling(0, 0, 0, 1, true)]);
    var s3 := START.(jobs := map[0 := Handling(0, 0, 1, 1, true)]);
    DemoStep(cap, run, 0, START, s1);
    DemoStep(cap, run, 1, s1, s2);
    DemoStep(cap, run, 2, s2, s3);
    DemoStep(cap, run, 3, s3, START);
    assert run[..2][..1] == run[..1];
  }

  /** The next poll takes page [2, 3), and sets the cursor. */
  lemma RetrySets(cap: nat, run: seq<Step>)
    requires |run| == 8 && run[4] == Begin(1, 0) && run[5] == List(1, 2, 3)
    requires run[6] == Ask(1) && run[7] == SetCursor(1)
    requires Exec(OneToAnswer, cap, START, run[..4]) == Some(START)
    ensures Exec(OneToAnswer, cap, START, run) == Some(START.(cursors := map[0 := Cursor(2, 3)]))
  {
    var s5 := START.(jobs := map[1 := Reading(0, None)]);
    var s6 := START.(jobs := map[1 := Handling(0, 2, 2, 3, true)]);
    var s7 := START.(jobs := map[1 := Handling(0, 2, 3, 3, true)]);
    DemoStep(cap, run, 4, START, s5);
    DemoStep(cap, run, 5, s5, s6);
    DemoStep(cap, run, 6, s6, s7);
    DemoStep(cap, run, 7, s7, START.(cursors := map[0 := Cursor(2, 3)]));
    assert run[..8] == run;
  }

  /**
    One poll after the other is not enough: when a first poll fails after it got
    its page, the next one finds no cursor either, and its page may begin further
    on.  Message 1, after the first page, is behind the cursor and was never seen.
   */
  lemma RetriedFirstPollSkips(cap: nat)
    ensures var r := Exec(OneToAnswer, cap, START, RETRIED_FIRST_POLL);
            && r.Some? && r.value.cursors == map[0 := Cursor(2, 3)] && r.value.jobs == map[]
            && !Handled(OneToAnswer, r.value, 0, 1)
  {
    FirstFails(cap, RETRIED_FIRST_POLL);
    RetrySets(cap, RETRIED_FIRST_POLL);
  }

  lemma TwoPagesNoTurns(h: History, cap: nat, steps: seq<Step>, ch: nat, p: nat, q: nat)
    requires Exec(h, cap, START, steps).Some? && p != q
    requires p in FirstPages(h, cap, steps, ch) && q in FirstPages(h, cap, steps, ch)
    ensures !TakeTurns(h, cap, steps, ch)
  {
    if TakeTurns(h, cap, steps, ch) {
      TurnsGiveOneFirstPage(h, cap, steps, ch);
      assert false;
    }
  }

  /** In neither of these two runs do the polls take turns. */
  lemma NeitherTakesTurns(cap: nat)
    ensures !TakeTurns(OneToAnswer, cap, TWO_FIRST_POLLS, 0) && !TakeTurns(OneToAnswer, cap, RETRIED_FIRST_POLL, 0)
  {
    TwoFirstPollsSkip(cap);
    ChainsAreFirstPages(OneToAnswer, cap, TWO_FIRST_POLLS[..6], 0);
    ChainsAreFirstPages(OneToAnswer, cap, TWO_FIRST_POLLS, 0);
    FirstPagesPrefix(OneToAnswer, cap, TWO_FIRST_POLLS, 0, 6);
    TwoPagesNoTurns(OneToAnswer, cap, TWO_FIRST_POLLS, 0, 0, 2);
    FirstFails(cap, RETRIED_FIRST_POLL);
    RetriedFirstPollSkips(cap);
    ChainsAreFirstPages(OneToAnswer, cap, RETRIED_FIRST_POLL, 0);
    FirstPagesPrefix(OneToAnswer, cap, RETRIED_FIRST_POLL, 0, 2);
    TwoPagesNoTurns(OneToAnswer, cap, RETRIED_FIRST_POLL, 0, 0, 2);
  }

  const FAILED_TRIM: seq<Step> :=
    [Begin(0, 0), List(0, 1, 2), Ask(0), Abandon(0), Begin(1, 0), List(1, 1, 2), Ask(1), SetCursor(1)]

  /** The poll asks about message 1; its id is recorded, trimming fails, and the poll gives up. */
  lemma TrimFails(cap: nat, run: seq<Step>) returns (s: State)
    requires |run| >= 4 && run[0] == Begin(0, 0) && run[1] == List(0, 1, 2) && run[2] == Ask(0) && run[3] == Abandon(0)
    ensures Exec(OneToAnswer, cap, START, run[..4]) == Some(s)
    ensures s == START.(mem := Memory([MsgId(1)], [MsgId(1)]), lost := {0})
  {
    var mem := Memory([MsgId(1)], [MsgId(1)]);
    var s1 := START.(jobs := map[0 := Reading(0, None)]);
    var s2 := START.(jobs := map[0 := Handling(0, 1, 1, 2, true)]);
    var s3 := START.(jobs := map[0 := Calling(0, 1, 1, 2, true, Some(0))], mem := mem);
    s := START.(mem := mem, lost := {0});
    DemoStep(cap, run, 0, START, s1);
    DemoStep(cap, run, 1, s1, s2);
    DemoStep(cap, run, 2, s2, s3);
    DemoStep(cap, run, 3, s3, s);
  }

  /** The next poll passes message 1 over, and sets the cursor. */
  lemma TakenForSeen(cap: nat, run: seq<Step>, s4: State)
    requires |run| == 8 && run[4] == Begin(1, 0) && run[5] == List(1, 1, 2)
    requires run[6] == Ask(1) && run[7] == SetCursor(1)
    requires s4 == START.(mem := Memory([MsgId(1)], [MsgId(1)]), lost := {0})
    requires Exec(OneToAnswer, cap, START, run[..4]) == Some(s4)
    ensures Exec(OneToAnswer, cap, START, run) == Some(s4.(cursors := map[0 := Cursor(1, 2)]))
  {
    var s5 := s4.(jobs := map[1 := Reading(0, None)]);
    var s6 := s4.(jobs := map[1 := Handling(0, 1, 1, 2, true)]);
    var s7 := s4.(jobs := map[1 := Handling(0, 1, 2, 2, true)]);
    DemoStep(cap, run, 4, s4, s5);
    DemoStep(cap, run, 5, s5, s6);
    DemoStep(cap, run, 6, s6, s7);
    DemoStep(cap, run, 7, s7, s4.(cursors := map[0 := Cursor(1, 2)]));
    assert run[..8] == run;
  }

  /**
    A message can be lost though every page begins at it: the store has recorded
    its id, trimming the set fails, the poll gives up, and the next one takes the
    message for one that was seen.
   */
  lemma FailedTrimSkips(cap: nat)
    ensures var r := Exec(OneToAnswer, cap, START, FAILED_TRIM);
            && r.Some? && r.value.cursors == map[0 := Cursor(1, 2)] && r.value.jobs == map[] && r.value.calls == []
            && !OneToAnswer(0, 1).own && !Reaches(OneToAnswer, r.value, 0, 1)
  {
    var s4 := TrimFails(cap, FAILED_TRIM);
    TakenForSeen(cap, FAILED_TRIM, s4);
  }

  const FAILED_LOOKUP: seq<Step> := [Hear(0, MsgId(1)), Emit(0), HearBlind(0, MsgId(1)), Emit(0)]

  lemma HeardTwice(cap: nat, run: seq<Step>) returns (s: State)
    requires |run| == 4 && run[0] == Hear(0, MsgId(1)) && run[1] == Emit(0)
    requires run[2] == HearBlind(0, MsgId(1)) && run[3] == Emit(0)
    ensures Exec(OneToAnswer, cap, START, run) == Some(s)
    ensures s.calls == [Call(MsgId(1), Some(0)), Call(MsgId(1), None)] && s.mem.recorded == [MsgId(1)]
  {
    var mem, first := Memory([MsgId(1)], [MsgId(1)]), Call(MsgId(1), Some(0));
    var s1 := START.(mem := mem, jobs := map[0 := Hot(MsgId(1), Some(0))]);
    var s2 := START.(mem := mem, calls := [first]);
    var s3 := s2.(jobs := map[0 := Hot(MsgId(1), None)], blind := {MsgId(1)});
    s := s3.(jobs := map[], calls := [first, Call(MsgId(1), None)]);
    DemoStep(cap, run, 0, START, s1);
    DemoStep(cap, run, 1, s1, s2);
    DemoStep(cap, run, 2, s2, s3);
    DemoStep(cap, run, 3, s3, s);
    assert run[..4] == run;
  }

  /** A socket frame whose lookup fails is delivered whether or not its message was: the store must answer. */
  lemma FailedLookupRepeats(cap: nat)
    ensures var r := Exec(OneToAnswer, cap, START, FAILED_LOOKUP);
            && r.Some? && r.value.calls == [Call(MsgId(1), Some(0)), Call(MsgId(1), None)]
            && r.value.mem.recorded == [MsgId(1)]
  {
    var _ := HeardTwice(cap, FAILED_LOOKUP);
  }
}
