/**
  The poll loop and the socket callback as code, on one bot's store.

  What the network and the store answer is an argument, so that the result is a
  function of it; and whatever the code does is a run of Delivery's steps.  The
  trace of a method is that run, and its ghost states say what the object's fields
  show before and after.
 */
module Poller {
  import opened Sequences
  import opened Wrappers
  import opened Dedup
  import opened Delivery

  ghost predicate CursorsShow(cursors: map<nat, nat>, starts: map<nat, nat>, model: map<nat, Cursor>) {
    && cursors.Keys == model.Keys && starts.Keys == model.Keys
    && forall ch :: ch in model ==> model[ch] == Delivery.Cursor(starts[ch], cursors[ch])
  }

  ghost predicate CallsShow(calls: seq<MessageId>, model: seq<Call>) {
    |calls| == |model| && forall i :: 0 <= i < |calls| ==> calls[i] == model[i].id
  }

  // ----- the steps that the code takes -----

  /** From s to s' by `trace`. */
  ghost predicate Runs(h: History, cap: nat, s: State, trace: seq<Step>, s': State) {
    Exec(h, cap, s, trace) == Some(s')
  }

  lemma RunsNone(h: History, cap: nat, s: State)
    ensures Runs(h, cap, s, [], s)
  {}

  lemma RunsOne(h: History, cap: nat, s: State, step: Step)
    requires Enabled(s, step)
    ensures Runs(h, cap, s, [step], Next(h, cap, s, step))
  {
    assert [step][..0] == [];
  }

  lemma RunsOn(h: History, cap: nat, s: State, a: seq<Step>, s': State, b: seq<Step>, s'': State)
    requires Runs(h, cap, s, a, s') && Runs(h, cap, s', b, s'')
    ensures Runs(h, cap, s, a + b, s'')
  {
    ExecConcat(h, cap, s, a, b);
  }

  /** Once a job is about to call back: trim, when a new id was recorded and that works, and call. */
  lemma TrimAndEmit(h: History, cap: nat, s: State, job: nat, trims: bool) returns (trace: seq<Step>, s': State)
    requires job in s.jobs && (s.jobs[job].Calling? || s.jobs[job].Hot?)
    ensures Runs(h, cap, s, trace, s')
    ensures s' == Next(h, cap, if trims then s.(mem := s.mem.Trim(cap)) else s, Emit(job))
  {
    if !trims {
      RunsOne(h, cap, s, Emit(job));
      return [Emit(job)], Next(h, cap, s, Emit(job));
    }
    var trimmed := Next(h, cap, s, Trim);
    RunsOne(h, cap, s, Trim);
    RunsOne(h, cap, trimmed, Emit(job));
    trace, s' := [Trim] + [Emit(job)], Next(h, cap, trimmed, Emit(job));
    RunsOn(h, cap, s, [Trim], trimmed, [Emit(job)], s');
  }

  /** The steps of one socket frame that nothing comes between, and whose id is recorded if it is new. */
  lemma Heard(h: History, cap: nat, s: State, job: nat, id: MessageId, fault: Fault)
    returns (trace: seq<Step>, s': State)
    requires job !in s.jobs && (fault.RecordFails? ==> id == NoId)
    ensures Runs(h, cap, s, trace, s') && s'.jobs == s.jobs && s'.cursors == s.cursors
    ensures s'.mem == AfterSeen(s.mem, id, cap, fault)
    ensures if Novel(s.mem, id) then exists token :: s'.calls == s.calls + [Call(id, token)] else s'.calls == s.calls
  {
    var heard := Next(h, cap, s, Hear(job, id));
    RunsOne(h, cap, s, Hear(job, id));
    trace, s' := [Hear(job, id)], heard;
    if Novel(s.mem, id) {
      var rest;
      rest, s' := TrimAndEmit(h, cap, heard, job, id != NoId && fault.Works?);
      RunsOn(h, cap, s, trace, heard, rest, s');
      trace := trace + rest;
      assert s'.jobs == s.jobs && s'.calls == s.calls + [Call(id, heard.jobs[job].token)];
    }
  }

  /** The steps of a socket frame whose lookup fails. */
  lemma HeardBlind(h: History, cap: nat, s: State, job: nat, id: MessageId) returns (trace: seq<Step>, s': State)
    requires job !in s.jobs && id != NoId
    ensures Runs(h, cap, s, trace, s') && s'.jobs == s.jobs && s'.cursors == s.cursors && s'.mem == s.mem
    ensures s'.calls == s.calls + [Call(id, None)]
  {
    var heard := Next(h, cap, s, HearBlind(job, id));
    RunsOne(h, cap, s, HearBlind(job, id));
    RunsOne(h, cap, heard, Emit(job));
    trace, s' := [HearBlind(job, id)] + [Emit(job)], Next(h, cap, heard, Emit(job));
    RunsOn(h, cap, s, [HearBlind(job, id)], heard, [Emit(job)], s');
    assert s'.jobs == s.jobs;
  }

  /** The steps for one message of a page. */
  lemma Taken(h: History, cap: nat, s: State, job: nat) returns (trace: seq<Step>, s': State)
    requires job in s.jobs && s.jobs[job].Handling? && s.jobs[job].next < s.jobs[job].hi
    ensures Runs(h, cap, s, trace, s') && s'.cursors == s.cursors
    ensures var r := s.jobs[job]; s'.jobs == s.jobs[job := Handling(r.ch, r.start, r.next + 1, r.hi, r.moved)]
    ensures var p := h(s.jobs[job].ch, s.jobs[job].next);
            && s'.mem == (if p.own then s.mem else AfterSeen(s.mem, p.id, cap, Works))
            && if p.own || !Novel(s.mem, p.id) then s'.calls == s.calls
               else exists token :: s'.calls == s.calls + [Call(p.id, token)]
  {
    var r := s.jobs[job];
    var p := h(r.ch, r.next);
    var asked := Next(h, cap, s, Ask(job));
    RunsOne(h, cap, s, Ask(job));
    trace, s' := [Ask(job)], asked;
    if !p.own && Novel(s.mem, p.id) {
      var rest;
      rest, s' := TrimAndEmit(h, cap, asked, job, p.id != NoId);
      RunsOn(h, cap, s, trace, asked, rest, s');
      trace := trace + rest;
      assert s'.calls == s.calls + [Call(p.id, asked.jobs[job].token)];
      assert s'.jobs == s.jobs[job := Handling(r.ch, r.start, r.next + 1, r.hi, r.moved)];
    }
  }

  /** The job gives up, and leaves everything else as it is. */
  lemma Drop(h: History, cap: nat, s0: State, done: seq<Step>, s: State, job: nat) returns (trace: seq<Step>, s': State)
    requires Runs(h, cap, s0, done, s) && job in s.jobs && (s.jobs[job].Reading? || s.jobs[job].Handling?)
    ensures Runs(h, cap, s0, trace, s') && s' == s.(jobs := s.jobs - {job})
  {
    RunsOne(h, cap, s, Leave(job));
    RunsOn(h, cap, s0, done, s, [Leave(job)], Next(h, cap, s, Leave(job)));
    trace, s' := done + [Leave(job)], Next(h, cap, s, Leave(job));
  }

  /** The steps for a message whose question is an error: the poll ends, before or after the id was recorded. */
  lemma Failed(h: History, cap: nat, s: State, job: nat, fault: Fault) returns (trace: seq<Step>, s': State)
    requires job in s.jobs && s.jobs[job].Handling? && s.jobs[job].next < s.jobs[job].hi
    requires var p := h(s.jobs[job].ch, s.jobs[job].next); !p.own && SeenFails(s.mem, p.id, fault)
    ensures Runs(h, cap, s, trace, s')
    ensures s'.jobs == s.jobs - {job} && s'.cursors == s.cursors && s'.calls == s.calls
    ensures s'.mem == AfterSeen(s.mem, h(s.jobs[job].ch, s.jobs[job].next).id, cap, fault)
  {
    if fault.RecordFails? {
      RunsOne(h, cap, s, Leave(job));
      return [Leave(job)], Next(h, cap, s, Leave(job));
    }
    var asked := Next(h, cap, s, Ask(job));
    RunsOne(h, cap, s, Ask(job));
    RunsOne(h, cap, asked, Abandon(job));
    trace, s' := [Ask(job)] + [Abandon(job)], Next(h, cap, asked, Abandon(job));
    RunsOn(h, cap, s, [Ask(job)], asked, [Abandon(job)], s');
    assert s'.jobs == s.jobs - {job};
  }

  /** Reading the cursor and getting the page. */
  lemma Opened(h: History, cap: nat, s: State, job: nat, ch: nat, lo: nat, hi: nat)
    returns (trace: seq<Step>, s': State)
    requires job !in s.jobs && lo <= hi && (ch in s.cursors ==> lo == s.cursors[ch].pos)
    ensures Runs(h, cap, s, trace, s')
    ensures s' == s.(jobs := s.jobs[
                       job := Handling(ch, if ch in s.cursors then s.cursors[ch].start else lo, lo, hi, lo < hi)])
  {
    var begun := Next(h, cap, s, Begin(job, ch));
    RunsOne(h, cap, s, Begin(job, ch));
    RunsOne(h, cap, begun, List(job, lo, hi));
    trace, s' := [Begin(job, ch)] + [List(job, lo, hi)], Next(h, cap, begun, List(job, lo, hi));
    RunsOn(h, cap, s, [Begin(job, ch)], begun, [List(job, lo, hi)], s');
    assert s'.jobs == s.jobs[job := s'.jobs[job]];
  }

  /** Setting the cursor. */
  lemma Moved(h: History, cap: nat, s0: State, done: seq<Step>, s: State, job: nat)
    returns (trace: seq<Step>, s': State)
    requires Runs(h, cap, s0, done, s) && Enabled(s, Step.SetCursor(job))
    ensures Runs(h, cap, s0, trace, s') && s' == Next(h, cap, s, Step.SetCursor(job))
  {
    RunsOne(h, cap, s, Step.SetCursor(job));
    RunsOn(h, cap, s0, done, s, [Step.SetCursor(job)], Next(h, cap, s, Step.SetCursor(job)));
    trace, s' := done + [Step.SetCursor(job)], Next(h, cap, s, Step.SetCursor(job));
  }

  // ----- what a poll comes to -----

  /** What one bot's polls and frames share. */
  datatype Shared = Shared(mem: Memory, cursors: map<nat, nat>, calls: seq<MessageId>)

  /**
    How the world answers the poll of one channel: an error before the listing, a
    listing that fails, or a page of `length` messages, from the cursor on or from
    `first` without one.  Asking the store about message `at` may meet a fault,
    and setting the cursor may fail.
   */
  datatype Reply = NoTurn | NoList | Page(first: nat, length: nat, at: nat, fault: Fault, setFails: bool)

  datatype Polled = Polled(after: Shared, failed: bool)

  /** One message: the bot's own and those seen before change nothing, any other is called back and remembered. */
  function TakeOne(p: Post, cap: nat, fault: Fault, b: Shared): Shared {
    if p.own || !Novel(b.mem, p.id) then b
    else Shared(AfterSeen(b.mem, p.id, cap, fault), b.cursors, b.calls + [p.id])
  }

  function TakeTo(h: History, cap: nat, ch: nat, lo: nat, n: nat, b: Shared): Shared
    requires lo <= n
  {
    if n == lo then b else TakeOne(h(ch, n - 1), cap, Works, TakeTo(h, cap, ch, lo, n - 1, b))
  }

  /** The store is asked about this message, and that is the error. */
  predicate AskFails(p: Post, fault: Fault, b: Shared) {
    !p.own && SeenFails(b.mem, p.id, fault)
  }

  /** The error leaves at most a record behind, and no callback. */
  function GiveUp(p: Post, cap: nat, fault: Fault, b: Shared): Shared {
    b.(mem := AfterSeen(b.mem, p.id, cap, fault))
  }

  /** How far the page [lo, hi) is taken. */
  function StopAt(h: History, cap: nat, ch: nat, lo: nat, hi: nat, at: nat, fault: Fault, b: Shared): (n: nat)
    requires lo <= hi
    ensures lo <= n <= hi
  {
    if lo <= at < hi && AskFails(h(ch, at), fault, TakeTo(h, cap, ch, lo, at, b)) then at else hi
  }

  function PageStart(cursors: map<nat, nat>, ch: nat, first: nat): nat {
    if ch in cursors then cursors[ch] else first
  }

  /** The page [lo, hi) is taken; the cursor moves only past one that was taken whole. */
  function AfterPage(h: History, cap: nat, ch: nat, lo: nat, hi: nat, reply: Reply, b: Shared): Polled
    requires lo <= hi && reply.Page?
  {
    var stop := StopAt(h, cap, ch, lo, hi, reply.at, reply.fault, b);
    var taken := TakeTo(h, cap, ch, lo, stop, b);
    if stop < hi then Polled(GiveUp(h(ch, stop), cap, reply.fault, taken), true)
    else EndOfPage(ch, lo, hi, reply.setFails, taken)
  }

  function EndOfPage(ch: nat, lo: nat, hi: nat, setFails: bool, b: Shared): Polled {
    if lo == hi then Polled(b, false)
    else if setFails then Polled(b, true)
    else Polled(b.(cursors := b.cursors[ch := hi]), false)
  }

  /** The poll of one channel. */
  function AfterChannel(h: History, cap: nat, ch: nat, reply: Reply, b: Shared): Polled {
    match reply
    case NoTurn => Polled(b, true)
    case NoList => Polled(b, false)
    case Page(first, length, _, _, _) =>
      var lo := PageStart(b.cursors, ch, first);
      AfterPage(h, cap, ch, lo, lo + length, reply, b)
  }

  /** The poll of all channels: an error ends it, a listing that fails only skips its channel. */
  function AfterPoll(h: History, cap: nat, channels: seq<nat>, replies: seq<Reply>, b: Shared): Polled
    requires |channels| == |replies|
  {
    if channels == [] then Polled(b, false)
    else
      var before := AfterPoll(h, cap, channels[..|channels| - 1], replies[..|replies| - 1], b);
      if before.failed then before
      else AfterChannel(h, cap, channels[|channels| - 1], replies[|replies| - 1], before.after)
  }

  lemma PollSnoc(h: History, cap: nat, channels: seq<nat>, replies: seq<Reply>, b: Shared, i: nat)
    requires i < |channels| == |replies|
    ensures var before := AfterPoll(h, cap, channels[..i], replies[..i], b);
            AfterPoll(h, cap, channels[..i + 1], replies[..i + 1], b)
            == if before.failed then before else AfterChannel(h, cap, channels[i], replies[i], before.after)
  {
    assert channels[..i + 1][..i] == channels[..i] && replies[..i + 1][..i] == replies[..i];
  }

  lemma {:induction false} FailureStays(h: History, cap: nat, channels: seq<nat>, replies: seq<Reply>, b: Shared,
                                        i: nat)
    requires i <= |channels| == |replies|
    requires AfterPoll(h, cap, channels[..i], replies[..i], b).failed
    ensures AfterPoll(h, cap, channels, replies, b) == AfterPoll(h, cap, channels[..i], replies[..i], b)
    decreases |channels| - i
  {
    if i == |channels| {
      assert channels[..i] == channels && replies[..i] == replies;
    } else {
      PollSnoc(h, cap, channels, replies, b, i);
      FailureStays(h, cap, channels, replies, b, i + 1);
    }
  }

  // ----- what becomes of the cursors -----

  /**
    The poll of one channel moves its cursor to the end of a page that is not
    empty, when every question about it is answered and the cursor can be set; in
    every other case all cursors stay.  It is an error exactly when there is no
    turn, a question is not answered, or the cursor cannot be set.
   */
  ghost predicate Moves(cursors: map<nat, nat>, ch: nat, reply: Reply, answered: bool, cursors': map<nat, nat>,
                        failed: bool) {
    match reply
    case NoTurn => failed && cursors' == cursors
    case NoList => !failed && cursors' == cursors
    case Page(first, length, _, _, setFails) =>
      if length == 0 then !failed && cursors' == cursors
      else if !answered || setFails then failed && cursors' == cursors
      else !failed && cursors' == cursors[ch := (if ch in cursors then cursors[ch] else first) + length]
  }

  /** No question about the page is an error. */
  ghost predicate Answered(h: History, cap: nat, ch: nat, reply: Reply, b: Shared) {
    reply.Page? ==>
      var lo := PageStart(b.cursors, ch, reply.first);
      StopAt(h, cap, ch, lo, lo + reply.length, reply.at, reply.fault, b) == lo + reply.length
  }

  lemma {:induction false} TakingKeepsCursors(h: History, cap: nat, ch: nat, lo: nat, n: nat, b: Shared)
    requires lo <= n
    ensures TakeTo(h, cap, ch, lo, n, b).cursors == b.cursors
    decreases n
  {
    if n > lo {
      TakingKeepsCursors(h, cap, ch, lo, n - 1, b);
    }
  }

  lemma ChannelMoves(h: History, cap: nat, ch: nat, reply: Reply, b: Shared)
    ensures var p := AfterChannel(h, cap, ch, reply, b);
            Moves(b.cursors, ch, reply, Answered(h, cap, ch, reply, b), p.after.cursors, p.failed)
    ensures reply.Page? && reply.fault.Works? ==> Answered(h, cap, ch, reply, b)
  {
    if reply.Page? {
      var lo := PageStart(b.cursors, ch, reply.first);
      var hi := lo + reply.length;
      TakingKeepsCursors(h, cap, ch, lo, StopAt(h, cap, ch, lo, hi, reply.at, reply.fault, b), b);
    }
  }

  /** Two polls of a channel in a row without an error: the second page starts where the first ended. */
  lemma AdjoiningPages(c0: map<nat, nat>, c1: map<nat, nat>, ch: nat, r1: Reply, r2: Reply, answered: bool)
    requires r1.Page? && r1.length > 0 && Moves(c0, ch, r1, answered, c1, false) && r2.Page?
    ensures PageStart(c1, ch, r2.first) == PageStart(c0, ch, r1.first) + r1.length
  {}

  function CursorIn(cursors: map<nat, nat>, ch: nat): Option<nat> {
    if ch in cursors then Some(cursors[ch]) else None
  }

  /** Where a poll without an error leaves the cursor of a channel. */
  function MovedTo(cursors: map<nat, nat>, ch: nat, reply: Reply): Option<nat> {
    if reply.Page? && reply.length > 0 then Some((if ch in cursors then cursors[ch] else reply.first) + reply.length)
    else CursorIn(cursors, ch)
  }

  /** The first n channels have moved, and no other one. */
  ghost predicate MovedUpTo(channels: seq<nat>, replies: seq<Reply>, cursors: map<nat, nat>, cursors': map<nat, nat>,
                            n: nat)
    requires n <= |channels| == |replies|
  {
    && (forall i :: 0 <= i < n ==> CursorIn(cursors', channels[i]) == MovedTo(cursors, channels[i], replies[i]))
    && (forall ch :: ch !in channels[..n] ==> CursorIn(cursors', ch) == CursorIn(cursors, ch))
  }

  /** Something about this channel was an error. */
  predicate HasError(reply: Reply) {
    reply.NoTurn? || (reply.Page? && reply.length > 0 && (reply.setFails || !reply.fault.Works?))
  }

  /** Nothing about this channel can go well. */
  predicate MustFail(reply: Reply) {
    reply.NoTurn? || (reply.Page? && reply.length > 0 && reply.setFails)
  }

  lemma OneMoreMoves(h: History, cap: nat, channels: seq<nat>, replies: seq<Reply>, cursors: map<nat, nat>, n: nat,
                     b: Shared, p: Polled)
    requires n < |channels| == |replies| && Distinct(channels) && MovedUpTo(channels, replies, cursors, b.cursors, n)
    requires p == AfterChannel(h, cap, channels[n], replies[n], b)
    ensures p.failed ==> HasError(replies[n]) && MovedUpTo(channels, replies, cursors, p.after.cursors, n)
    ensures !p.failed ==> !MustFail(replies[n]) && MovedUpTo(channels, replies, cursors, p.after.cursors, n + 1)
  {
    ChannelMoves(h, cap, channels[n], replies[n], b);
    assert channels[n] !in channels[..n];
    assert forall ch :: ch in channels[..n + 1] <==> ch in channels[..n] || ch == channels[n];
  }

  /**
    A whole poll: up to the first channel where something was an error, or up to
    the end, every channel has moved, and no other one.
   */
  ghost predicate PollMoves(channels: seq<nat>, replies: seq<Reply>, cursors: map<nat, nat>, cursors': map<nat, nat>,
                            failed: bool)
    requires |channels| == |replies|
  {
    exists n: nat :: n <= |channels| && StopsAt(channels, replies, cursors, cursors', failed, n)
  }

  ghost predicate StopsAt(channels: seq<nat>, replies: seq<Reply>, cursors: map<nat, nat>, cursors': map<nat, nat>,
                          failed: bool, n: nat)
    requires n <= |channels| == |replies|
  {
    && MovedUpTo(channels, replies, cursors, cursors', n)
    && (forall i :: 0 <= i < n ==> !MustFail(replies[i]))
    && (failed <==> n < |channels|) && (failed ==> HasError(replies[n]))
  }

  lemma {:induction false} PollMovesFrom(h: History, cap: nat, channels: seq<nat>, replies: seq<Reply>, b: Shared,
                                         i: nat)
    requires i <= |channels| == |replies| && Distinct(channels)
    requires var before := AfterPoll(h, cap, channels[..i], replies[..i], b);
             && !before.failed && MovedUpTo(channels, replies, b.cursors, before.after.cursors, i)
             && forall j :: 0 <= j < i ==> !MustFail(replies[j])
    ensures var p := AfterPoll(h, cap, channels, replies, b);
            PollMoves(channels, replies, b.cursors, p.after.cursors, p.failed)
    decreases |channels| - i
  {
    var before := AfterPoll(h, cap, channels[..i], replies[..i], b);
    if i == |channels| {
      assert channels[..i] == channels && replies[..i] == replies;
      assert StopsAt(channels, replies, b.cursors, before.after.cursors, false, i);
    } else {
      var p := AfterChannel(h, cap, channels[i], replies[i], before.after);
      PollSnoc(h, cap, channels, replies, b, i);
      OneMoreMoves(h, cap, channels, replies, b.cursors, i, before.after, p);
      if p.failed {
        FailureStays(h, cap, channels, replies, b, i + 1);
        assert StopsAt(channels, replies, b.cursors, p.after.cursors, true, i);
      } else {
        PollMovesFrom(h, cap, channels, replies, b, i + 1);
      }
    }
  }

  lemma PollMovesCursors(h: History, cap: nat, channels: seq<nat>, replies: seq<Reply>, b: Shared)
    requires |channels| == |replies|
    ensures var p := AfterPoll(h, cap, channels, replies, b);
            Distinct(channels) ==> PollMoves(channels, replies, b.cursors, p.after.cursors, p.failed)
  {
    if Distinct(channels) {
      PollMovesFrom(h, cap, channels, replies, b, 0);
    }
  }

  // ----- the code -----

  /** What the poller and the engine share for one bot; `calls` is what the callback has been given. */
  class Bot {
    const dedup: DedupSet
    var cursors: map<nat, nat>
    ghost var starts: map<nat, nat>
    ghost var calls: seq<MessageId>
    var bumps: nat                      // how often activity was recorded

    ghost function View(): Shared reads this, dedup {
      Shared(dedup.Contents(), cursors, calls)
    }

    ghost predicate Shows(s: State) reads this, dedup {
      dedup.Contents() == s.mem && CursorsShow(cursors, starts, s.cursors) && CallsShow(calls, s.calls)
    }

    constructor (cap: int)
      ensures Shows(START) && fresh(dedup) && bumps == 0
    {
      dedup := new DedupSet(cap);
      cursors, starts, calls, bumps := map[], map[], [], 0;
    }

    /** The cursor of a channel, if it has one. */
    method Cursor(ch: nat) returns (c: Option<nat>)
      ensures c == if ch in cursors then Some(cursors[ch]) else None
    {
      if ch in cursors {
        return Some(cursors[ch]);
      }
      return None;
    }

    /** Set the cursor of a channel past the page that the job has taken. */
    method MoveCursor(ch: nat, pos: nat, job: nat, ghost s: State, ghost h: History)
      requires Shows(s) && Enabled(s, Step.SetCursor(job)) && s.jobs[job].ch == ch && s.jobs[job].hi == pos
      modifies this`cursors, this`starts
      ensures Shows(Next(h, dedup.dedupCap, s, Step.SetCursor(job)))
      ensures cursors == old(cursors)[ch := pos]
    {
      cursors, starts := cursors[ch := pos], starts[ch := s.jobs[job].start];
    }

    /**
      A socket frame: drop it when its id was seen, and call back otherwise.  An
      error counts as not seen; an empty id is not looked up at all.
     */
    method OnHotMessage(id: MessageId, fault: Fault, job: nat, ghost s: State, ghost h: History)
      returns (ghost trace: seq<Step>, ghost s': State)
      requires Shows(s) && job !in s.jobs
      modifies this, dedup
      ensures Runs(h, dedup.dedupCap, s, trace, s') && Shows(s') && s'.jobs == s.jobs
      ensures View() == if fault.RecordFails? && id != NoId then old(View()).(calls := old(calls) + [id])
                        else TakeOne(Post(id, false), dedup.dedupCap, fault, old(View()))
      ensures calls == old(calls) + if id == NoId || fault.RecordFails? || id !in old(dedup.window) then [id] else []
      ensures bumps == old(bumps)
    {
      if fault.RecordFails? && id != NoId {
        trace, s' := HeardBlind(h, dedup.dedupCap, s, job, id);
      } else {
        trace, s' := Heard(h, dedup.dedupCap, s, job, id, fault);
      }
      var seen, _ := dedup.Seen(id, fault);
      if seen {
        return;
      }
      calls := calls + [id];
    }

    /** One message of a page: skip the bot's own, drop what was seen, call back for the rest; an error ends it. */
    method TakeMessage(p: Post, fault: Fault, job: nat, ghost s: State, ghost h: History)
      returns (isNew: bool, failed: bool, ghost trace: seq<Step>, ghost s': State)
      requires Shows(s) && job in s.jobs && s.jobs[job].Handling? && s.jobs[job].next < s.jobs[job].hi
      requires p == h(s.jobs[job].ch, s.jobs[job].next)
      modifies this`calls, dedup
      ensures Runs(h, dedup.dedupCap, s, trace, s') && Shows(s')
      ensures failed <==> AskFails(p, fault, old(View()))
      ensures var r := s.jobs[job];
              s'.jobs == if failed then s.jobs - {job}
                         else s.jobs[job := Handling(r.ch, r.start, r.next + 1, r.hi, r.moved)]
      ensures View() == if failed then GiveUp(p, dedup.dedupCap, fault, old(View()))
                        else TakeOne(p, dedup.dedupCap, Works, old(View()))
      ensures isNew <==> !p.own && !failed && (p.id == NoId || p.id !in old(dedup.window))
      ensures calls == old(calls) + if isNew then [p.id] else []
    {
      if AskFails(p, fault, View()) {
        trace, s' := Failed(h, dedup.dedupCap, s, job, fault);
      } else {
        trace, s' := Taken(h, dedup.dedupCap, s, job);
      }
      isNew, failed := false, false;
      if p.own {
        return;
      }
      var seen;
      seen, failed := dedup.Seen(p.id, fault);
      if failed || seen {
        return;
      }
      isNew := true;
      calls := calls + [p.id];
    }

    /** A page of a channel, message by message; a store error gives the poll up. */
    method TakePage(ch: nat, lo: nat, hi: nat, at: nat, fault: Fault, h: History, job: nat, ghost s: State)
      returns (found: nat, failed: bool, ghost trace: seq<Step>, ghost s': State)
      requires Shows(s) && lo <= hi
      requires job in s.jobs && s.jobs[job].Handling?
      requires s.jobs[job].ch == ch && s.jobs[job].next == lo && s.jobs[job].hi == hi
      modifies this`calls, dedup
      ensures Runs(h, dedup.dedupCap, s, trace, s') && Shows(s')
      ensures var r := s.jobs[job];
              s'.jobs == if failed then s.jobs - {job} else s.jobs[job := Handling(ch, r.start, hi, hi, r.moved)]
      ensures var stop := StopAt(h, dedup.dedupCap, ch, lo, hi, at, fault, old(View()));
              var taken := TakeTo(h, dedup.dedupCap, ch, lo, stop, old(View()));
              && (failed <==> stop < hi)
              && View() == if failed then GiveUp(h(ch, stop), dedup.dedupCap, fault, taken) else taken
      ensures |calls| == |old(calls)| + found
    {
      ghost var r, before := s.jobs[job], View();
      found, failed, trace, s' := 0, false, [], s;
      var n := lo;
      while n < hi
        invariant lo <= n <= StopAt(h, dedup.dedupCap, ch, lo, hi, at, fault, before)
        invariant Runs(h, dedup.dedupCap, s, trace, s') && Shows(s') && !failed
        invariant s'.jobs == s.jobs[job := Handling(ch, r.start, n, hi, r.moved)]
        invariant View() == TakeTo(h, dedup.dedupCap, ch, lo, n, before)
        invariant |calls| == |old(calls)| + found
      {
        var isNew: bool;
        ghost var more, was := [], s';
        isNew, failed, more, s' := TakeMessage(h(ch, n), if n == at then fault else Works, job, s', h);
        RunsOn(h, dedup.dedupCap, s, trace, was, more, s');
        trace := trace + more;
        if failed {
          return;
        }
        found := found + if isNew then 1 else 0;
        n := n + 1;
      }
    }

    /** A page that was taken whole: an empty one leaves the cursor, any other moves it. */
    method EndPage(ch: nat, lo: nat, hi: nat, setFails: bool, h: History, job: nat, ghost s: State)
      returns (failed: bool, ghost trace: seq<Step>, ghost s': State)
      requires Shows(s) && job in s.jobs && s.jobs[job].Handling? && s.jobs[job].ch == ch
      requires s.jobs[job].next == hi == s.jobs[job].hi && (s.jobs[job].moved <==> lo < hi) && lo <= hi
      modifies this`cursors, this`starts
      ensures Runs(h, dedup.dedupCap, s, trace, s') && Shows(s') && s'.jobs == s.jobs - {job}
      ensures Polled(View(), failed) == EndOfPage(ch, lo, hi, setFails, old(View()))
    {
      ghost var cap := dedup.dedupCap;
      RunsNone(h, cap, s);
      failed := false;
      if lo == hi {
        trace, s' := Drop(h, cap, s, [], s, job);
        return;
      }
      if setFails {
        failed := true;
        trace, s' := Drop(h, cap, s, [], s, job);
        return;
      }
      MoveCursor(ch, hi, job, s, h);
      trace, s' := Moved(h, cap, s, [], s, job);
    }

    method PollPage(ch: nat, lo: nat, hi: nat, reply: Reply, h: History, job: nat, ghost s: State)
      returns (found: nat, failed: bool, ghost trace: seq<Step>, ghost s': State)
      requires Shows(s) && job in s.jobs && reply.Page? && lo <= hi
      requires s.jobs[job].Handling? && s.jobs[job].ch == ch && s.jobs[job].next == lo && s.jobs[job].hi == hi
      requires s.jobs[job].moved <==> lo < hi
      modifies this`cursors, this`starts, this`calls, dedup
      ensures Runs(h, dedup.dedupCap, s, trace, s') && Shows(s') && s'.jobs == s.jobs - {job}
      ensures Polled(View(), failed) == AfterPage(h, dedup.dedupCap, ch, lo, hi, reply, old(View()))
      ensures |calls| == |old(calls)| + found
    {
      found, failed, trace, s' := TakePage(ch, lo, hi, reply.at, reply.fault, h, job, s);
      if failed {
        return;
      }
      ghost var more, was := [], s';
      failed, more, s' := EndPage(ch, lo, hi, reply.setFails, h, job, s');
      RunsOn(h, dedup.dedupCap, s, trace, was, more, s');
      trace := trace + more;
    }

    /** A page right after the cursor, when there is one: get it and take it. */
    method ListAndTake(ch: nat, lo: nat, hi: nat, reply: Reply, h: History, job: nat, ghost s: State)
      returns (found: nat, failed: bool, ghost trace: seq<Step>, ghost s': State)
      requires Shows(s) && job !in s.jobs && reply.Page? && lo <= hi && (ch in s.cursors ==> lo == s.cursors[ch].pos)
      modifies this`cursors, this`starts, this`calls, dedup
      ensures Runs(h, dedup.dedupCap, s, trace, s') && Shows(s') && s'.jobs == s.jobs
      ensures Polled(View(), failed) == AfterPage(h, dedup.dedupCap, ch, lo, hi, reply, old(View()))
      ensures |calls| == |old(calls)| + found
    {
      ghost var cap := dedup.dedupCap;
      ghost var first, atPage := Opened(h, cap, s, job, ch, lo, hi);
      found, failed, trace, s' := PollPage(ch, lo, hi, reply, h, job, atPage);
      RunsOn(h, cap, s, first, atPage, trace, s');
      trace := first + trace;
    }

    /** One channel: read the cursor, get a page, take its messages, move the cursor past it. */
    method PollChannel(ch: nat, reply: Reply, h: History, job: nat, ghost s: State)
      returns (found: nat, failed: bool, ghost trace: seq<Step>, ghost s': State)
      requires Shows(s) && job !in s.jobs
      modifies this`cursors, this`starts, this`calls, dedup
      ensures Runs(h, dedup.dedupCap, s, trace, s') && Shows(s') && s'.jobs == s.jobs
      ensures Polled(View(), failed) == AfterChannel(h, dedup.dedupCap, ch, reply, old(View()))
      ensures Moves(old(cursors), ch, reply, Answered(h, dedup.dedupCap, ch, reply, old(View())), cursors, failed)
      ensures |calls| == |old(calls)| + found
    {
      ChannelMoves(h, dedup.dedupCap, ch, reply, View());
      if !reply.Page? {
        RunsNone(h, dedup.dedupCap, s);
        return 0, reply.NoTurn?, [], s;
      }
      var cursor := Cursor(ch);
      var lo := if cursor.Some? then cursor.value else reply.first;
      found, failed, trace, s' := ListAndTake(ch, lo, lo + reply.length, reply, h, job, s);
    }

    /** Poll every channel once; an error ends the poll, a failed listing only skips its channel. */
    method PollAll(channels: seq<nat>, replies: seq<Reply>, h: History, job: nat, ghost s: State)
      returns (found: nat, failed: bool, ghost trace: seq<Step>, ghost s': State)
      requires Shows(s) && job !in s.jobs && |channels| == |replies|
      modifies this`cursors, this`starts, this`calls, dedup
      ensures Runs(h, dedup.dedupCap, s, trace, s') && Shows(s') && s'.jobs == s.jobs
      ensures Polled(View(), failed) == AfterPoll(h, dedup.dedupCap, channels, replies, old(View()))
      ensures Distinct(channels) ==> PollMoves(channels, replies, old(cursors), cursors, failed)
      ensures |calls| == |old(calls)| + found
    {
      PollMovesCursors(h, dedup.dedupCap, channels, replies, View());
      found, failed, trace, s' := 0, false, [], s;
      ghost var before := View();
      for i := 0 to |channels|
        invariant Runs(h, dedup.dedupCap, s, trace, s') && Shows(s') && s'.jobs == s.jobs && !failed
        invariant Polled(View(), failed) == AfterPoll(h, dedup.dedupCap, channels[..i], replies[..i], before)
        invariant |calls| == |old(calls)| + found
      {
        PollSnoc(h, dedup.dedupCap, channels, replies, before, i);
        ghost var more, was := [], s';
        var n;
        n, failed, more, s' := PollChannel(channels[i], replies[i], h, job, s');
        RunsOn(h, dedup.dedupCap, s, trace, was, more, s');
        trace := trace + more;
        found := found + n;
        if failed {
          FailureStays(h, dedup.dedupCap, channels, replies, before, i + 1);
          return;
        }
      }
      assert channels[..|channels|] == channels && replies[..|replies|] == replies;
    }

    /**
      One poll of the bot.  `channels` is what the store lists, if it can; activity
      is recorded when the poll ended well and found something, and whether the
      store could record it is ignored.
     */
    method PollOnce(channels: Option<seq<nat>>, replies: seq<Reply>, bumpFails: bool, h: History, job: nat,
                    ghost s: State)
      returns (found: nat, failed: bool, ghost trace: seq<Step>, ghost s': State)
      requires Shows(s) && job !in s.jobs && (channels.Some? ==> |channels.value| == |replies|)
      modifies this, dedup
      ensures Runs(h, dedup.dedupCap, s, trace, s') && Shows(s') && s'.jobs == s.jobs
      ensures Polled(View(), failed) == if channels.None? then Polled(old(View()), true)
                                        else AfterPoll(h, dedup.dedupCap, channels.value, replies, old(View()))
      ensures channels.None? ==> cursors == old(cursors)
      ensures channels.Some? && Distinct(channels.value) ==>
                PollMoves(channels.value, replies, old(cursors), cursors, failed)
      ensures |calls| == |old(calls)| + found
      ensures bumps == old(bumps) + if !failed && found > 0 && !bumpFails then 1 else 0
    {
      if channels.None? {
        RunsNone(h, dedup.dedupCap, s);
        return 0, true, [], s;
      }
      found, failed, trace, s' := PollAll(channels.value, replies, h, job, s);
      if !failed && found > 0 && !bumpFails {
        bumps := bumps + 1;
      }
    }
  }
}
