/**
  What one pass does to one bot, in numbers, and when bots are polled: every
  statement is about the states and the log of a run.
 */
module TierPolling {
  import opened TierSelection
  import opened TierModel
  import opened TierRun
  import opened TierTheorems

  // ----- one pass, one bot -----

  /** Idle for longer than `d`; no idle time counts as longer than the largest duration. */
  predicate IdleLonger(lastActivity: Time, now: Time, d: Duration) {
    now - lastActivity > d && d < MAX_DURATION
  }

  /** Fresh bots have been active at some time, and not longer ago than either idle window. */
  lemma FreshExactly(cfg: Config, bots: Bots, now: Time, k: Id)
    requires cfg.Ready()
    ensures k in ActiveKeys(cfg, bots, now) <==>
            && k in bots && bots[k].lastActivity != ZERO_TIME
            && !IdleLonger(bots[k].lastActivity, now, cfg.hotIdle)
            && !IdleLonger(bots[k].lastActivity, now, cfg.warmIdle)
  {}

  lemma PassEntry(cfg: Config, bots: Bots, now: Time, slots: int, bots': Bots, acts: seq<Action>, k: Id)
    returns (selected: set<Id>)
    requires cfg.Ready() && Pass(cfg, bots, now, slots, bots', acts) && k in bots
    ensures k in bots' && HotKeys(bots') == selected
    ensures bots'[k] == Settle(cfg, Rescore(cfg, bots[k], now), k in selected, now)
  {
    var first, chosen, order :| PassVia(cfg, bots, now, slots, first, chosen, order, bots', acts);
    Selected(cfg, bots, now, slots, first, chosen, order, bots', acts);
    selected := chosen;
  }

  /** When a pass touches the bot, its activity and its rate are bumped before it is scored. */
  ghost predicate TouchedBy(op: Op, k: Id) {
    op.Touch? && op.keyID == k
  }

  /**
    100 for each unit of plan weight, then up to 10 for recency, which is used up
    after HotIdle, and then the rate.
   */
  ghost predicate ScoreIs(cfg: Config, e: EntryState, idle: Duration)
    requires cfg.Ready()
  {
    var plan := 100.0 * cfg.Weight(e.bot.plan);
    && (0 <= idle <= cfg.hotIdle <= MAX_DURATION ==>
          e.score == plan + 10.0 * (1.0 - idle as real / cfg.hotIdle as real) + e.rate)
    && (cfg.hotIdle <= idle <= MAX_DURATION ==> e.score == plan + e.rate)
  }

  lemma RecencyInNumbers(cfg: Config, idle: Duration)
    requires cfg.hotIdle > 0
    ensures 0 <= idle <= cfg.hotIdle ==> Recency(cfg, idle) == 1.0 - idle as real / cfg.hotIdle as real
    ensures cfg.hotIdle <= idle ==> Recency(cfg, idle) == 0.0
  {
    if idle >= cfg.hotIdle {
      AtLeastOne(idle as real, cfg.hotIdle as real);
    }
    if 0 <= idle <= cfg.hotIdle {
      AtMostOne(idle as real, cfg.hotIdle as real);
    }
  }

  lemma ScoreInNumbers(cfg: Config, e: EntryState, idle: Duration, r: real)
    requires cfg.Ready() && e.score == cfg.Weight(e.bot.plan) * 100.0 + r * 10.0 + e.rate
    requires 0 <= idle <= cfg.hotIdle <= MAX_DURATION ==> r == 1.0 - idle as real / cfg.hotIdle as real
    requires cfg.hotIdle <= idle <= MAX_DURATION ==> r == 0.0
    ensures ScoreIs(cfg, e, idle)
  {}

  /** One entry through a pass: the decayed rate, and the score. */
  lemma EntryInNumbers(cfg: Config, e: EntryState, selected: bool, now: Time)
    requires cfg.Ready()
    ensures var e' := Settle(cfg, Rescore(cfg, e, now), selected, now);
            && e'.bot == e.bot && e'.lastActivity == e.lastActivity
            && e'.rate == 0.9 * e.rate && ScoreIs(cfg, e', now - e.lastActivity)
  {
    var idle := now - e.lastActivity;
    var age := Since(now, e.lastActivity);
    RecencyInNumbers(cfg, age);
    assert 0 <= idle <= MAX_DURATION ==> age == idle;
    ScoreInNumbers(cfg, Settle(cfg, Rescore(cfg, e, now), selected, now), idle, Recency(cfg, age));
  }

  /** What a pass makes of one bot it finds: nine tenths of the rate, and the score in numbers. */
  lemma PassScores(cfg: Config, bots: Bots, now: Time, slots: int, bots': Bots, acts: seq<Action>, k: Id)
    requires cfg.Ready() && Pass(cfg, bots, now, slots, bots', acts) && k in bots
    ensures k in bots' && bots'[k].bot == bots[k].bot && bots'[k].lastActivity == bots[k].lastActivity
    ensures bots'[k].rate == 0.9 * bots[k].rate && ScoreIs(cfg, bots'[k], now - bots'[k].lastActivity)
  {
    var selected := PassEntry(cfg, bots, now, slots, bots', acts, k);
    EntryInNumbers(cfg, bots[k], k in selected, now);
  }

  /** A pass decays the rate by a tenth, after the touch if there is one. */
  lemma PassDecays(cfg: Config, s: State, op: Op, s': State, k: Id)
    requires cfg.Ready() && IsPass(op) && Step(cfg, s, op, s') && k in s.bots
    ensures k in s'.bots && s'.bots[k].bot == s.bots[k].bot
    ensures s'.bots[k].lastActivity == if TouchedBy(op, k) then op.now else s.bots[k].lastActivity
    ensures s'.bots[k].rate == 0.9 * if TouchedBy(op, k) then 0.7 * s.bots[k].rate + 1.0 else s.bots[k].rate
  {
    var acts := PassStepOf(cfg, s, op, s');
    BeforePass(s, op, k);
    PassScores(cfg, PassBots(s, op), op.now, s'.slots, s'.bots, acts, k);
  }

  lemma BeforePass(s: State, op: Op, k: Id)
    requires IsPass(op) && k in s.bots
    ensures k in PassBots(s, op) && PassBots(s, op)[k].bot == s.bots[k].bot
    ensures PassBots(s, op)[k].lastActivity == if TouchedBy(op, k) then op.now else s.bots[k].lastActivity
    ensures PassBots(s, op)[k].rate == if TouchedBy(op, k) then 0.7 * s.bots[k].rate + 1.0 else s.bots[k].rate
  {}

  lemma AtLeastOne(a: real, h: real)
    requires a >= h > 0.0
    ensures a / h >= 1.0
  {}

  lemma AtMostOne(a: real, h: real)
    requires 0.0 <= a <= h && h > 0.0
    ensures a / h <= 1.0
  {}

  lemma SettledTier(cfg: Config, e: EntryState, now: Time)
    requires cfg.Ready()
    ensures var e' := Settle(cfg, e, false, now);
            && (e'.tier.Cold? <==> e.lastActivity == ZERO_TIME || IdleLonger(e.lastActivity, now, cfg.warmIdle))
            && !e'.tier.Hot? && e'.lastActivity == e.lastActivity
  {}

  /**
    A bot that a pass leaves without a socket is Cold exactly when it was never
    active or has been idle for longer than WarmIdle, and Warm otherwise.
   */
  lemma PassDemotes(cfg: Config, s: State, op: Op, s': State, k: Id)
    requires cfg.Ready() && IsPass(op) && Step(cfg, s, op, s') && k in s.bots && k !in HotKeys(s'.bots)
    ensures k in s'.bots
    ensures var e' := s'.bots[k];
            && (e'.tier.Cold? <==>
                  e'.lastActivity == ZERO_TIME || IdleLonger(e'.lastActivity, op.now, cfg.warmIdle))
            && (e'.tier.Warm? <==> !e'.tier.Cold?)
  {
    var acts := PassStepOf(cfg, s, op, s');
    var _ := PassEntry(cfg, PassBots(s, op), op.now, s'.slots, s'.bots, acts, k);
    SettledTier(cfg, Rescore(cfg, PassBots(s, op)[k], op.now), op.now);
  }

  /** A pass polls a bot exactly when it leaves it without a socket and its poll is due. */
  lemma PassPollsExactly(cfg: Config, s: State, op: Op, s': State, k: Id)
    requires cfg.Ready() && IsPass(op) && Step(cfg, s, op, s') && Inv(cfg, s) && k in s.bots
    ensures k in s'.bots
    ensures var polled := k !in HotKeys(s'.bots) && op.now >= s.bots[k].nextPoll;
            && PollTimes(s'.log, k) == PollTimes(s.log, k) + (if polled then [op.now] else [])
            && (!polled ==> s'.bots[k].nextPoll == s.bots[k].nextPoll)
            && (polled && s'.bots[k].tier.Warm? ==> s'.bots[k].nextPoll == op.now + cfg.warmPoll)
            && (polled && s'.bots[k].tier.Cold? ==> s'.bots[k].nextPoll == op.now + cfg.coldPoll)
  {
    var acts := PassStepOf(cfg, s, op, s');
    var bots := PassBots(s, op);
    PassBotsReady(s, op);
    var _ := PassEntry(cfg, bots, op.now, s'.slots, s'.bots, acts, k);
    PassLogs(cfg, s.log, bots, op.now, s'.slots, s'.bots, acts, k);
  }

  // ----- polls over a run -----

  /** Step i of the run is a pass that polls bot k. */
  ghost predicate PolledAt(states: seq<State>, ops: seq<Op>, i: int, k: Id)
    requires |states| == |ops| + 1 && 0 <= i < |ops|
  {
    IsPass(ops[i]) && |PollTimes(states[i + 1].log, k)| > |PollTimes(states[i].log, k)|
  }

  /** From state i to state j, bot k stays registered and is not polled. */
  ghost predicate QuietBetween(states: seq<State>, ops: seq<Op>, i: int, j: int, k: Id)
    requires |states| == |ops| + 1 && 0 <= i <= j <= |ops|
  {
    forall m :: i <= m < j ==> !PolledAt(states, ops, m, k) && !(ops[m].Remove? && ops[m].keyID == k)
  }

  lemma OtherOpKeepsPolls(cfg: Config, s: State, op: Op, s': State, k: Id)
    requires cfg.Ready() && !IsPass(op) && Step(cfg, s, op, s') && Inv(cfg, s) && k in s.bots
    requires !(op.Remove? && op.keyID == k)
    ensures k in s'.bots && s'.bots[k].nextPoll == s.bots[k].nextPoll && PollTimes(s'.log, k) == PollTimes(s.log, k)
  {
    if s'.log != s.log {
      var e := s'.log[|s.log|];
      assert s'.log == s.log + [e];
      LastEntry(s.log, e);
    }
  }

  lemma RunStep(cfg: Config, states: seq<State>, ops: seq<Op>, m: nat)
    requires cfg.Ready() && Run(cfg, states, ops) && m < |ops|
    ensures Step(cfg, states[m], ops[m], states[m + 1]) && Inv(cfg, states[m])
  {
    ReachableInv(cfg, states, ops, m);
    assert StepAt(cfg, states, ops, m);
  }

  lemma QuietStep(cfg: Config, s: State, op: Op, s': State, k: Id)
    requires cfg.Ready() && Step(cfg, s, op, s') && Inv(cfg, s) && k in s.bots && !(op.Remove? && op.keyID == k)
    requires !(IsPass(op) && |PollTimes(s'.log, k)| > |PollTimes(s.log, k)|)
    ensures k in s'.bots && s'.bots[k].nextPoll == s.bots[k].nextPoll
  {
    if IsPass(op) {
      PassPollsExactly(cfg, s, op, s', k);
    } else {
      OtherOpKeepsPolls(cfg, s, op, s', k);
    }
  }

  lemma {:induction false} DueTimeStays(cfg: Config, states: seq<State>, ops: seq<Op>, i: nat, j: nat, k: Id)
    requires cfg.Ready() && Run(cfg, states, ops) && i <= j <= |ops|
    requires k in states[i].bots && QuietBetween(states, ops, i, j, k)
    ensures k in states[j].bots && states[j].bots[k].nextPoll == states[i].bots[k].nextPoll
    decreases j
  {
    if i < j {
      var m := j - 1;
      DueTimeStays(cfg, states, ops, i, m, k);
      assert !PolledAt(states, ops, m, k);
      QuietAt(cfg, states, ops, m, k);
    }
  }

  lemma QuietAt(cfg: Config, states: seq<State>, ops: seq<Op>, m: nat, k: Id)
    requires cfg.Ready() && Run(cfg, states, ops) && m < |ops| && k in states[m].bots
    requires !PolledAt(states, ops, m, k) && !(ops[m].Remove? && ops[m].keyID == k)
    ensures k in states[m + 1].bots && states[m + 1].bots[k].nextPoll == states[m].bots[k].nextPoll
  {
    RunStep(cfg, states, ops, m);
    QuietStep(cfg, states[m], ops[m], states[m + 1], k);
  }

  /** One pass of a run: whether it polls the bot, and when the bot is due next. */
  lemma PassAt(cfg: Config, states: seq<State>, ops: seq<Op>, i: nat, k: Id)
    requires cfg.Ready() && Run(cfg, states, ops) && i < |ops| && IsPass(ops[i]) && k in states[i].bots
    ensures k in states[i + 1].bots
    ensures PolledAt(states, ops, i, k)
       <==> k !in HotKeys(states[i + 1].bots) && ops[i].now >= states[i].bots[k].nextPoll
    ensures PolledAt(states, ops, i, k) ==>
              var e := states[i + 1].bots[k];
              !e.tier.Hot? && e.nextPoll == ops[i].now + if e.tier.Cold? then cfg.coldPoll else cfg.warmPoll
  {
    RunStep(cfg, states, ops, i);
    PassPollsExactly(cfg, states[i], ops[i], states[i + 1], k);
  }

  /** A pass polls a bot exactly from its due time on, while it has no socket. */
  lemma PolledFromDueTime(cfg: Config, states: seq<State>, ops: seq<Op>, i: nat, j: nat, k: Id, due: Time)
    requires cfg.Ready() && Run(cfg, states, ops) && i <= j < |ops| && IsPass(ops[j])
    requires k in states[i].bots && states[i].bots[k].nextPoll == due && QuietBetween(states, ops, i, j, k)
    ensures PolledAt(states, ops, j, k) <==> k !in HotKeys(states[j + 1].bots) && ops[j].now >= due
  {
    DueTimeStays(cfg, states, ops, i, j, k);
    PassAt(cfg, states, ops, j, k);
  }

  lemma PassKeepsKeys(cfg: Config, bots: Bots, now: Time, slots: int, bots': Bots, acts: seq<Action>)
    requires cfg.Ready() && Pass(cfg, bots, now, slots, bots', acts)
    ensures bots'.Keys == bots.Keys
  {}

  lemma PollNeedsBot(cfg: Config, s: State, op: Op, s': State, k: Id)
    requires cfg.Ready() && IsPass(op) && Step(cfg, s, op, s') && PollsOk(cfg, s'.bots, s'.log)
    requires PollTimes(s'.log, k) != []
    ensures k in s.bots
  {
    var acts := PassStepOf(cfg, s, op, s');
    PassKeepsKeys(cfg, PassBots(s, op), op.now, s'.slots, s'.bots, acts);
  }

  /** Only registered bots are polled. */
  lemma PolledIsRegistered(cfg: Config, states: seq<State>, ops: seq<Op>, i: nat, k: Id)
    requires cfg.Ready() && Run(cfg, states, ops) && i < |ops| && PolledAt(states, ops, i, k)
    ensures k in states[i].bots
  {
    RunStep(cfg, states, ops, i);
    ReachableInv(cfg, states, ops, i + 1);
    PollNeedsBot(cfg, states[i], ops[i], states[i + 1], k);
  }

  lemma DueAfterPoll(cfg: Config, states: seq<State>, ops: seq<Op>, i: nat, k: Id) returns (gap: Duration)
    requires cfg.Ready() && Run(cfg, states, ops) && i < |ops| && PolledAt(states, ops, i, k)
    ensures k in states[i + 1].bots && !states[i + 1].bots[k].tier.Hot?
    ensures gap == if states[i + 1].bots[k].tier.Cold? then cfg.coldPoll else cfg.warmPoll
    ensures states[i + 1].bots[k].nextPoll == ops[i].now + gap
  {
    PolledIsRegistered(cfg, states, ops, i, k);
    PassAt(cfg, states, ops, i, k);
    gap := if states[i + 1].bots[k].tier.Cold? then cfg.coldPoll else cfg.warmPoll;
  }

  /**
    The next poll, exactly.  Once a pass has polled a bot and left it Cold, the
    next one to poll that registration is the first pass at least ColdPoll later
    that leaves it without a socket; and WarmPoll later when it was left Warm.
   */
  lemma NextPollExact(cfg: Config, states: seq<State>, ops: seq<Op>, i: nat, j: nat, k: Id) returns (gap: Duration)
    requires cfg.Ready() && Run(cfg, states, ops) && i < j < |ops| && IsPass(ops[j])
    requires PolledAt(states, ops, i, k) && QuietBetween(states, ops, i + 1, j, k)
    ensures k in states[i + 1].bots && !states[i + 1].bots[k].tier.Hot?
    ensures gap == if states[i + 1].bots[k].tier.Cold? then cfg.coldPoll else cfg.warmPoll
    ensures PolledAt(states, ops, j, k)
       <==> k !in HotKeys(states[j + 1].bots) && ops[j].now >= ops[i].now + gap
  {
    gap := DueAfterPoll(cfg, states, ops, i, k);
    PolledFromDueTime(cfg, states, ops, i + 1, j, k, ops[i].now + gap);
  }

  /** The first poll of a registration: the first pass at or after the time it was added that gives it no socket. */
  lemma FirstPollExact(cfg: Config, states: seq<State>, ops: seq<Op>, i: nat, j: nat, k: Id)
    requires cfg.Ready() && Run(cfg, states, ops) && i < j < |ops| && IsPass(ops[j])
    requires ops[i].Add? && ops[i].bot.keyID == k && k !in states[i].bots && QuietBetween(states, ops, i + 1, j, k)
    ensures PolledAt(states, ops, j, k)
       <==> k !in HotKeys(states[j + 1].bots) && ops[j].now >= ops[i].pollAt
  {
    assert StepAt(cfg, states, ops, i);
    PolledFromDueTime(cfg, states, ops, i + 1, j, k, ops[i].pollAt);
  }

  /** While nobody adds a bot, it is not registered, holds no socket, and is not polled. */
  ghost predicate Gone(s: State, k: Id) {
    k !in s.bots && k !in Replay(s.log) && PollTimes(s.log, k) == []
  }

  lemma StaysGone(cfg: Config, s: State, op: Op, s': State, k: Id)
    requires cfg.Ready() && Inv(cfg, s) && Inv(cfg, s') && Step(cfg, s, op, s')
    requires k !in s.bots && !(op.Add? && op.bot.keyID == k)
    ensures k !in s'.bots
  {
    if IsPass(op) {
      var acts := PassStepOf(cfg, s, op, s');
      PassKeepsKeys(cfg, PassBots(s, op), op.now, s'.slots, s'.bots, acts);
    }
  }

  lemma UnknownIsGone(cfg: Config, s: State, k: Id)
    requires Inv(cfg, s) && k !in s.bots
    ensures Gone(s, k)
  {
    assert k !in HotKeys(s.bots);
  }

  /** A removed bot is gone, with its socket, until it is added again. */
  lemma {:induction false} RemovedIsGone(cfg: Config, states: seq<State>, ops: seq<Op>, i: nat, j: nat, k: Id)
    requires cfg.Ready() && Run(cfg, states, ops) && i < j <= |ops| && ops[i] == Remove(k)
    requires forall m :: i < m < j ==> !(ops[m].Add? && ops[m].bot.keyID == k)
    ensures Gone(states[j], k)
    decreases j
  {
    var m := j - 1;
    RunStep(cfg, states, ops, m);
    ReachableInv(cfg, states, ops, j);
    if i < m {
      RemovedIsGone(cfg, states, ops, i, m, k);
      StaysGone(cfg, states[m], ops[m], states[j], k);
    }
    UnknownIsGone(cfg, states[j], k);
  }

  // ----- sockets for new bots, and fewer of them under pressure -----

  lemma NewBotIsFresh(cfg: Config, s0: State, add: Op, s: State, op: Op, s': State)
    requires cfg.Ready() && add.Add? && Step(cfg, s0, add, s) && IsPass(op) && Step(cfg, s, op, s')
    requires add.bot.keyID !in s0.bots && add.activeAt != ZERO_TIME && op.now != ZERO_TIME
    requires op.now - add.activeAt <= cfg.hotIdle && op.now - add.activeAt <= cfg.warmIdle
    ensures var k := add.bot.keyID;
            && k in s.bots && k !in HotKeys(s.bots)
            && k in s'.bots && s'.bots[k].bot == add.bot && k in ActiveKeys(cfg, s'.bots, op.now)
  {
    PassDecays(cfg, s, op, s', add.bot.keyID);
    FreshExactly(cfg, s'.bots, op.now, add.bot.keyID);
  }

  /** A fresh bot gets a socket when the budget and its tenant's cap have room for all fresh bots. */
  lemma FreshBotGetsSocket(cfg: Config, states: seq<State>, ops: seq<Op>, i: nat, k: Id)
    requires cfg.Ready() && Run(cfg, states, ops) && i < |ops| && IsPass(ops[i])
    requires 148 * (states[i].clock - ops[i].now) <= cfg.hotIdle
    requires k in ActiveKeys(cfg, states[i + 1].bots, ops[i].now)
    requires var bots := states[i + 1].bots;
             var active := ActiveKeys(cfg, bots, ops[i].now);
             && |active| <= states[i + 1].slots
             && (cfg.hotPerTenant > 0 ==> |OfTenant(PoolOf(bots), active, bots[k].bot.tenantID)| <= cfg.hotPerTenant)
    ensures k in HotKeys(states[i + 1].bots)
  {
    var bots := states[i + 1].bots;
    if k !in HotKeys(bots) {
      var rivals := NoPlanInversion(cfg, states, ops, i, k);
      RoomForOneMore(PoolOf(bots), rivals, ActiveKeys(cfg, bots, ops[i].now), k, states[i + 1].slots, cfg.hotPerTenant);
    }
  }

  /**
    No cold-start deadlock: a bot that was just added gets a socket in a pass
    within both idle windows, when there is room for all fresh bots.
   */
  lemma NewBotGetsSocket(cfg: Config, states: seq<State>, ops: seq<Op>, i: nat)
    requires cfg.Ready() && Run(cfg, states, ops) && i + 1 < |ops| && IsPass(ops[i + 1])
    requires ops[i].Add? && ops[i].bot.keyID !in states[i].bots && ops[i].activeAt != ZERO_TIME
    requires var now := ops[i + 1].now;
             && now != ZERO_TIME && 148 * (states[i + 1].clock - now) <= cfg.hotIdle
             && now - ops[i].activeAt <= cfg.hotIdle && now - ops[i].activeAt <= cfg.warmIdle
    requires var bots := states[i + 2].bots;
             var active := ActiveKeys(cfg, bots, ops[i + 1].now);
             && |active| <= states[i + 2].slots
             && (cfg.hotPerTenant > 0 ==>
                   |OfTenant(PoolOf(bots), active, ops[i].bot.tenantID)| <= cfg.hotPerTenant)
    ensures ops[i].bot.keyID !in Replay(states[i + 1].log) && ops[i].bot.keyID in Replay(states[i + 2].log)
  {
    var k := ops[i].bot.keyID;
    assert StepAt(cfg, states, ops, i) && StepAt(cfg, states, ops, i + 1);
    NewBotIsFresh(cfg, states[i], ops[i], states[i + 1], ops[i + 1], states[i + 2]);
    FreshBotGetsSocket(cfg, states, ops, i + 1, k);
    LogShowsSockets(cfg, states, ops, i + 1);
    LogShowsSockets(cfg, states, ops, i + 2);
  }

  lemma LogShowsSockets(cfg: Config, states: seq<State>, ops: seq<Op>, i: nat)
    requires cfg.Ready() && Run(cfg, states, ops) && i < |states|
    ensures Replay(states[i].log) == HotKeys(states[i].bots)
  {
    ReachableInv(cfg, states, ops, i);
  }

  lemma RoomForOneMore(pool: Pool, rivals: set<Id>, active: set<Id>, k: Id, slots: int, cap: int)
    requires rivals <= active <= pool.Keys && k in active && k !in rivals && |active| <= slots
    requires cap > 0 ==> |OfTenant(pool, active, pool[k].tenant)| <= cap
    ensures !Crowded(pool, rivals, pool[k].tenant, slots, cap)
  {
    var t := pool[k].tenant;
    SubsetSize(rivals, active - {k});
    SubsetSize(OfTenant(pool, rivals, t), OfTenant(pool, active, t) - {k});
    assert k in OfTenant(pool, active, t);
  }

  /** No pass leaves more hot bots than the pressure cap under memory pressure, or than MaxHot without it. */
  lemma PressureLimits(cfg: Config, s: State, op: Op, s': State)
    requires cfg.Ready() && IsPass(op) && Step(cfg, s, op, s')
    ensures cfg.memHighMB > 0 && op.memMB >= cfg.memHighMB ==>
              |HotKeys(s'.bots)| <= if cfg.pressureHotCap < 0 then 0 else cfg.pressureHotCap
    ensures cfg.memHighMB == 0 || op.memMB < cfg.memHighMB ==> |HotKeys(s'.bots)| <= cfg.maxHot
    ensures !(cfg.memHighMB > 0 && op.memMB >= cfg.memHighMB) ==> s'.slots == cfg.maxHot
    ensures cfg.memHighMB > 0 && op.memMB >= cfg.memHighMB ==> s'.slots == cfg.pressureHotCap
  {
    PassAllocatesExactly(cfg, s, op, s');
    var _ := PassStepOf(cfg, s, op, s');
  }

  /** Settings that are not positive fall back to the documented ones. */
  lemma DefaultsExact(cfg: Config)
    ensures var d := cfg.WithDefaults();
            && d.Ready()
            && d.warmPoll == (if cfg.warmPoll > 0 then cfg.warmPoll else 20 * SECOND)
            && d.coldPoll == (if cfg.coldPoll > 0 then cfg.coldPoll else 180 * SECOND)
            && d.hotIdle == (if cfg.hotIdle > 0 then cfg.hotIdle else 120 * SECOND)
            && d.warmIdle == (if cfg.warmIdle > 0 then cfg.warmIdle else 600 * SECOND)
            && d.maxHot == (if cfg.maxHot > 0 then cfg.maxHot else 200)
            && (cfg.planWeight.Unset? ==>
                  d.Weight("starter") == 1.0 && d.Weight("pro") == 2.0 && d.Weight("enterprise") == 3.0)
            && (cfg.planWeight.Weights? ==> d.planWeight == cfg.planWeight)
            && d.pressureHotCap == cfg.pressureHotCap && d.hotPerTenant == cfg.hotPerTenant
            && d.memHighMB == cfg.memHighMB
  {}
}
