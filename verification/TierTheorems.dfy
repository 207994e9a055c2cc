/**
  What a user of the tier manager can rely on, for every pass of every run.
 */
module TierTheorems {
  import opened TierSelection
  import opened TierModel
  import opened TierRun

  ghost predicate IsPass(op: Op) {
    op.Touch? || op.Rebalance?
  }

  ghost predicate NonNegativeWeights(cfg: Config)
    requires cfg.planWeight.Weights?
  {
    forall p :: cfg.Weight(p) >= 0.0
  }

  ghost function PassBots(s: State, op: Op): Bots
    requires IsPass(op)
  {
    if op.Touch? then TouchBot(s.bots, op.keyID, op.now) else s.bots
  }

  lemma PassStepOf(cfg: Config, s: State, op: Op, s': State) returns (acts: seq<Action>)
    requires cfg.Ready() && IsPass(op) && Step(cfg, s, op, s')
    ensures Pass(cfg, PassBots(s, op), op.now, cfg.Slots(op.memMB), s'.bots, acts)
    ensures s'.log == s.log + Stamped(acts, op.now) && s'.slots == cfg.Slots(op.memMB)
  {
    acts :| Pass(cfg, PassBots(s, op), op.now, cfg.Slots(op.memMB), s'.bots, acts)
            && s' == State(s'.bots, s.log + Stamped(acts, op.now), cfg.Slots(op.memMB), Later(s.clock, op.now));
  }

  /**
    Every pass fills exactly the slots that the budget and the tenant caps
    allow, and gives fresh bots exactly as many as they could have on their own:
    an idle bot never displaces a fresh one.
   */
  lemma PassAllocatesExactly(cfg: Config, s: State, op: Op, s': State)
    requires cfg.Ready() && IsPass(op) && Step(cfg, s, op, s')
    ensures var pool, hot, active := PoolOf(s'.bots), HotKeys(s'.bots), ActiveKeys(cfg, s'.bots, op.now);
            var slots := if s'.slots < 0 then 0 else s'.slots;
            && |hot| == Min(slots, Capacity(pool, pool.Keys, cfg.hotPerTenant))
            && |active * hot| == Min(slots, Capacity(pool, active, cfg.hotPerTenant))
  {
    var acts := PassStepOf(cfg, s, op, s');
    PassOutcome(cfg, PassBots(s, op), op.now, s'.slots, s'.bots, acts);
    var hot, active := HotKeys(s'.bots), ActiveKeys(cfg, s'.bots, op.now);
    SelectionExact(PoolOf(s'.bots), active, s'.slots, cfg.hotPerTenant, active * hot, hot);
  }

  lemma PassScoresNonNegative(cfg: Config, s: State, op: Op, s': State)
    requires cfg.Ready() && IsPass(op) && Step(cfg, s, op, s') && Inv(cfg, s) && NonNegativeWeights(cfg)
    ensures NonNegative(PoolOf(s'.bots))
  {
    var acts := PassStepOf(cfg, s, op, s');
    PassOutcome(cfg, PassBots(s, op), op.now, s'.slots, s'.bots, acts);
    ScoresNonNegative(cfg, PassBots(s, op), op.now);
  }

  /**
    In every run, no feasible set of fresh bots scores more in total than the
    fresh bots a pass makes hot, and no feasible extension of those scores more
    than the whole hot set.
   */
  lemma PassIsOptimal(cfg: Config, states: seq<State>, ops: seq<Op>, i: nat, t: set<Id>)
    requires cfg.Ready() && Run(cfg, states, ops) && i < |ops| && IsPass(ops[i]) && NonNegativeWeights(cfg)
    requires Feasible(PoolOf(states[i + 1].bots), t, states[i + 1].slots, cfg.hotPerTenant)
    ensures var bots := states[i + 1].bots;
            var pool, hot, active := PoolOf(bots), HotKeys(bots), ActiveKeys(cfg, bots, ops[i].now);
            && (t <= active ==> TotalScore(pool, t) <= TotalScore(pool, active * hot))
            && (active * hot <= t ==> TotalScore(pool, t) <= TotalScore(pool, hot))
  {
    var s, op, s' := states[i], ops[i], states[i + 1];
    ReachableInv(cfg, states, ops, i);
    assert StepAt(cfg, states, ops, i);
    var acts := PassStepOf(cfg, s, op, s');
    PassOutcome(cfg, PassBots(s, op), op.now, s'.slots, s'.bots, acts);
    PassScoresNonNegative(cfg, s, op, s');
    var pool, hot, active := PoolOf(s'.bots), HotKeys(s'.bots), ActiveKeys(cfg, s'.bots, op.now);
    if t <= active {
      FreshChoiceOptimal(pool, active, s'.slots, cfg.hotPerTenant, active * hot, hot, t);
    }
    if active * hot <= t {
      SpareFillOptimal(pool, active, s'.slots, cfg.hotPerTenant, active * hot, hot, t);
    }
  }

  /** `rivals` use up the whole budget, or the whole cap of `tenant`. */
  ghost predicate Crowded(pool: Pool, rivals: set<Id>, tenant: Id, slots: int, cap: int)
    requires rivals <= pool.Keys
  {
    |rivals| >= slots || (cap > 0 && |OfTenant(pool, rivals, tenant)| >= cap)
  }

  lemma PassBotsReady(s: State, op: Op)
    requires IsPass(op) && EntriesOk(s.bots, s.clock)
    ensures PassReady(s, PassBots(s, op), op.now)
  {
    if op.Touch? {
      TouchReady(s, op.keyID, op.now);
    } else {
      RebalanceReady(s, op.now);
    }
  }

  lemma PassKeepsBot(cfg: Config, bots: Bots, now: Time, slots: int, bots': Bots, acts: seq<Action>, k: Id)
    requires cfg.Ready() && Pass(cfg, bots, now, slots, bots', acts) && k in bots'
    ensures k in bots && bots'[k].bot == bots[k].bot && bots'[k].score == Rescore(cfg, bots[k], now).score
  {}

  /** In a pass whose clock reading is not far behind, an equal or better score means at most 1/8 less plan weight. */
  lemma ScoreFollowsPlan(cfg: Config, s: State, op: Op, s': State, j: Id, k: Id)
    requires cfg.Ready() && IsPass(op) && Step(cfg, s, op, s') && EntriesOk(s.bots, s.clock)
    requires 148 * (s.clock - op.now) <= cfg.hotIdle
    requires j in s'.bots && k in s'.bots && s'.bots[j].score >= s'.bots[k].score
    ensures cfg.Weight(s'.bots[j].bot.plan) > cfg.Weight(s'.bots[k].bot.plan) - 0.125
  {
    var acts := PassStepOf(cfg, s, op, s');
    var bots := PassBots(s, op);
    PassKeepsBot(cfg, bots, op.now, s'.slots, s'.bots, acts, j);
    PassKeepsBot(cfg, bots, op.now, s'.slots, s'.bots, acts, k);
    PassBotsReady(s, op);
    if cfg.Weight(bots[k].bot.plan) >= cfg.Weight(bots[j].bot.plan) + 0.125 {
      PlanGapDecides(cfg, bots[k], bots[j], op.now);
    }
  }

  /**
    No plan inversion, in any run: a fresh bot that a pass leaves without a
    socket faces rivals that are fresh and hot, score at least as high, use up
    the budget or its tenant's cap, and none of which is on a lower plan (1/8
    of weight or more below).  The pass may read a clock up to HotIdle/148
    behind the latest reading; a clock that never steps back is well within it.
   */
  lemma NoPlanInversion(cfg: Config, states: seq<State>, ops: seq<Op>, i: nat, k: Id)
    returns (rivals: set<Id>)
    requires cfg.Ready() && Run(cfg, states, ops) && i < |ops| && IsPass(ops[i])
    requires 148 * (states[i].clock - ops[i].now) <= cfg.hotIdle
    requires var bots := states[i + 1].bots;
             k in ActiveKeys(cfg, bots, ops[i].now) && k !in HotKeys(bots)
    ensures var bots := states[i + 1].bots;
            && rivals <= ActiveKeys(cfg, bots, ops[i].now) * HotKeys(bots)
            && Crowded(PoolOf(bots), rivals, bots[k].bot.tenantID, states[i + 1].slots, cfg.hotPerTenant)
            && (forall j <- rivals :: && bots[j].score >= bots[k].score
                                      && cfg.Weight(bots[j].bot.plan) > cfg.Weight(bots[k].bot.plan) - 0.125)
  {
    var s, op, s' := states[i], ops[i], states[i + 1];
    ReachableInv(cfg, states, ops, i);
    assert StepAt(cfg, states, ops, i);
    var acts := PassStepOf(cfg, s, op, s');
    PassOutcome(cfg, PassBots(s, op), op.now, s'.slots, s'.bots, acts);
    var pool, hot, active := PoolOf(s'.bots), HotKeys(s'.bots), ActiveKeys(cfg, s'.bots, op.now);
    rivals := NoEnvy(pool, active, hot, s'.slots, cfg.hotPerTenant, k);
    forall j <- rivals
      ensures s'.bots[j].score >= s'.bots[k].score
      ensures cfg.Weight(s'.bots[j].bot.plan) > cfg.Weight(s'.bots[k].bot.plan) - 0.125
    {
      assert pool[j].score >= pool[k].score;
      ScoreFollowsPlan(cfg, s, op, s', j, k);
    }
  }

  lemma NoEnvy(pool: Pool, active: set<Id>, hot: set<Id>, slots: int, cap: int, k: Id)
    returns (rivals: set<Id>)
    requires Selection(pool, active, slots, cap, active * hot, hot) && k in pool && k in active && k !in hot
    ensures rivals <= active * hot && rivals <= pool.Keys && Crowded(pool, rivals, pool[k].tenant, slots, cap)
    ensures forall j <- rivals :: pool[j].score >= pool[k].score
  {
    SelectionFair(pool, active, slots, cap, active * hot, hot, k);
    rivals := Above(pool, active * hot, {}, k);
  }

  /** With a clock that never steps back, every pass reads a time no earlier than any before it. */
  lemma {:induction false} ClockNeverBehind(cfg: Config, states: seq<State>, ops: seq<Op>, i: nat, now: Time)
    requires cfg.Ready() && Run(cfg, states, ops) && i < |states|
    requires now >= 0 && forall j :: 0 <= j < i ==> LatestReading(ops[j]) <= now
    ensures states[i].clock <= now
    decreases i
  {
    if i > 0 {
      ClockNeverBehind(cfg, states, ops, i - 1, now);
      assert StepAt(cfg, states, ops, i - 1);
      if IsPass(ops[i - 1]) {
        assert states[i].clock == Later(states[i - 1].clock, ops[i - 1].now);
      }
    }
  }

  function LatestReading(op: Op): Time {
    match op
    case Add(_, _, activeAt) => activeAt
    case Touch(_, now, _) => now
    case Rebalance(now, _) => now
    case _ => 0
  }

  // ----- polling -----

  lemma {:induction false} SpacedApart(ts: seq<Time>, gap: Duration, i: nat, j: nat)
    requires Spaced(ts, gap) && i <= j < |ts|
    ensures ts[j] - ts[i] >= (j - i) * gap
    decreases j
  {
    if i < j {
      SpacedApart(ts, gap, i, j - 1);
      assert (j - i) * gap == (j - 1 - i) * gap + gap;
    }
  }

  /**
    One registration of a bot is polled at most 1 + window / min(WarmPoll,
    ColdPoll) times in any window.
   */
  lemma PollsPerWindow(cfg: Config, states: seq<State>, ops: seq<Op>, n: nat, k: Id, i: nat, j: nat, window: Duration)
    requires cfg.Ready() && Run(cfg, states, ops) && n < |states|
    requires var ts := PollTimes(states[n].log, k); i <= j < |ts| && ts[j] - ts[i] <= window
    ensures j - i + 1 <= 1 + window / cfg.MinPoll()
  {
    ReachableInv(cfg, states, ops, n);
    SpacedApart(PollTimes(states[n].log, k), cfg.MinPoll(), i, j);
    QuotientBound(j - i, cfg.MinPoll(), window);
  }

  lemma QuotientBound(n: nat, gap: int, window: int)
    requires gap > 0 && n * gap <= window
    ensures n <= window / gap
  {
    assert window < (window / gap + 1) * gap;
    CancelGap(n, window / gap + 1, gap);
  }

  lemma CancelGap(a: int, b: int, gap: int)
    requires gap > 0 && a * gap < b * gap
    ensures a < b
  {}

  lemma DueBy(cfg: Config, bots: Bots, log: seq<LogEntry>, k: Id)
    requires PollsOk(cfg, bots, log) && k in bots && PollTimes(log, k) != []
    ensures var ts := PollTimes(log, k); bots[k].nextPoll <= ts[|ts| - 1] + cfg.MaxPoll()
  {
    assert Paced(cfg, bots[k], PollTimes(log, k));
  }

  /** A pass at least max(WarmPoll, ColdPoll) after a bot's last poll polls it, unless the bot is hot. */
  lemma OverdueBotIsPolled(cfg: Config, states: seq<State>, ops: seq<Op>, i: nat, k: Id)
    requires cfg.Ready() && Run(cfg, states, ops) && i < |ops| && IsPass(ops[i])
    requires k in states[i].bots && k !in HotKeys(states[i + 1].bots)
    requires var ts := PollTimes(states[i].log, k); ts != [] && ops[i].now >= ts[|ts| - 1] + cfg.MaxPoll()
    ensures PollTimes(states[i + 1].log, k) == PollTimes(states[i].log, k) + [ops[i].now]
  {
    ReachableInv(cfg, states, ops, i);
    assert StepAt(cfg, states, ops, i);
    DueBy(cfg, states[i].bots, states[i].log, k);
    PassPollsOverdue(cfg, states[i], ops[i], states[i + 1], k);
  }

  lemma PassPollsOverdue(cfg: Config, s: State, op: Op, s': State, k: Id)
    requires cfg.Ready() && IsPass(op) && Step(cfg, s, op, s') && EntriesOk(s.bots, s.clock)
             && LogOk(s.log, HotKeys(s.bots))
    requires k in s.bots && k !in HotKeys(s'.bots) && op.now >= s.bots[k].nextPoll
    ensures PollTimes(s'.log, k) == PollTimes(s.log, k) + [op.now]
  {
    var acts := PassStepOf(cfg, s, op, s');
    PassBotsReady(s, op);
    PassLogs(cfg, s.log, PassBots(s, op), op.now, s'.slots, s'.bots, acts, k);
  }

  /** What a pass logs for one bot: a poll exactly when the bot is left without a socket and is due. */
  lemma PassLogs(cfg: Config, log: seq<LogEntry>, bots: Bots, now: Time, slots: int, bots': Bots, acts: seq<Action>,
                 k: Id)
    requires cfg.Ready() && LogOk(log, HotKeys(bots)) && Keyed(bots) && Pass(cfg, bots, now, slots, bots', acts)
    requires k in bots
    ensures PollTimes(log + Stamped(acts, now), k)
         == PollTimes(log, k) + if k !in HotKeys(bots') && now >= bots[k].nextPoll then [now] else []
  {
    var first, selected, order :| PassVia(cfg, bots, now, slots, first, selected, order, bots', acts);
    Rescored(cfg, bots, now);
    Selected(cfg, bots, now, slots, first, selected, order, bots', acts);
    ReplayPass(cfg, log, RescoreAll(cfg, bots, now), order, selected, now);
  }
}
