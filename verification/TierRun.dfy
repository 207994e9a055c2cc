/**
  Whole runs of the tier manager: what every reachable state satisfies, however
  ties fall, in whatever order maps are walked, and whatever the clock and the
  memory gauge read.
 */
module TierRun {
  import opened Sequences
  import opened TierSelection
  import opened TierModel

  /** What the manager has done, in the order it decided to do it. */
  datatype LogEntry =
    | Acted(action: Action, at: Time)
    | Deregistered(keyID: Id, closed: bool)
    | Forced(keyID: Id, tier: Tier)

  /** `slots` is the hot budget of the latest pass, `clock` the latest time read so far. */
  datatype State = State(bots: Bots, log: seq<LogEntry>, slots: int, clock: Time)

  datatype Op =
    | Add(bot: BotRef, pollAt: Time, activeAt: Time)
    | Remove(keyID: Id)
    | Touch(keyID: Id, now: Time, memMB: nat)
    | Rebalance(now: Time, memMB: nat)
    | ForceTier(keyID: Id, tier: Tier)

  const INITIAL := State(map[], [], 0, 0)

  function Later(a: Time, b: Time): Time {
    if a <= b then b else a
  }

  ghost function Stamped(acts: seq<Action>, at: Time): seq<LogEntry> {
    seq(|acts|, i requires 0 <= i < |acts| => Acted(acts[i], at))
  }

  ghost function TouchBot(bots: Bots, keyID: Id, now: Time): Bots {
    if keyID in bots then bots[keyID := Touched(bots[keyID], now)] else bots
  }

  ghost predicate PassStep(cfg: Config, bots: Bots, s: State, now: Time, memMB: nat, s': State)
    requires cfg.Ready()
  {
    exists acts ::
      && Pass(cfg, bots, now, cfg.Slots(memMB), s'.bots, acts)
      && s' == State(s'.bots, s.log + Stamped(acts, now), cfg.Slots(memMB), Later(s.clock, now))
  }

  ghost predicate Step(cfg: Config, s: State, op: Op, s': State)
    requires cfg.Ready()
  {
    match op
    case Add(bot, pollAt, activeAt) =>
      s' == if bot.keyID in s.bots then s
            else s.(bots := s.bots[bot.keyID := EntryState(bot, Cold, activeAt, 0.0, 0.0, pollAt)],
                    clock := Later(s.clock, activeAt))
    case Remove(keyID) =>
      s' == if keyID in s.bots
            then s.(bots := s.bots - {keyID}, log := s.log + [Deregistered(keyID, s.bots[keyID].tier.Hot?)])
            else s
    case Touch(keyID, now, memMB) => PassStep(cfg, TouchBot(s.bots, keyID, now), s, now, memMB, s')
    case Rebalance(now, memMB) => PassStep(cfg, s.bots, s, now, memMB, s')
    case ForceTier(keyID, tier) =>
      s' == if keyID in s.bots
            then s.(bots := s.bots[keyID := s.bots[keyID].(tier := tier)], log := s.log + [Forced(keyID, tier)])
            else s
  }

  /** Operation i leads from state i to the next one, and does not force a bot to Hot: the engine never does. */
  ghost predicate StepAt(cfg: Config, states: seq<State>, ops: seq<Op>, i: int)
    requires cfg.Ready() && |states| == |ops| + 1 && 0 <= i < |ops|
  {
    Step(cfg, states[i], ops[i], states[i + 1]) && !(ops[i].ForceTier? && ops[i].tier.Hot?)
  }

  /** `states` is a run over `ops`. */
  ghost predicate Run(cfg: Config, states: seq<State>, ops: seq<Op>)
    requires cfg.Ready()
  {
    && |states| == |ops| + 1
    && states[0] == INITIAL
    && forall i :: 0 <= i < |ops| ==> StepAt(cfg, states, ops, i)
  }

  // ----- reading the log -----

  /** Which bots hold a socket according to the log alone. */
  ghost function Replay(log: seq<LogEntry>): set<Id> {
    if log == [] then {}
    else
      var before := Replay(log[..|log| - 1]);
      match log[|log| - 1]
      case Acted(OpenHot(bot), _) => before + {bot.keyID}
      case Acted(CloseHot(keyID), _) => before - {keyID}
      case Acted(Poll(_), _) => before
      case Deregistered(keyID, _) => before - {keyID}
      case Forced(keyID, _) => before - {keyID}
  }

  /** Opens name bots that are not hot, closes name hot ones, polls name bots that are not hot. */
  ghost predicate WellFormed(log: seq<LogEntry>) {
    log == [] ||
    (var prefix := log[..|log| - 1];
     && WellFormed(prefix)
     && match log[|log| - 1]
        case Acted(OpenHot(bot), _) => bot.keyID !in Replay(prefix)
        case Acted(CloseHot(keyID), _) => keyID in Replay(prefix)
        case Acted(Poll(bot), _) => bot.keyID !in Replay(prefix)
        case Deregistered(keyID, closed) => closed == (keyID in Replay(prefix))
        case Forced(_, _) => true)
  }

  /** When the current registration of a bot was polled. */
  ghost function PollTimes(log: seq<LogEntry>, keyID: Id): seq<Time> {
    if log == [] then []
    else
      var before := PollTimes(log[..|log| - 1], keyID);
      match log[|log| - 1]
      case Acted(Poll(bot), at) => if bot.keyID == keyID then before + [at] else before
      case Deregistered(k, _) => if k == keyID then [] else before
      case _ => before
  }

  lemma LastEntry(log: seq<LogEntry>, e: LogEntry)
    ensures (log + [e])[..|log + [e]| - 1] == log
  {}

  // ----- one pass, replayed -----

  lemma StampedConcat(a: seq<Action>, b: seq<Action>, at: Time)
    ensures Stamped(a + b, at) == Stamped(a, at) + Stamped(b, at)
  {}

  /** Logging an open or a close moves one bot and touches no other. */
  lemma ReplayMove(log: seq<LogEntry>, a: Action, now: Time)
    requires WellFormed(log) && !a.Poll?
    requires if a.OpenHot? then a.bot.keyID !in Replay(log) else a.keyID in Replay(log)
    ensures var log' := log + [Acted(a, now)];
            && WellFormed(log')
            && Replay(log') == (if a.OpenHot? then Replay(log) + {a.bot.keyID} else Replay(log) - {a.keyID})
            && forall k :: PollTimes(log', k) == PollTimes(log, k)
  {
    LastEntry(log, Acted(a, now));
  }

  lemma ReplayPoll(log: seq<LogEntry>, bot: BotRef, now: Time)
    requires WellFormed(log) && bot.keyID !in Replay(log)
    ensures var log' := log + [Acted(Poll(bot), now)];
            && WellFormed(log') && Replay(log') == Replay(log)
            && forall k :: PollTimes(log', k) == PollTimes(log, k) + if k == bot.keyID then [now] else []
  {
    LastEntry(log, Acted(Poll(bot), now));
  }

  /** Logging what one bot emits moves that bot to its decided tier and touches no other. */
  lemma ReplayBot(cfg: Config, log: seq<LogEntry>, e: EntryState, selected: bool, now: Time)
    requires WellFormed(log) && (e.bot.keyID in Replay(log) <==> e.tier.Hot?)
    ensures var log' := log + Stamped(Emitted(cfg, e, selected, now), now);
            && WellFormed(log')
            && Replay(log') == (if selected then Replay(log) + {e.bot.keyID} else Replay(log) - {e.bot.keyID})
            && (forall k :: PollTimes(log', k) == PollTimes(log, k)
                 + if k == e.bot.keyID && PollDue(cfg, e, selected, now) then [now] else [])
  {
    var acts := Emitted(cfg, e, selected, now);
    var due := PollDue(cfg, e, selected, now);
    var moves := if due then acts[..|acts| - 1] else acts;
    var mid := log + Stamped(moves, now);
    if moves != [] {
      ReplayMove(log, moves[0], now);
      assert mid == log + [Acted(moves[0], now)];
    } else {
      assert mid == log;
    }
    if due {
      ReplayPoll(mid, e.bot, now);
      assert log + Stamped(acts, now) == mid + [Acted(Poll(e.bot), now)];
    }
  }

  /** How a pass over the bots in `order` changes what the log says. */
  ghost predicate Replayed(cfg: Config, log: seq<LogEntry>, log': seq<LogEntry>, bots: Bots, order: seq<Id>,
                           selected: set<Id>, now: Time)
    requires forall k <- order :: k in bots
  {
    && WellFormed(log')
    && (forall k :: k in Replay(log') <==> if k in order then k in selected else k in Replay(log))
    && (forall k :: PollTimes(log', k) == PollTimes(log, k)
         + if k in order && PollDue(cfg, bots[k], k in selected, now) then [now] else [])
  }

  lemma ReplayedStep(cfg: Config, log: seq<LogEntry>, mid: seq<LogEntry>, bots: Bots, rest: seq<Id>, k: Id,
                     selected: set<Id>, now: Time)
    requires Keyed(bots) && (k in Replay(log) <==> k in HotKeys(bots))
    requires k in bots && k !in rest && forall x <- rest :: x in bots
    requires Replayed(cfg, log, mid, bots, rest, selected, now)
    ensures Replayed(cfg, log, mid + Stamped(Emitted(cfg, bots[k], k in selected, now), now),
                     bots, rest + [k], selected, now)
  {
    var log', order := mid + Stamped(Emitted(cfg, bots[k], k in selected, now), now), rest + [k];
    ReplayBot(cfg, mid, bots[k], k in selected, now);
    assert forall x :: x in order <==> x in rest || x == k;
    forall x
      ensures x in Replay(log') <==> if x in order then x in selected else x in Replay(log)
      ensures PollTimes(log', x)
           == PollTimes(log, x) + if x in order && PollDue(cfg, bots[x], x in selected, now) then [now] else []
    {
      if x == k {
        assert PollTimes(mid, k) == PollTimes(log, k);
      } else {
        assert PollTimes(log', x) == PollTimes(mid, x);
      }
    }
  }

  lemma LoggedSplit(cfg: Config, log: seq<LogEntry>, bots: Bots, order: seq<Id>, selected: set<Id>, now: Time)
    requires order != [] && forall k <- order :: k in bots
    ensures var rest, k := order[..|order| - 1], order[|order| - 1];
            log + Stamped(EmittedAll(cfg, bots, order, selected, now), now)
            == log + Stamped(EmittedAll(cfg, bots, rest, selected, now), now)
               + Stamped(Emitted(cfg, bots[k], k in selected, now), now)
  {
    var rest, k := order[..|order| - 1], order[|order| - 1];
    StampedConcat(EmittedAll(cfg, bots, rest, selected, now), Emitted(cfg, bots[k], k in selected, now), now);
  }

  lemma {:induction false} ReplayPass(cfg: Config, log: seq<LogEntry>, bots: Bots, order: seq<Id>,
                                      selected: set<Id>, now: Time)
    requires Keyed(bots) && WellFormed(log) && Replay(log) == HotKeys(bots)
    requires Distinct(order) && forall k <- order :: k in bots
    ensures Replayed(cfg, log, log + Stamped(EmittedAll(cfg, bots, order, selected, now), now),
                     bots, order, selected, now)
    decreases |order|
  {
    if order == [] {
      assert log + Stamped([], now) == log;
    } else {
      var rest, k := order[..|order| - 1], order[|order| - 1];
      assert order == rest + [k];
      ReplayPass(cfg, log, bots, rest, selected, now);
      ReplayedStep(cfg, log, log + Stamped(EmittedAll(cfg, bots, rest, selected, now), now),
                   bots, rest, k, selected, now);
      LoggedSplit(cfg, log, bots, order, selected, now);
    }
  }

  // ----- the invariant -----

  ghost predicate Spaced(ts: seq<Time>, gap: Duration) {
    forall i :: 0 < i < |ts| ==> ts[i] >= ts[i - 1] + gap
  }

  /** Polls so far are spaced out, and the next one is due neither too soon nor too late. */
  ghost predicate Paced(cfg: Config, e: EntryState, ts: seq<Time>) {
    ts != [] ==> ts[|ts| - 1] + cfg.MinPoll() <= e.nextPoll <= ts[|ts| - 1] + cfg.MaxPoll()
  }

  /** At most `slots` hot bots, at most HotPerTenant of them per tenant. */
  ghost predicate WithinLimits(cfg: Config, bots: Bots, slots: int) {
    Feasible(PoolOf(bots), HotKeys(bots), slots, cfg.hotPerTenant)
  }

  ghost predicate EntriesOk(bots: Bots, clock: Time) {
    Keyed(bots) && forall k <- bots :: RateInRange(bots[k].rate) && bots[k].lastActivity <= clock
  }

  ghost predicate LogOk(log: seq<LogEntry>, hot: set<Id>) {
    WellFormed(log) && Replay(log) == hot
  }

  ghost predicate PollsOk(cfg: Config, bots: Bots, log: seq<LogEntry>) {
    && (forall k :: Spaced(PollTimes(log, k), cfg.MinPoll()))
    && (forall k :: k !in bots ==> PollTimes(log, k) == [])
    && (forall k <- bots :: Paced(cfg, bots[k], PollTimes(log, k)))
  }

  ghost predicate Inv(cfg: Config, s: State) {
    && EntriesOk(s.bots, s.clock)
    && LogOk(s.log, HotKeys(s.bots))
    && WithinLimits(cfg, s.bots, s.slots)
    && PollsOk(cfg, s.bots, s.log)
  }

  lemma LimitsShrink(p: Pool, q: Pool, s: set<Id>, t: set<Id>, slots: int, cap: int)
    requires Feasible(p, s, slots, cap) && t <= s && t <= q.Keys
    requires forall k <- t :: p[k].tenant == q[k].tenant
    ensures Feasible(q, t, slots, cap)
  {
    SubsetSize(t, s);
    forall tenant ensures |OfTenant(q, t, tenant)| <= |OfTenant(p, s, tenant)| {
      SubsetSize(OfTenant(q, t, tenant), OfTenant(p, s, tenant));
    }
  }

  lemma Settled(cfg: Config, bots: Bots, selected: set<Id>, now: Time)
    requires selected <= bots.Keys
    ensures var bots' := SettleAll(cfg, bots, selected, now);
            PoolOf(bots') == PoolOf(bots) && HotKeys(bots') == selected
            && ActiveKeys(cfg, bots', now) == ActiveKeys(cfg, bots, now)
  {
    var bots' := SettleAll(cfg, bots, selected, now);
    forall k <- bots ensures bots'[k].tier.Hot? <==> k in selected {
    }
    assert PoolOf(bots') == PoolOf(bots);
    assert ActiveKeys(cfg, bots', now) == ActiveKeys(cfg, bots, now);
  }

  lemma Rescored(cfg: Config, bots: Bots, now: Time)
    requires cfg.Ready()
    ensures var scored := RescoreAll(cfg, bots, now);
            ActiveKeys(cfg, scored, now) == ActiveKeys(cfg, bots, now) && HotKeys(scored) == HotKeys(bots)
  {}

  lemma Selected(cfg: Config, bots: Bots, now: Time, slots: int, first: set<Id>, selected: set<Id>,
                 order: seq<Id>, bots': Bots, acts: seq<Action>)
    requires cfg.Ready() && PassVia(cfg, bots, now, slots, first, selected, order, bots', acts)
    ensures selected <= bots.Keys && HotKeys(bots') == selected
    ensures PoolOf(bots') == PoolOf(RescoreAll(cfg, bots, now))
    ensures ActiveKeys(cfg, bots', now) == ActiveKeys(cfg, bots, now)
    ensures first == ActiveKeys(cfg, bots', now) * selected
  {
    var scored := RescoreAll(cfg, bots, now);
    SelectionExact(PoolOf(scored), ActiveKeys(cfg, bots, now), slots, cfg.hotPerTenant, first, selected);
    Settled(cfg, scored, selected, now);
    Rescored(cfg, bots, now);
  }

  /** After a pass the hot bots are exactly the selected ones, and the fresh ones among them the heap's choice. */
  lemma PassOutcome(cfg: Config, bots: Bots, now: Time, slots: int, bots': Bots, acts: seq<Action>)
    requires cfg.Ready() && Pass(cfg, bots, now, slots, bots', acts)
    ensures var hot, active := HotKeys(bots'), ActiveKeys(cfg, bots', now);
            Selection(PoolOf(bots'), active, slots, cfg.hotPerTenant, active * hot, hot)
    ensures PoolOf(bots') == PoolOf(RescoreAll(cfg, bots, now))
  {
    var first, selected, order :| PassVia(cfg, bots, now, slots, first, selected, order, bots', acts);
    Selected(cfg, bots, now, slots, first, selected, order, bots', acts);
  }

  lemma PassKeepsLimits(cfg: Config, bots: Bots, now: Time, slots: int, bots': Bots, acts: seq<Action>)
    requires cfg.Ready() && Pass(cfg, bots, now, slots, bots', acts)
    ensures WithinLimits(cfg, bots', slots)
  {
    PassOutcome(cfg, bots, now, slots, bots', acts);
    var hot, active := HotKeys(bots'), ActiveKeys(cfg, bots', now);
    SelectionExact(PoolOf(bots'), active, slots, cfg.hotPerTenant, active * hot, hot);
  }

  lemma PassKeepsEntries(cfg: Config, bots: Bots, now: Time, slots: int, bots': Bots, acts: seq<Action>, clock: Time)
    requires cfg.Ready() && Pass(cfg, bots, now, slots, bots', acts) && Keyed(bots)
    requires forall k <- bots :: RateInRange(bots[k].rate * 0.9) && bots[k].lastActivity <= clock
    ensures EntriesOk(bots', clock)
  {}

  lemma PolledBotPaced(cfg: Config, e: EntryState, selected: bool, now: Time, ts: seq<Time>)
    requires cfg.Ready() && Spaced(ts, cfg.MinPoll()) && Paced(cfg, e, ts)
    ensures var ts' := ts + if PollDue(cfg, e, selected, now) then [now] else [];
            Spaced(ts', cfg.MinPoll()) && Paced(cfg, Settle(cfg, e, selected, now), ts')
  {}

  lemma PassKeepsPolls(cfg: Config, log: seq<LogEntry>, log': seq<LogEntry>, scored: Bots, order: seq<Id>,
                       selected: set<Id>, now: Time)
    requires cfg.Ready() && PollsOk(cfg, scored, log) && Enumerates(order, scored.Keys)
    requires Replayed(cfg, log, log', scored, order, selected, now)
    ensures PollsOk(cfg, SettleAll(cfg, scored, selected, now), log')
  {
    forall k
      ensures Spaced(PollTimes(log', k), cfg.MinPoll())
      ensures k !in scored ==> PollTimes(log', k) == []
      ensures k in scored ==> Paced(cfg, Settle(cfg, scored[k], k in selected, now), PollTimes(log', k))
    {
      if k in scored {
        PolledBotPaced(cfg, scored[k], k in selected, now, PollTimes(log, k));
      }
    }
  }

  /** What a pass may assume of the bots it starts from: the previous state's, or the same with one bot touched. */
  ghost predicate PassReady(s: State, bots: Bots, now: Time) {
    && bots.Keys == s.bots.Keys && Keyed(bots) && HotKeys(bots) == HotKeys(s.bots)
    && forall k <- bots ::
         && RateInRange(bots[k].rate * 0.9)
         && bots[k].lastActivity <= Later(s.clock, now)
         && bots[k].nextPoll == s.bots[k].nextPoll
  }

  lemma SamePolls(cfg: Config, a: Bots, b: Bots, log: seq<LogEntry>, log': seq<LogEntry>)
    requires PollsOk(cfg, a, log) && a.Keys == b.Keys && forall k <- a :: a[k].nextPoll == b[k].nextPoll
    requires forall k :: PollTimes(log', k) == PollTimes(log, k)
    ensures PollsOk(cfg, b, log')
  {}

  lemma ReconcileKeepsLog(cfg: Config, log: seq<LogEntry>, bots: Bots, order: seq<Id>, selected: set<Id>, now: Time)
    requires cfg.Ready() && LogOk(log, HotKeys(bots)) && PollsOk(cfg, bots, log) && Keyed(bots)
    requires Enumerates(order, bots.Keys) && selected <= bots.Keys
    ensures var log' := log + Stamped(EmittedAll(cfg, bots, order, selected, now), now);
            LogOk(log', selected) && PollsOk(cfg, SettleAll(cfg, bots, selected, now), log')
  {
    ReplayPass(cfg, log, bots, order, selected, now);
    PassKeepsPolls(cfg, log, log + Stamped(EmittedAll(cfg, bots, order, selected, now), now),
                   bots, order, selected, now);
  }

  lemma PassKeepsLog(cfg: Config, log: seq<LogEntry>, bots: Bots, now: Time, slots: int, bots': Bots, acts: seq<Action>)
    requires cfg.Ready() && LogOk(log, HotKeys(bots)) && PollsOk(cfg, bots, log) && Keyed(bots)
    requires Pass(cfg, bots, now, slots, bots', acts)
    ensures LogOk(log + Stamped(acts, now), HotKeys(bots'))
    ensures PollsOk(cfg, bots', log + Stamped(acts, now))
  {
    var first, selected, order :| PassVia(cfg, bots, now, slots, first, selected, order, bots', acts);
    var scored := RescoreAll(cfg, bots, now);
    Rescored(cfg, bots, now);
    Selected(cfg, bots, now, slots, first, selected, order, bots', acts);
    SamePolls(cfg, bots, scored, log, log);
    ReconcileKeepsLog(cfg, log, scored, order, selected, now);
  }

  lemma PassKeepsInv(cfg: Config, s: State, bots: Bots, now: Time, memMB: nat, s': State)
    requires cfg.Ready() && Inv(cfg, s) && PassReady(s, bots, now) && PassStep(cfg, bots, s, now, memMB, s')
    ensures Inv(cfg, s')
  {
    var slots := cfg.Slots(memMB);
    var acts :| Pass(cfg, bots, now, slots, s'.bots, acts)
                && s' == State(s'.bots, s.log + Stamped(acts, now), slots, Later(s.clock, now));
    PassKeepsLimits(cfg, bots, now, slots, s'.bots, acts);
    PassKeepsEntries(cfg, bots, now, slots, s'.bots, acts, Later(s.clock, now));
    SamePolls(cfg, s.bots, bots, s.log, s.log);
    PassKeepsLog(cfg, s.log, bots, now, slots, s'.bots, acts);
  }

  /** Logging that a bot lost its socket, or its registration, keeps the log in step with the hot set. */
  lemma LogLeaves(log: seq<LogEntry>, hot: set<Id>, keyID: Id, e: LogEntry)
    requires LogOk(log, hot)
    requires e == Deregistered(keyID, keyID in hot) || (e.Forced? && e.keyID == keyID)
    ensures LogOk(log + [e], hot - {keyID})
    ensures forall k :: PollTimes(log + [e], k) == if e.Deregistered? && k == keyID then [] else PollTimes(log, k)
  {
    LastEntry(log, e);
  }

  lemma PollsForget(cfg: Config, bots: Bots, log: seq<LogEntry>, log': seq<LogEntry>, keyID: Id)
    requires PollsOk(cfg, bots, log)
    requires forall k :: PollTimes(log', k) == if k == keyID then [] else PollTimes(log, k)
    ensures PollsOk(cfg, bots - {keyID}, log')
  {}

  lemma HotLeaves(cfg: Config, bots: Bots, bots': Bots, keyID: Id, slots: int)
    requires WithinLimits(cfg, bots, slots) && keyID in bots
    requires bots' == bots - {keyID} || exists t: Tier :: !t.Hot? && bots' == bots[keyID := bots[keyID].(tier := t)]
    ensures HotKeys(bots') == HotKeys(bots) - {keyID} && WithinLimits(cfg, bots', slots)
  {
    assert HotKeys(bots') == HotKeys(bots) - {keyID};
    LimitsShrink(PoolOf(bots), PoolOf(bots'), HotKeys(bots), HotKeys(bots'), slots, cfg.hotPerTenant);
  }

  lemma RemoveKeepsInv(cfg: Config, s: State, keyID: Id, s': State)
    requires cfg.Ready() && Inv(cfg, s) && keyID in s.bots && Step(cfg, s, Remove(keyID), s')
    ensures Inv(cfg, s')
  {
    LogLeaves(s.log, HotKeys(s.bots), keyID, Deregistered(keyID, s.bots[keyID].tier.Hot?));
    PollsForget(cfg, s.bots, s.log, s'.log, keyID);
    HotLeaves(cfg, s.bots, s'.bots, keyID, s.slots);
  }

  lemma ForceTierKeepsInv(cfg: Config, s: State, keyID: Id, tier: Tier, s': State)
    requires cfg.Ready() && Inv(cfg, s) && keyID in s.bots && !tier.Hot? && Step(cfg, s, ForceTier(keyID, tier), s')
    ensures Inv(cfg, s')
  {
    assert LogOk(s'.log, HotKeys(s.bots) - {keyID}) && PollsOk(cfg, s'.bots, s'.log) by {
      LogLeaves(s.log, HotKeys(s.bots), keyID, Forced(keyID, tier));
      SamePolls(cfg, s.bots, s'.bots, s.log, s'.log);
    }
    assert HotKeys(s'.bots) == HotKeys(s.bots) - {keyID} && WithinLimits(cfg, s'.bots, s'.slots) by {
      HotLeaves(cfg, s.bots, s'.bots, keyID, s.slots);
    }
  }

  lemma AddKeepsInv(cfg: Config, s: State, bot: BotRef, pollAt: Time, activeAt: Time, s': State)
    requires cfg.Ready() && Inv(cfg, s) && bot.keyID !in s.bots && Step(cfg, s, Add(bot, pollAt, activeAt), s')
    ensures Inv(cfg, s')
  {
    assert HotKeys(s'.bots) == HotKeys(s.bots);
    LimitsShrink(PoolOf(s.bots), PoolOf(s'.bots), HotKeys(s.bots), HotKeys(s'.bots), s.slots, cfg.hotPerTenant);
  }

  lemma TouchReady(s: State, keyID: Id, now: Time)
    requires EntriesOk(s.bots, s.clock)
    ensures PassReady(s, TouchBot(s.bots, keyID, now), now)
  {
    assert HotKeys(TouchBot(s.bots, keyID, now)) == HotKeys(s.bots);
  }

  lemma RebalanceReady(s: State, now: Time)
    requires EntriesOk(s.bots, s.clock)
    ensures PassReady(s, s.bots, now)
  {}

  lemma StepKeepsInv(cfg: Config, s: State, op: Op, s': State)
    requires cfg.Ready() && Inv(cfg, s) && Step(cfg, s, op, s') && !(op.ForceTier? && op.tier.Hot?)
    ensures Inv(cfg, s')
  {
    match op
    case Add(bot, pollAt, activeAt) => if bot.keyID !in s.bots { AddKeepsInv(cfg, s, bot, pollAt, activeAt, s'); }
    case Remove(keyID) => if keyID in s.bots { RemoveKeepsInv(cfg, s, keyID, s'); }
    case Touch(keyID, now, memMB) =>
      TouchReady(s, keyID, now);
      PassKeepsInv(cfg, s, TouchBot(s.bots, keyID, now), now, memMB, s');
    case Rebalance(now, memMB) =>
      RebalanceReady(s, now);
      PassKeepsInv(cfg, s, s.bots, now, memMB, s');
    case ForceTier(keyID, tier) => if keyID in s.bots { ForceTierKeepsInv(cfg, s, keyID, tier, s'); }
  }

  /** The invariant holds in every reachable state. */
  lemma {:induction false} ReachableInv(cfg: Config, states: seq<State>, ops: seq<Op>, i: nat)
    requires cfg.Ready() && Run(cfg, states, ops) && i < |states|
    ensures Inv(cfg, states[i])
    decreases i
  {
    if i == 0 {
      assert HotKeys(map[]) == {};
      assert forall t :: OfTenant(PoolOf(map[]), {}, t) == {};
    } else {
      ReachableInv(cfg, states, ops, i - 1);
      assert StepAt(cfg, states, ops, i - 1);
      StepKeepsInv(cfg, states[i - 1], ops[i - 1], states[i]);
    }
  }
}
