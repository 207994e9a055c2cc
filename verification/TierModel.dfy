/**
  The tier manager's data and the value-level meaning of one rebalance pass.

  Times are nanoseconds since Go's zero time, durations are nanoseconds, scores
  and rates are reals.
 */
module TierModel {
  import opened Sequences
  import opened TierSelection

  datatype Tier = Cold | Warm | Hot

  datatype BotRef = BotRef(keyID: Id, tenantID: Id, botUserID: Id, plan: string)

  type Time = int
  type Duration = int

  const ZERO_TIME: Time := 0
  const MAX_DURATION: Duration := 0x7FFF_FFFF_FFFF_FFFF
  const SECOND: Duration := 1_000_000_000
  const MINUTE: Duration := 60 * SECOND

  datatype PlanWeights = Unset | Weights(of: map<string, real>)

  datatype Config = Config(maxHot: int, pressureHotCap: int, hotPerTenant: int,
                           warmPoll: Duration, coldPoll: Duration, hotIdle: Duration, warmIdle: Duration,
                           planWeight: PlanWeights, memHighMB: nat)
  {
    function WithDefaults(): Config {
      Config(if maxHot <= 0 then 200 else maxHot, pressureHotCap, hotPerTenant,
             if warmPoll <= 0 then 20 * SECOND else warmPoll,
             if coldPoll <= 0 then 3 * MINUTE else coldPoll,
             if hotIdle <= 0 then 2 * MINUTE else hotIdle,
             if warmIdle <= 0 then 10 * MINUTE else warmIdle,
             if planWeight.Unset? then Weights(map["starter" := 1.0, "pro" := 2.0, "enterprise" := 3.0])
             else planWeight,
             memHighMB)
    }

    /** Holds of every configuration that has gone through WithDefaults. */
    ghost predicate Ready() {
      maxHot > 0 && warmPoll > 0 && coldPoll > 0 && hotIdle > 0 && warmIdle > 0 && planWeight.Weights?
    }

    /** A plan without an entry weighs 0, as a missing key of a Go map does. */
    function Weight(plan: string): real
      requires planWeight.Weights?
    {
      if plan in planWeight.of then planWeight.of[plan] else 0.0
    }

    function MinPoll(): Duration {
      Min(warmPoll, coldPoll)
    }

    function MaxPoll(): Duration {
      if warmPoll <= coldPoll then coldPoll else warmPoll
    }

    function Slots(memMB: nat): int {
      if memHighMB > 0 && memMB >= memHighMB then pressureHotCap else maxHot
    }
  }

  datatype EntryState = EntryState(bot: BotRef, tier: Tier, lastActivity: Time, rate: real, score: real, nextPoll: Time)

  type Bots = map<Id, EntryState>

  ghost predicate Keyed(bots: Bots) {
    forall k <- bots :: bots[k].bot.keyID == k
  }

  datatype Action = OpenHot(bot: BotRef) | CloseHot(keyID: Id) | Poll(bot: BotRef)

  // ----- scoring -----

  /** Subtraction of times saturates at the ends of the 64-bit duration range. */
  function Since(now: Time, earlier: Time): Duration {
    var d := now - earlier;
    if d > MAX_DURATION then MAX_DURATION else if d < -MAX_DURATION - 1 then -MAX_DURATION - 1 else d
  }

  function Recency(cfg: Config, age: Duration): real
    requires cfg.hotIdle > 0
  {
    var r := 1.0 - age as real / cfg.hotIdle as real;
    if r < 0.0 then 0.0 else r
  }

  function Rescore(cfg: Config, e: EntryState, now: Time): EntryState
    requires cfg.hotIdle > 0 && cfg.planWeight.Weights?
  {
    var rate := e.rate * 0.9;
    e.(rate := rate,
       score := cfg.Weight(e.bot.plan) * 100.0 + Recency(cfg, Since(now, e.lastActivity)) * 10.0 + rate)
  }

  /** The tier a bot's own activity asks for, before any budget. */
  function Desired(cfg: Config, e: EntryState, now: Time): Tier {
    var age := Since(now, e.lastActivity);
    if e.lastActivity == ZERO_TIME || age > cfg.warmIdle then Cold
    else if age > cfg.hotIdle then Warm
    else Hot
  }

  ghost function RescoreAll(cfg: Config, bots: Bots, now: Time): Bots
    requires cfg.Ready()
  {
    map k | k in bots :: Rescore(cfg, bots[k], now)
  }

  ghost function PoolOf(bots: Bots): Pool {
    map k | k in bots :: Candidate(bots[k].bot.tenantID, bots[k].score)
  }

  ghost function ActiveKeys(cfg: Config, bots: Bots, now: Time): set<Id> {
    set k | k in bots && Desired(cfg, bots[k], now).Hot?
  }

  // ----- reconciling one bot -----

  function Target(cfg: Config, e: EntryState, selected: bool, now: Time): Tier {
    if selected then Hot
    else if Desired(cfg, e, now).Hot? then Warm
    else Desired(cfg, e, now)
  }

  predicate PollDue(cfg: Config, e: EntryState, selected: bool, now: Time) {
    !selected && now >= e.nextPoll
  }

  function Settle(cfg: Config, e: EntryState, selected: bool, now: Time): EntryState {
    var target := Target(cfg, e, selected, now);
    e.(tier := target,
       nextPoll := if PollDue(cfg, e, selected, now)
                   then now + (if target.Cold? then cfg.coldPoll else cfg.warmPoll)
                   else e.nextPoll)
  }

  function Emitted(cfg: Config, e: EntryState, selected: bool, now: Time): seq<Action> {
    (if selected && !e.tier.Hot? then [OpenHot(e.bot)]
     else if !selected && e.tier.Hot? then [CloseHot(e.bot.keyID)]
     else [])
    + (if PollDue(cfg, e, selected, now) then [Poll(e.bot)] else [])
  }

  ghost function EmittedAll(cfg: Config, bots: Bots, order: seq<Id>, selected: set<Id>, now: Time): seq<Action>
    requires forall k <- order :: k in bots
  {
    if order == [] then []
    else
      var k := order[|order| - 1];
      EmittedAll(cfg, bots, order[..|order| - 1], selected, now) + Emitted(cfg, bots[k], k in selected, now)
  }

  ghost function SettleAll(cfg: Config, bots: Bots, selected: set<Id>, now: Time): Bots {
    map k | k in bots :: Settle(cfg, bots[k], k in selected, now)
  }

  ghost predicate Enumerates(order: seq<Id>, s: set<Id>) {
    (forall k :: k in order <==> k in s) && Distinct(order)
  }

  // ----- one pass -----

  /** One rebalance pass, for a given outcome of the ties and a given map order. */
  ghost predicate PassVia(cfg: Config, bots: Bots, now: Time, slots: int,
                          first: set<Id>, selected: set<Id>, order: seq<Id>,
                          bots': Bots, acts: seq<Action>)
    requires cfg.Ready()
  {
    var scored := RescoreAll(cfg, bots, now);
    && Selection(PoolOf(scored), ActiveKeys(cfg, bots, now), slots, cfg.hotPerTenant, first, selected)
    && Enumerates(order, bots.Keys)
    && bots' == SettleAll(cfg, scored, selected, now)
    && acts == EmittedAll(cfg, scored, order, selected, now)
  }

  ghost predicate Pass(cfg: Config, bots: Bots, now: Time, slots: int, bots': Bots, acts: seq<Action>)
    requires cfg.Ready()
  {
    exists first, selected, order :: PassVia(cfg, bots, now, slots, first, selected, order, bots', acts)
  }

  ghost function HotKeys(bots: Bots): set<Id> {
    set k | k in bots && bots[k].tier.Hot?
  }

  function Touched(e: EntryState, now: Time): EntryState {
    e.(lastActivity := now, rate := e.rate * 0.7 + 1.0)
  }

  // ----- scores -----

  /** A rate below the fixed point 90/37 of r -> 0.9 (0.7 r + 1) stays below it. */
  predicate RateInRange(rate: real) {
    0.0 <= rate && 37.0 * rate < 90.0
  }

  lemma RateStaysInRange(cfg: Config, e: EntryState, now: Time)
    requires cfg.Ready() && RateInRange(e.rate)
    ensures RateInRange(Rescore(cfg, e, now).rate)
    ensures RateInRange(Rescore(cfg, Touched(e, now), now).rate)
  {}

  lemma RecencyBound(cfg: Config, age: Duration)
    requires cfg.hotIdle > 0 && -148 * age <= cfg.hotIdle
    ensures 0.0 <= Recency(cfg, age) && 148.0 * Recency(cfg, age) <= 149.0
  {
    RatioBound(age as real, cfg.hotIdle as real);
  }

  lemma RatioBound(a: real, h: real)
    requires h > 0.0 && -148.0 * a <= h
    ensures -148.0 * (a / h) <= 1.0
  {
    var q := a / h;
    assert q * h == a;
    CancelFactor(-148.0 * q, h);
  }

  lemma CancelFactor(x: real, h: real)
    requires h > 0.0 && x * h <= h
    ensures x <= 1.0
  {}

  /**
    A plan-weight gap of 1/8 outweighs everything else: recency is worth at most
    10 and a rate less than 90/37.  Even a pass whose clock reading lags the
    bot's last activity by HotIdle/148 cannot turn it round.
   */
  lemma PlanGapDecides(cfg: Config, a: EntryState, b: EntryState, now: Time)
    requires cfg.Ready() && RateInRange(a.rate * 0.9) && RateInRange(b.rate * 0.9)
    requires 148 * (b.lastActivity - now) <= cfg.hotIdle
    requires cfg.Weight(a.bot.plan) >= cfg.Weight(b.bot.plan) + 0.125
    ensures Rescore(cfg, a, now).score > Rescore(cfg, b, now).score
  {
    RecencyBound(cfg, Since(now, b.lastActivity));
  }

  lemma ScoresNonNegative(cfg: Config, bots: Bots, now: Time)
    requires cfg.Ready() && forall k <- bots :: bots[k].rate >= 0.0
    requires forall p :: cfg.Weight(p) >= 0.0
    ensures NonNegative(PoolOf(RescoreAll(cfg, bots, now)))
  {
    forall k <- bots ensures Rescore(cfg, bots[k], now).score >= 0.0 {
      assert cfg.Weight(bots[k].bot.plan) >= 0.0;
    }
  }
}
