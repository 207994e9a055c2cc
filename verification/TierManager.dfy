/**
  The tier manager itself: entries mutated in place, the passes as loops.

  A pass decays and scores every bot, takes the fresh ones off a heap, fills what
  is left from a sort, and settles each bot's tier and polls.  Each of these is a
  loop over the manager's map, in an order that is left open, proved against the
  selection of TierSelection and the pass of TierModel.

  Each public method is proved to be one step of the run model in TierRun.
 */
module TierManager {
  import opened Sequences
  import opened TierSelection
  import opened TierModel
  import opened ScoreHeaps
  import TierRun

  // ----- counting per tenant -----

  function CountOf(perTenant: map<Id, int>, tenant: Id): int {
    if tenant in perTenant then perTenant[tenant] else 0
  }

  ghost predicate Counts(perTenant: map<Id, int>, pool: Pool, selected: set<Id>)
    requires selected <= pool.Keys
  {
    forall t :: CountOf(perTenant, t) == |OfTenant(pool, selected, t)|
  }

  lemma CountOneMore(perTenant: map<Id, int>, pool: Pool, selected: set<Id>, k: Id)
    requires selected <= pool.Keys && k in pool && k !in selected && Counts(perTenant, pool, selected)
    ensures var t := pool[k].tenant; Counts(perTenant[t := CountOf(perTenant, t) + 1], pool, selected + {k})
  {
    OfTenantAdd(pool, selected, k);
  }

  // ----- entries by key -----

  ghost predicate KeyedEntries(bots: map<Id, Entry>) {
    forall k <- bots :: bots[k].bot.keyID == k
  }

  ghost function EntriesOf(bots: map<Id, Entry>, s: set<Id>): set<Entry>
    requires s <= bots.Keys
  {
    set k | k in s :: bots[k]
  }

  ghost predicate Lists(bots: map<Id, Entry>, h: seq<Entry>, s: set<Id>)
    requires s <= bots.Keys
  {
    multiset(h) == multiset(EntriesOf(bots, s))
  }

  lemma EntriesOfAdd(bots: map<Id, Entry>, s: set<Id>, k: Id)
    requires KeyedEntries(bots) && s <= bots.Keys && k in bots && k !in s
    ensures multiset(EntriesOf(bots, s + {k})) == multiset(EntriesOf(bots, s)) + multiset{bots[k]}
  {
    assert EntriesOf(bots, s + {k}) == EntriesOf(bots, s) + {bots[k]};
    assert bots[k] !in EntriesOf(bots, s);
  }

  lemma ListsAppend(bots: map<Id, Entry>, h: seq<Entry>, s: set<Id>, k: Id)
    requires KeyedEntries(bots) && s <= bots.Keys && k in bots && k !in s && Lists(bots, h, s)
    ensures Lists(bots, h + [bots[k]], s + {k})
  {
    EntriesOfAdd(bots, s, k);
  }

  lemma ListsMaybeAppend(bots: map<Id, Entry>, h: seq<Entry>, s: set<Id>, k: Id)
    requires KeyedEntries(bots) && s <= bots.Keys && k in bots && k !in s && Lists(bots, h, s)
    ensures Lists(bots, h + [bots[k]], s + {k}) && h + [] == h
  {
    ListsAppend(bots, h, s, k);
  }

  lemma ListsRemove(bots: map<Id, Entry>, h: seq<Entry>, h': seq<Entry>, s: set<Id>, e: Entry)
    requires KeyedEntries(bots) && s <= bots.Keys && Lists(bots, h, s)
    requires multiset(h) == multiset(h') + multiset{e}
    ensures var k := e.bot.keyID; k in s && bots[k] == e && Lists(bots, h', s - {k})
  {
    assert e in multiset(h);
    assert e in EntriesOf(bots, s);
    var k :| k in s && bots[k] == e;
    EntriesOfAdd(bots, s - {k}, k);
    assert s - {k} + {k} == s;
    assert multiset(h') == multiset(h) - multiset{e};
  }

  lemma ListsMember(bots: map<Id, Entry>, h: seq<Entry>, s: set<Id>, k: Id)
    requires s <= bots.Keys && Lists(bots, h, s) && k in s
    ensures bots[k] in h
  {
    assert bots[k] in multiset(h);
  }

  ghost predicate Reflects(pool: Pool, bots: map<Id, Entry>)
    reads bots.Values
  {
    pool.Keys == bots.Keys && forall k <- bots :: pool[k] == Candidate(bots[k].bot.tenantID, bots[k].score)
  }

  // ----- the heap loop, on values -----

  /** `taken` came off in score order, before everything in `left`. */
  ghost predicate TakenInOrder(pool: Pool, taken: seq<Id>, left: set<Id>, all: set<Id>) {
    && left <= all && SortedEnumeration(pool, taken, all - left)
    && forall k <- taken, x <- left :: x in pool && pool[k].score >= pool[x].score
  }

  lemma TakeBest(pool: Pool, taken: seq<Id>, left: set<Id>, all: set<Id>, k: Id)
    requires all <= pool.Keys && TakenInOrder(pool, taken, left, all) && k in left
    requires forall x <- left :: pool[k].score >= pool[x].score
    ensures TakenInOrder(pool, taken + [k], left - {k}, all)
  {}

  lemma TakeRest(pool: Pool, taken: seq<Id>, left: set<Id>, all: set<Id>) returns (order: seq<Id>)
    requires all <= pool.Keys && TakenInOrder(pool, taken, left, all)
    ensures SortedEnumeration(pool, order, all) && taken <= order
    ensures left == {} ==> order == taken
  {
    var rest := SortedEnumerationExists(pool, left);
    order := taken + rest;
    assert forall k :: k in order <==> k in taken || k in rest;
    assert left == {} ==> rest == [] by {
      if rest != [] {
        assert rest[0] in left;
      }
    }
    forall i, j | 0 <= i < j < |order| ensures pool[order[i]].score >= pool[order[j]].score && order[i] != order[j] {
      assert order[i] in taken || order[i] in rest;
      assert i >= |taken| ==> order[i] == rest[i - |taken|];
      assert j >= |taken| ==> order[j] == rest[j - |taken|] && order[j] in left;
    }
  }

  /** Stopping early loses nothing: the greedy result on the whole order is already reached. */
  lemma GreedyStops(pool: Pool, taken: seq<Id>, order: seq<Id>, budget: int, cap: int, sel: set<Id>)
    requires sel <= pool.Keys && (forall k <- order :: k in pool) && taken <= order
    ensures forall k <- taken :: k in pool
    ensures var r := Greedy(pool, taken, budget, cap, sel);
            taken == order || |r| >= budget ==> Greedy(pool, order, budget, cap, sel) == r
  {
    assert order == taken + order[|taken|..];
    GreedyAppend(pool, taken, order[|taken|..], budget, cap, sel);
  }

  /** One more bot through the greedy loop. */
  lemma GreedySnoc(pool: Pool, order: seq<Id>, k: Id, budget: int, cap: int, sel: set<Id>)
    requires sel <= pool.Keys && (forall x <- order :: x in pool) && k in pool
    ensures forall x <- order + [k] :: x in pool
    ensures var r := Greedy(pool, order, budget, cap, sel);
            |r| < budget ==> Greedy(pool, order + [k], budget, cap, sel)
                             == if TenantFull(pool, r, cap, pool[k].tenant) then r else r + {k}
  {
    GreedyAppend(pool, order, [k], budget, cap, sel);
    var r := Greedy(pool, order, budget, cap, sel);
    assert Greedy(pool, [], budget, cap, r) == r;
    assert Greedy(pool, [], budget, cap, r + {k}) == r + {k};
  }

  // ----- the greedy loops, on values -----

  /** A greedy loop started from `base` has worked through `taken`. */
  ghost predicate GreedySoFar(pool: Pool, base: set<Id>, taken: seq<Id>, budget: int, cap: int,
                              selected: set<Id>, perTenant: map<Id, int>) {
    && base <= pool.Keys && (forall k <- taken :: k in pool)
    && selected == Greedy(pool, taken, budget, cap, base)
    && Counts(perTenant, pool, selected)
  }

  lemma GreedyOneMore(pool: Pool, base: set<Id>, taken: seq<Id>, budget: int, cap: int,
                      selected: set<Id>, perTenant: map<Id, int>, k: Id)
    requires GreedySoFar(pool, base, taken, budget, cap, selected, perTenant)
    requires |selected| < budget && k in pool && k !in base && k !in taken
    ensures var t := pool[k].tenant;
            if cap > 0 && CountOf(perTenant, t) >= cap
            then GreedySoFar(pool, base, taken + [k], budget, cap, selected, perTenant)
            else GreedySoFar(pool, base, taken + [k], budget, cap, selected + {k},
                             perTenant[t := CountOf(perTenant, t) + 1])
  {
    GreedySnoc(pool, taken, k, budget, cap, base);
    CountOneMore(perTenant, pool, selected, k);
  }

  /** What both loops do with one bot: skip it when its tenant is full, select it otherwise. */
  method Admit(ghost pool: Pool, ghost base: set<Id>, ghost taken: seq<Id>, ghost budget: int, cap: int,
               selected: set<Id>, perTenant: map<Id, int>, k: Id, tenant: Id)
    returns (selected': set<Id>, perTenant': map<Id, int>)
    requires GreedySoFar(pool, base, taken, budget, cap, selected, perTenant)
    requires |selected| < budget && k in pool && k !in base && k !in taken && tenant == pool[k].tenant
    ensures GreedySoFar(pool, base, taken + [k], budget, cap, selected', perTenant')
    ensures k !in selected && (selected' == selected || selected' == selected + {k})
  {
    GreedyOneMore(pool, base, taken, budget, cap, selected, perTenant, k);
    if cap > 0 && CountOf(perTenant, tenant) >= cap {
      return selected, perTenant;
    }
    selected' := selected + {k};
    perTenant' := perTenant[tenant := CountOf(perTenant, tenant) + 1];
  }

  /** The heap's top entry outscores everything still in the heap. */
  lemma PoppedIsBest(bots: map<Id, Entry>, pool: Pool, h: seq<Entry>, left: set<Id>, e: Entry)
    requires KeyedEntries(bots) && Reflects(pool, bots) && left <= bots.Keys && Lists(bots, h, left)
    requires e in h && forall x <- h :: e.score >= x.score
    ensures var k := e.bot.keyID;
            && k in left && pool[k].tenant == e.bot.tenantID
            && forall x <- left :: pool[k].score >= pool[x].score
  {
    ListedKeys(bots, h, left);
    forall x <- left ensures bots[x] in h {
      ListsMember(bots, h, left, x);
    }
  }

  /** The heap `h` still holds the bots in `left`; those taken off came off in score order. */
  ghost predicate HeapHolds(bots: map<Id, Entry>, pool: Pool, active: set<Id>, taken: seq<Id>, left: set<Id>,
                            h: seq<Entry>) {
    && KeyedEntries(bots) && pool.Keys == bots.Keys && active <= bots.Keys
    && TakenInOrder(pool, taken, left, active) && Lists(bots, h, left)
  }

  lemma PopNext(bots: map<Id, Entry>, pool: Pool, active: set<Id>, taken: seq<Id>, left: set<Id>,
                h: seq<Entry>, h': seq<Entry>, e: Entry)
    requires HeapHolds(bots, pool, active, taken, left, h) && Reflects(pool, bots)
    requires multiset(h) == multiset(h') + multiset{e} && forall x <- h :: e.score >= x.score
    ensures var k := e.bot.keyID;
            && k in left && k in pool && k !in taken && pool[k].tenant == e.bot.tenantID
            && HeapHolds(bots, pool, active, taken + [k], left - {k}, h')
  {
    assert e in multiset(h);
    PoppedIsBest(bots, pool, h, left, e);
    ListsRemove(bots, h, h', left, e);
    TakeBest(pool, taken, left, active, e.bot.keyID);
  }

  lemma HeapOrder(bots: map<Id, Entry>, pool: Pool, active: set<Id>, taken: seq<Id>, left: set<Id>, h: seq<Entry>)
    returns (order: seq<Id>)
    requires HeapHolds(bots, pool, active, taken, left, h)
    ensures SortedEnumeration(pool, order, active) && taken <= order
    ensures h == [] ==> taken == order
  {
    order := TakeRest(pool, taken, left, active);
    if left != {} {
      assert bots[Pick(left)] in EntriesOf(bots, left);
    }
  }

  /** When the loop ends, what it selected is a greedy choice along a score order of all the active bots. */
  lemma HeapLoopDone(bots: map<Id, Entry>, pool: Pool, active: set<Id>, taken: seq<Id>, left: set<Id>, h: seq<Entry>,
                     slots: int, cap: int, selected: set<Id>, perTenant: map<Id, int>)
    requires HeapHolds(bots, pool, active, taken, left, h)
    requires GreedySoFar(pool, {}, taken, slots, cap, selected, perTenant)
    requires h == [] || |selected| >= slots
    ensures selected <= pool.Keys && Counts(perTenant, pool, selected)
    ensures exists order :: SortedEnumeration(pool, order, active) && selected == Greedy(pool, order, slots, cap, {})
  {
    var order := HeapOrder(bots, pool, active, taken, left, h);
    GreedyStops(pool, taken, order, slots, cap, {});
  }

  // ----- sorting the spare bots -----

  ghost predicate Descending(h: seq<Entry>)
    reads h
  {
    DescendingScores(Scores(h))
  }

  ghost predicate DescendingScores(sc: seq<real>) {
    forall i, j :: 0 <= i < j < |sc| ==> sc[i] >= sc[j]
  }

  method InsertByScore(r: seq<Entry>, e: Entry) returns (r': seq<Entry>)
    requires Descending(r)
    ensures multiset(r') == multiset(r) + multiset{e} && Descending(r')
  {
    var j := 0;
    while j < |r| && r[j].score >= e.score
      invariant 0 <= j <= |r| && forall l :: 0 <= l < j ==> r[l].score >= e.score
    {
      j := j + 1;
    }
    InsertDescending(r, e, j);
    r' := r[..j] + [e] + r[j..];
  }

  lemma InsertDescending(r: seq<Entry>, e: Entry, j: int)
    requires Descending(r) && 0 <= j <= |r|
    requires forall l :: 0 <= l < j ==> r[l].score >= e.score
    requires j < |r| ==> r[j].score < e.score
    ensures multiset(r[..j] + [e] + r[j..]) == multiset(r) + multiset{e}
    ensures Descending(r[..j] + [e] + r[j..])
  {
    InsertedContents(r, e, j);
    InsertedScores(r, e, j);
    InsertKeepsOrder(Scores(r), e.score, j);
  }

  lemma InsertedContents(r: seq<Entry>, e: Entry, j: int)
    requires 0 <= j <= |r|
    ensures multiset(r[..j] + [e] + r[j..]) == multiset(r) + multiset{e}
  {
    assert r == r[..j] + r[j..];
  }

  lemma InsertedScores(r: seq<Entry>, e: Entry, j: int)
    requires 0 <= j <= |r|
    ensures Scores(r[..j] + [e] + r[j..]) == Scores(r)[..j] + [e.score] + Scores(r)[j..]
  {}

  lemma InsertKeepsOrder(sc: seq<real>, x: real, j: int)
    requires 0 <= j <= |sc| && DescendingScores(sc)
    requires forall l :: 0 <= l < j ==> sc[l] >= x
    requires j < |sc| ==> sc[j] < x
    ensures DescendingScores(sc[..j] + [x] + sc[j..])
  {
    forall l | j <= l < |sc| ensures sc[l] < x {
      assert sc[j] >= sc[l];
    }
  }

  /** Some order by score; the contract leaves ties open, as an unstable sort does. */
  method SortByScore(h: seq<Entry>) returns (r: seq<Entry>)
    ensures multiset(r) == multiset(h) && Descending(r)
  {
    r := [];
    for i := 0 to |h|
      invariant multiset(r) == multiset(h[..i]) && Descending(r)
    {
      r := InsertByScore(r, h[i]);
      assert h[..i + 1] == h[..i] + [h[i]];
    }
    assert h[..|h|] == h;
  }

  ghost function KeysOf(h: seq<Entry>): (r: seq<Id>)
    ensures |r| == |h| && forall i :: 0 <= i < |h| ==> r[i] == h[i].bot.keyID
  {
    seq(|h|, i requires 0 <= i < |h| => h[i].bot.keyID)
  }

  lemma NoDuplicates(h: seq<Entry>, s: set<Entry>)
    requires multiset(h) == multiset(s)
    ensures forall i, j :: 0 <= i < j < |h| ==> h[i] != h[j]
  {
    forall i, j | 0 <= i < j < |h| ensures h[i] != h[j] {
      if h[i] == h[j] {
        CountedTwice(h, i, j);
        assert false;
      }
    }
  }

  /** A listing of entries in score order is a sorted enumeration of their keys. */
  lemma ListedInOrder(bots: map<Id, Entry>, pool: Pool, h: seq<Entry>, s: set<Id>)
    requires KeyedEntries(bots) && s <= bots.Keys && Lists(bots, h, s) && Reflects(pool, bots) && Descending(h)
    ensures SortedEnumeration(pool, KeysOf(h), s)
  {
    var order := KeysOf(h);
    ListedKeys(bots, h, s);
    NoDuplicates(h, EntriesOf(bots, s));
  }

  lemma ListedKeys(bots: map<Id, Entry>, h: seq<Entry>, s: set<Id>)
    requires KeyedEntries(bots) && s <= bots.Keys && Lists(bots, h, s)
    ensures forall e <- h :: e.bot.keyID in s && bots[e.bot.keyID] == e
    ensures forall k :: k in KeysOf(h) <==> k in s
  {
    var order := KeysOf(h);
    forall e <- h ensures e.bot.keyID in s && bots[e.bot.keyID] == e {
      assert e in multiset(h);
      assert e in EntriesOf(bots, s);
    }
    forall k <- s ensures k in order {
      ListsMember(bots, h, s, k);
      var i :| 0 <= i < |h| && h[i] == bots[k];
      assert order[i] == k;
    }
  }

  // ----- wanted tiers -----

  ghost predicate WantsExcept(cfg: Config, bots: Bots, now: Time, want: map<Id, Tier>, todo: set<Id>) {
    want.Keys == bots.Keys - todo && forall k <- want :: want[k] == Desired(cfg, bots[k], now)
  }

  ghost function WantHot(want: map<Id, Tier>): set<Id> {
    set k | k in want && want[k].Hot?
  }

  /** The bots of `before` that are still to do, the others as in `after`. */
  ghost function Blend(before: Bots, after: Bots, todo: set<Id>): Bots
    requires before.Keys == after.Keys
  {
    map k | k in before :: if k in todo then before[k] else after[k]
  }

  lemma BlendOneMore(before: Bots, after: Bots, todo: set<Id>, k: Id)
    requires before.Keys == after.Keys && k in before && k in todo
    ensures Blend(before, after, todo)[k := after[k]] == Blend(before, after, todo - {k})
  {}

  lemma WantOneMore(cfg: Config, before: Bots, now: Time, want: map<Id, Tier>, todo: set<Id>, k: Id)
    requires k in before && k in todo && WantsExcept(cfg, before, now, want, todo)
    ensures var t := Desired(cfg, before[k], now);
            && WantsExcept(cfg, before, now, want[k := t], todo - {k})
            && k !in WantHot(want)
            && WantHot(want[k := t]) == if t.Hot? then WantHot(want) + {k} else WantHot(want)
  {}

  /** The scoring loop with `todo` still ahead of it. */
  ghost predicate ScoredSoFar(cfg: Config, bots: map<Id, Entry>, before: Bots, now: Time, todo: set<Id>,
                              view: Bots, want: map<Id, Tier>, h: seq<Entry>)
    requires cfg.Ready()
  {
    && KeyedEntries(bots) && before.Keys == bots.Keys && todo <= bots.Keys
    && view == Blend(before, RescoreAll(cfg, before, now), todo)
    && WantsExcept(cfg, before, now, want, todo)
    && Lists(bots, h, WantHot(want))
  }

  lemma ScoredOneMore(cfg: Config, bots: map<Id, Entry>, before: Bots, now: Time, todo: set<Id>, k: Id,
                      view: Bots, want: map<Id, Tier>, h: seq<Entry>)
    requires cfg.Ready() && k in todo && ScoredSoFar(cfg, bots, before, now, todo, view, want, h)
    ensures k in view && view[k] == before[k]
    ensures var t := Desired(cfg, before[k], now);
            ScoredSoFar(cfg, bots, before, now, todo - {k}, view[k := Rescore(cfg, before[k], now)], want[k := t],
                        h + if t.Hot? then [bots[k]] else [])
  {
    BlendOneMore(before, RescoreAll(cfg, before, now), todo, k);
    WantOneMore(cfg, before, now, want, todo, k);
    ListsMaybeAppend(bots, h, WantHot(want), k);
  }

  lemma ScoredDone(cfg: Config, bots: map<Id, Entry>, before: Bots, now: Time,
                   view: Bots, want: map<Id, Tier>, h: seq<Entry>)
    requires cfg.Ready() && ScoredSoFar(cfg, bots, before, now, {}, view, want, h)
    ensures view == RescoreAll(cfg, before, now)
    ensures WantsExcept(cfg, view, now, want, {})
    ensures Lists(bots, h, ActiveKeys(cfg, view, now))
  {
    assert view == RescoreAll(cfg, before, now);
    assert WantHot(want) == ActiveKeys(cfg, view, now);
  }

  // ----- one entry -----

  /** Decay and score one bot; report the tier its own activity asks for. */
  method ScoreEntry(cfg: Config, e: Entry, now: Time) returns (want: Tier)
    requires cfg.Ready()
    modifies e
    ensures e.View() == Rescore(cfg, old(e.View()), now)
    ensures want == Desired(cfg, e.View(), now)
  {
    var age := Since(now, e.lastActivity);
    e.rate := e.rate * 0.9;
    var recency := 1.0 - age as real / cfg.hotIdle as real;
    if recency < 0.0 {
      recency := 0.0;
    }
    e.score := cfg.Weight(e.bot.plan) * 100.0 + recency * 10.0 + e.rate;
    if e.lastActivity == ZERO_TIME || age > cfg.warmIdle {
      want := Cold;
    } else if age > cfg.hotIdle {
      want := Warm;
    } else {
      want := Hot;
    }
  }

  /** Move one bot to its decided tier and poll it when that is due. */
  method ReconcileEntry(cfg: Config, e: Entry, want: Tier, selected: bool, now: Time) returns (acts: seq<Action>)
    requires want == if selected then Hot else Desired(cfg, e.View(), now)
    modifies e
    ensures e.View() == Settle(cfg, old(e.View()), selected, now)
    ensures acts == Emitted(cfg, old(e.View()), selected, now)
  {
    acts := [];
    var target := want;
    if target.Hot? && !selected {
      target := Warm;
    }
    var prev := e.tier;
    if target.Hot? {
      e.tier := Hot;
      if !prev.Hot? {
        acts := acts + [OpenHot(e.bot)];
      }
    } else {
      if prev.Hot? {
        acts := acts + [CloseHot(e.bot.keyID)];
      }
      e.tier := target;
    }
    if !e.tier.Hot? && now >= e.nextPoll {
      var interval := cfg.warmPoll;
      if e.tier.Cold? {
        interval := cfg.coldPoll;
      }
      e.nextPoll := now + interval;
      acts := acts + [Poll(e.bot)];
    }
  }

  // ----- the reconcile loop, on values -----

  /** The reconcile loop has settled the bots in `order`; `todo` is still ahead of it. */
  ghost predicate SettledSoFar(cfg: Config, before: Bots, now: Time, selected: set<Id>, todo: set<Id>,
                               order: seq<Id>, view: Bots, acts: seq<Action>) {
    && todo <= before.Keys && Enumerates(order, before.Keys - todo)
    && view == Blend(before, SettleAll(cfg, before, selected, now), todo)
    && acts == EmittedAll(cfg, before, order, selected, now)
  }

  lemma SettledOneMore(cfg: Config, before: Bots, now: Time, selected: set<Id>, todo: set<Id>,
                       order: seq<Id>, view: Bots, acts: seq<Action>, k: Id)
    requires SettledSoFar(cfg, before, now, selected, todo, order, view, acts) && k in todo
    ensures k in view && view[k] == before[k]
    ensures SettledSoFar(cfg, before, now, selected, todo - {k}, order + [k],
                         view[k := Settle(cfg, before[k], k in selected, now)],
                         acts + Emitted(cfg, before[k], k in selected, now))
  {
    BlendOneMore(before, SettleAll(cfg, before, selected, now), todo, k);
    assert (order + [k])[..|order + [k]| - 1] == order;
    assert forall x :: x in order + [k] <==> x in order || x == k;
  }

  lemma SettledDone(cfg: Config, before: Bots, now: Time, selected: set<Id>, order: seq<Id>, view: Bots,
                    acts: seq<Action>)
    requires SettledSoFar(cfg, before, now, selected, {}, order, view, acts)
    ensures Enumerates(order, before.Keys) && view == SettleAll(cfg, before, selected, now)
  {
    assert before.Keys - {} == before.Keys;
    assert view == SettleAll(cfg, before, selected, now);
  }

  lemma MakePass(cfg: Config, before: Bots, now: Time, slots: int, first: set<Id>, selected: set<Id>, order: seq<Id>,
                 view: Bots, acts: seq<Action>)
    requires cfg.Ready()
    requires var scored := RescoreAll(cfg, before, now);
             && Selection(PoolOf(scored), ActiveKeys(cfg, scored, now), slots, cfg.hotPerTenant, first, selected)
             && Enumerates(order, before.Keys)
             && view == SettleAll(cfg, scored, selected, now)
             && acts == EmittedAll(cfg, scored, order, selected, now)
    ensures Pass(cfg, before, now, slots, view, acts)
  {
    TierRun.Rescored(cfg, before, now);
    assert PassVia(cfg, before, now, slots, first, selected, order, view, acts);
  }

  lemma PassIsStep(cfg: Config, bots: Bots, s: TierRun.State, now: Time, memMB: nat, view: Bots, acts: seq<Action>)
    returns (s': TierRun.State)
    requires cfg.Ready() && Pass(cfg, bots, now, cfg.Slots(memMB), view, acts)
    ensures s'.bots == view && s'.log == s.log + TierRun.Stamped(acts, now)
    ensures TierRun.PassStep(cfg, bots, s, now, memMB, s')
  {
    s' := TierRun.State(view, s.log + TierRun.Stamped(acts, now), cfg.Slots(memMB), TierRun.Later(s.clock, now));
  }

  // ----- spare slots -----

  /** `want'` is `want` with every newly selected bot wanting Hot. */
  ghost predicate Promoted(want: map<Id, Tier>, first: set<Id>, selected: set<Id>, want': map<Id, Tier>) {
    want'.Keys == want.Keys && forall k <- want :: want'[k] == if k in selected - first then Hot else want[k]
  }

  lemma PromotedOneMore(want: map<Id, Tier>, first: set<Id>, selected: set<Id>, want': map<Id, Tier>, k: Id)
    requires Promoted(want, first, selected, want') && k in want && k !in first
    ensures Promoted(want, first, selected + {k}, want'[k := Hot])
  {}

  /** The bot at position `i` of the spare order: known, not selected before, not listed before. */
  ghost predicate SpareAt(pool: Pool, want: map<Id, Tier>, first: set<Id>, spare: seq<Entry>, order: seq<Id>, i: int)
    requires |order| == |spare|
  {
    0 <= i < |order| ==>
      && order[i] == spare[i].bot.keyID && order[i] in want && order[i] !in first
      && order[i] in pool && pool[order[i]].tenant == spare[i].bot.tenantID
      && order[i] !in order[..i] && order[..i + 1] == order[..i] + [order[i]]
  }

  lemma SpareOrder(bots: map<Id, Entry>, pool: Pool, want: map<Id, Tier>, first: set<Id>, spare: seq<Entry>)
    requires KeyedEntries(bots) && Reflects(pool, bots) && want.Keys == bots.Keys && first <= bots.Keys
    requires SortedEnumeration(pool, KeysOf(spare), bots.Keys - first)
    requires forall e <- spare :: e.bot.keyID in bots && bots[e.bot.keyID] == e
    ensures forall i :: SpareAt(pool, want, first, spare, KeysOf(spare), i)
  {
    var order := KeysOf(spare);
    forall i ensures SpareAt(pool, want, first, spare, order, i) {
      if 0 <= i < |order| {
        assert order[i] in order && spare[i] in spare;
      }
    }
  }

  method SpareLoop(ghost pool: Pool, spare: seq<Entry>, ghost order: seq<Id>, first: set<Id>, counts: map<Id, int>,
                   want: map<Id, Tier>, slots: int, cap: int)
    returns (selected: set<Id>, want': map<Id, Tier>)
    requires |order| == |spare| && forall i :: SpareAt(pool, want, first, spare, order, i)
    requires first <= pool.Keys && Counts(counts, pool, first) && forall k <- order :: k in pool
    ensures selected == Greedy(pool, order, slots, cap, first)
    ensures Promoted(want, first, selected, want')
  {
    selected, want' := first, want;
    var perTenant := counts;
    var i := 0;
    while i < |spare| && |selected| < slots
      invariant 0 <= i <= |spare|
      invariant GreedySoFar(pool, first, order[..i], slots, cap, selected, perTenant)
      invariant Promoted(want, first, selected, want')
    {
      var k, tenant := spare[i].bot.keyID, spare[i].bot.tenantID;
      assert SpareAt(pool, want, first, spare, order, i);
      PromotedOneMore(want, first, selected, want', k);
      selected, perTenant := Admit(pool, first, order[..i], slots, cap, selected, perTenant, k, tenant);
      if k in selected {
        want' := want'[k := Hot];
      }
      i := i + 1;
    }
    GreedyStops(pool, order[..i], order, slots, cap, first);
  }

  // ----- the manager -----

  class Manager {
    const cfg: Config
    var bots: map<Id, Entry>

    ghost predicate Valid()
      reads this`bots
    {
      cfg.Ready() && KeyedEntries(bots)
    }

    ghost function View(): Bots
      reads this`bots, bots.Values
    {
      map k | k in bots :: bots[k].View()
    }

    constructor (cfg: Config)
      ensures Valid() && this.cfg == cfg.WithDefaults() && View() == TierRun.INITIAL.bots
    {
      this.cfg := cfg.WithDefaults();
      bots := map[];
    }

    // ----- the phases of a pass -----

    method ScoreOne(k: Id, now: Time, want: map<Id, Tier>, candidates: ScoreHeap) returns (want': map<Id, Tier>)
      requires Valid() && k in bots
      modifies bots[k], candidates
      ensures View() == old(View()[k := Rescore(cfg, View()[k], now)])
      ensures want' == want[k := Desired(cfg, old(View()[k]), now)]
      ensures candidates.h == old(candidates.h) + if want'[k].Hot? then [bots[k]] else []
    {
      var e := bots[k];
      var wanted := ScoreEntry(cfg, e, now);
      want' := want[k := wanted];
      if wanted.Hot? {
        candidates.Push(e);
      }
    }

    /** Decay, score and classify every bot; the active ones become candidates. */
    method ScoreAll(now: Time) returns (want: map<Id, Tier>, candidates: ScoreHeap)
      requires Valid()
      modifies bots.Values
      ensures View() == RescoreAll(cfg, old(View()), now)
      ensures WantsExcept(cfg, View(), now, want, {})
      ensures fresh(candidates) && Lists(bots, candidates.h, ActiveKeys(cfg, View(), now))
    {
      ghost var before := View();
      want := map[];
      candidates := new ScoreHeap();
      var todo := bots.Keys;
      while todo != {}
        invariant fresh(candidates)
        invariant ScoredSoFar(cfg, bots, before, now, todo, View(), want, candidates.h)
        decreases todo
      {
        var k :| k in todo;
        ScoredOneMore(cfg, bots, before, now, todo, k, View(), want, candidates.h);
        want := ScoreOne(k, now, want, candidates);
        todo := todo - {k};
      }
      ScoredDone(cfg, bots, before, now, View(), want, candidates.h);
    }

    /** Pop the best candidate, and select it unless its tenant is full. */
    method PopAndAdmit(candidates: ScoreHeap, slots: int, selected: set<Id>, perTenant: map<Id, int>,
                       ghost pool: Pool, ghost active: set<Id>, ghost taken: seq<Id>, ghost left: set<Id>)
      returns (selected': set<Id>, perTenant': map<Id, int>, ghost k: Id)
      requires Reflects(pool, bots) && candidates.h != [] && |selected| < slots
      requires HeapFrom(Scores(candidates.h), 0, |candidates.h|)
               && HeapHolds(bots, pool, active, taken, left, candidates.h)
      requires GreedySoFar(pool, {}, taken, slots, cfg.hotPerTenant, selected, perTenant)
      modifies candidates
      ensures HeapFrom(Scores(candidates.h), 0, |candidates.h|)
      ensures k in left && HeapHolds(bots, pool, active, taken + [k], left - {k}, candidates.h)
      ensures GreedySoFar(pool, {}, taken + [k], slots, cfg.hotPerTenant, selected', perTenant')
    {
      ghost var h := candidates.h;
      var e := candidates.Pop();
      PopNext(bots, pool, active, taken, left, h, candidates.h, e);
      k := e.bot.keyID;
      selected', perTenant' := Admit(pool, {}, taken, slots, cfg.hotPerTenant, selected, perTenant,
                                     e.bot.keyID, e.bot.tenantID);
    }

    /** Pop the best candidates while slots last, skipping tenants that are full. */
    method SelectActive(candidates: ScoreHeap, slots: int, ghost pool: Pool, ghost active: set<Id>)
      returns (selected: set<Id>, perTenant: map<Id, int>)
      requires Valid() && Reflects(pool, bots) && active <= bots.Keys && Lists(bots, candidates.h, active)
      modifies candidates
      ensures selected <= pool.Keys && Counts(perTenant, pool, selected)
      ensures exists order :: SortedEnumeration(pool, order, active)
                           && selected == Greedy(pool, order, slots, cfg.hotPerTenant, {})
    {
      selected, perTenant := {}, map[];
      ghost var taken, left: set<Id> := [], active;
      candidates.Init();
      while candidates.h != [] && |selected| < slots
        invariant HeapFrom(Scores(candidates.h), 0, |candidates.h|)
        invariant HeapHolds(bots, pool, active, taken, left, candidates.h)
        invariant GreedySoFar(pool, {}, taken, slots, cfg.hotPerTenant, selected, perTenant)
        decreases left
      {
        ghost var k;
        selected, perTenant, k := PopAndAdmit(candidates, slots, selected, perTenant, pool, active, taken, left);
        taken, left := taken + [k], left - {k};
      }
      HeapLoopDone(bots, pool, active, taken, left, candidates.h, slots, cfg.hotPerTenant, selected, perTenant);
    }

    /** The entries that still have no slot, in map order. */
    method Unselected(selected: set<Id>) returns (spare: seq<Entry>)
      requires Valid() && selected <= bots.Keys
      ensures Lists(bots, spare, bots.Keys - selected)
    {
      spare := [];
      var todo := bots.Keys;
      while todo != {}
        invariant todo <= bots.Keys && Lists(bots, spare, bots.Keys - todo - selected)
        decreases todo
      {
        var k :| k in todo;
        if k !in selected {
          ListsAppend(bots, spare, bots.Keys - todo - selected, k);
          assert bots.Keys - (todo - {k}) - selected == bots.Keys - todo - selected + {k};
          spare := spare + [bots[k]];
        } else {
          assert bots.Keys - (todo - {k}) - selected == bots.Keys - todo - selected;
        }
        todo := todo - {k};
      }
      assert bots.Keys - todo - selected == bots.Keys - selected;
    }

    /** Give slots left over to the other bots, best score first, under the same tenant cap. */
    method FillSpare(first: set<Id>, counts: map<Id, int>, want: map<Id, Tier>, slots: int, ghost pool: Pool)
      returns (selected: set<Id>, want': map<Id, Tier>)
      requires Valid() && Reflects(pool, bots) && first <= pool.Keys && Counts(counts, pool, first)
               && want.Keys == bots.Keys
      requires |first| < slots
      ensures exists order :: SortedEnumeration(pool, order, pool.Keys - first)
                           && selected == Greedy(pool, order, slots, cfg.hotPerTenant, first)
      ensures Promoted(want, first, selected, want')
    {
      var spare := Unselected(first);
      spare := SortByScore(spare);
      ListedInOrder(bots, pool, spare, bots.Keys - first);
      ListedKeys(bots, spare, bots.Keys - first);
      SpareOrder(bots, pool, want, first, spare);
      selected, want' := SpareLoop(pool, spare, KeysOf(spare), first, counts, want, slots, cfg.hotPerTenant);
    }

    method ReconcileOne(k: Id, want: Tier, selected: bool, now: Time) returns (acts: seq<Action>)
      requires Valid() && k in bots && want == if selected then Hot else Desired(cfg, View()[k], now)
      modifies bots[k]
      ensures View() == old(View()[k := Settle(cfg, View()[k], selected, now)])
      ensures acts == Emitted(cfg, old(View()[k]), selected, now)
    {
      acts := ReconcileEntry(cfg, bots[k], want, selected, now);
    }

    /** Move every bot to its decided tier, in map order, and report the side effects to run. */
    method Reconcile(want: map<Id, Tier>, selected: set<Id>, now: Time)
      returns (acts: seq<Action>, ghost order: seq<Id>)
      requires Valid() && want.Keys == bots.Keys
      requires forall k <- bots :: want[k] == if k in selected then Hot else Desired(cfg, View()[k], now)
      modifies bots.Values
      ensures View() == SettleAll(cfg, old(View()), selected, now)
      ensures Enumerates(order, bots.Keys) && acts == EmittedAll(cfg, old(View()), order, selected, now)
    {
      ghost var before := View();
      acts, order := [], [];
      var todo := bots.Keys;
      while todo != {}
        invariant SettledSoFar(cfg, before, now, selected, todo, order, View(), acts)
        decreases todo
      {
        var k :| k in todo;
        SettledOneMore(cfg, before, now, selected, todo, order, View(), acts, k);
        var own := ReconcileOne(k, want[k], k in selected, now);
        acts := acts + own;
        todo := todo - {k};
        order := order + [k];
      }
      SettledDone(cfg, before, now, selected, order, View(), acts);
    }

    /** Both selection phases: fresh bots off the heap, then spare slots to the rest. */
    method Select(want: map<Id, Tier>, candidates: ScoreHeap, slots: int, ghost pool: Pool, ghost active: set<Id>)
      returns (selected: set<Id>, want': map<Id, Tier>, ghost first: set<Id>)
      requires Valid() && Reflects(pool, bots) && active <= bots.Keys && Lists(bots, candidates.h, active)
      requires want.Keys == bots.Keys && WantHot(want) == active
      modifies candidates
      ensures Selection(pool, active, slots, cfg.hotPerTenant, first, selected)
      ensures want'.Keys == want.Keys && selected <= bots.Keys
      ensures forall k <- want :: want'[k] == if k in selected then Hot else want[k]
    {
      var perTenant;
      selected, perTenant := SelectActive(candidates, slots, pool, active);
      want', first := want, selected;
      if |selected| < slots {
        selected, want' := FillSpare(selected, perTenant, want, slots, pool);
      }
      assert Selection(pool, active, slots, cfg.hotPerTenant, first, selected);
      FirstLoop(pool, active, slots, cfg.hotPerTenant, first, selected);
      BothLoops(pool, active, slots, cfg.hotPerTenant, first, selected);
    }

    /** Score every bot, and choose which ones are to be hot. */
    method Choose(now: Time, slots: int) returns (want: map<Id, Tier>, selected: set<Id>, ghost first: set<Id>)
      requires Valid()
      modifies bots.Values
      ensures View() == RescoreAll(cfg, old(View()), now) && want.Keys == bots.Keys
      ensures var pool := PoolOf(View());
              Selection(pool, ActiveKeys(cfg, View(), now), slots, cfg.hotPerTenant, first, selected)
      ensures forall k <- bots :: want[k] == if k in selected then Hot else Desired(cfg, View()[k], now)
    {
      var candidates;
      want, candidates := ScoreAll(now);
      ghost var scored := View();
      assert forall k <- bots :: (bots[k] as object) != candidates;
      selected, want, first := Select(want, candidates, slots, PoolOf(scored), ActiveKeys(cfg, scored, now));
      assert View() == scored;
    }

    /** One pass: recompute every tier and report the side effects to run after the lock is released. */
    method RebalanceLocked(now: Time, memMB: nat) returns (acts: seq<Action>)
      requires Valid()
      modifies bots.Values
      ensures Pass(cfg, old(View()), now, cfg.Slots(memMB), View(), acts)
    {
      ghost var before := View();
      var effHot := cfg.maxHot;
      if cfg.memHighMB > 0 && memMB >= cfg.memHighMB {
        effHot := cfg.pressureHotCap;
      }
      var want, selected;
      ghost var first, order;
      want, selected, first := Choose(now, effHot);
      acts, order := Reconcile(want, selected, now);
      MakePass(cfg, before, now, effHot, first, selected, order, View(), acts);
    }

    // ----- the public operations -----

    // Each is one step of the run model: `s` is the model state the manager is
    // in before the call, `s'` the one it is in after it.

    method Add(bot: BotRef, pollAt: Time, activeAt: Time, ghost s: TierRun.State) returns (ghost s': TierRun.State)
      requires Valid() && s.bots == View()
      modifies this
      ensures Valid() && s'.bots == View()
      ensures TierRun.Step(cfg, s, TierRun.Add(bot, pollAt, activeAt), s')
    {
      s' := s;
      if bot.keyID !in bots {
        var e := new Entry(bot, pollAt, activeAt);
        bots := bots[bot.keyID := e];
        s' := s.(bots := View(), clock := TierRun.Later(s.clock, activeAt));
      }
    }

    /** Returns the side effect to run: closing the bot's socket, if it has one. */
    method Remove(keyID: Id, ghost s: TierRun.State) returns (acts: seq<Action>, ghost s': TierRun.State)
      requires Valid() && s.bots == View()
      modifies this
      ensures Valid() && s'.bots == View()
      ensures TierRun.Step(cfg, s, TierRun.Remove(keyID), s')
      ensures acts == if keyID in s.bots && s.bots[keyID].tier.Hot? then [CloseHot(keyID)] else []
    {
      acts, s' := [], s;
      if keyID in bots {
        var e := bots[keyID];
        bots := bots - {keyID};
        if e.tier.Hot? {
          acts := [CloseHot(keyID)];
        }
        s' := s.(bots := View(), log := s.log + [TierRun.Deregistered(keyID, e.tier.Hot?)]);
      }
    }

    method Touch(keyID: Id, now: Time, memMB: nat, ghost s: TierRun.State)
      returns (acts: seq<Action>, ghost s': TierRun.State)
      requires Valid() && s.bots == View()
      modifies bots.Values
      ensures s'.bots == View() && s'.log == s.log + TierRun.Stamped(acts, now)
      ensures TierRun.Step(cfg, s, TierRun.Touch(keyID, now, memMB), s')
    {
      if keyID in bots {
        var e := bots[keyID];
        e.lastActivity := now;
        e.rate := e.rate * 0.7 + 1.0;
      }
      ghost var touched := TierRun.TouchBot(s.bots, keyID, now);
      assert View() == touched;
      acts := RebalanceLocked(now, memMB);
      s' := PassIsStep(cfg, touched, s, now, memMB, View(), acts);
    }

    method Rebalance(now: Time, memMB: nat, ghost s: TierRun.State) returns (acts: seq<Action>, ghost s': TierRun.State)
      requires Valid() && s.bots == View()
      modifies bots.Values
      ensures s'.bots == View() && s'.log == s.log + TierRun.Stamped(acts, now)
      ensures TierRun.Step(cfg, s, TierRun.Rebalance(now, memMB), s')
    {
      acts := RebalanceLocked(now, memMB);
      s' := PassIsStep(cfg, s.bots, s, now, memMB, View(), acts);
    }

    method ForceTier(keyID: Id, tier: Tier, ghost s: TierRun.State) returns (ghost s': TierRun.State)
      requires Valid() && s.bots == View()
      modifies bots.Values
      ensures s'.bots == View()
      ensures TierRun.Step(cfg, s, TierRun.ForceTier(keyID, tier), s')
    {
      s' := s;
      if keyID in bots {
        bots[keyID].tier := tier;
        s' := s.(bots := View(), log := s.log + [TierRun.Forced(keyID, tier)]);
      }
    }

    method HotCount() returns (n: nat)
      requires Valid()
      ensures n == |HotKeys(View())|
    {
      n := 0;
      var todo := bots.Keys;
      ghost var hot: set<Id> := {};
      while todo != {}
        invariant todo <= bots.Keys && n == |hot|
        invariant hot == set k | k in bots && k !in todo && bots[k].tier.Hot?
        decreases todo
      {
        var k :| k in todo;
        todo := todo - {k};
        if bots[k].tier.Hot? {
          n := n + 1;
          hot := hot + {k};
        }
      }
      assert hot == HotKeys(View());
    }
  }
}
