/**
  Filling scarce hot slots greedily.  The sets of bots that respect a slot budget and a
  per-tenant cap form a truncated partition matroid; ties and map order stay free.
 */
module TierSelection {
  import opened Sequences

  /** An identifier: a bot's key, or its tenant's. */
  datatype Id = Id(text: string)

  /** What selection looks at: the tenant a bot belongs to, and its score. */
  datatype Candidate = Candidate(tenant: Id, score: real)

  type Pool = map<Id, Candidate>

  function Min(a: int, b: int): int {
    if a <= b then a else b
  }

  // ----- feasible sets -----

  ghost function OfTenant(pool: Pool, s: set<Id>, tenant: Id): set<Id>
    requires s <= pool.Keys
  {
    set k | k in s && pool[k].tenant == tenant
  }

  /** `cap <= 0` means that there is no per-tenant cap. */
  ghost predicate TenantFull(pool: Pool, s: set<Id>, cap: int, tenant: Id)
    requires s <= pool.Keys
  {
    cap > 0 && |OfTenant(pool, s, tenant)| >= cap
  }

  ghost predicate WithinCap(pool: Pool, s: set<Id>, cap: int)
    requires s <= pool.Keys
  {
    cap > 0 ==> forall t :: |OfTenant(pool, s, t)| <= cap
  }

  ghost predicate Feasible(pool: Pool, s: set<Id>, budget: int, cap: int) {
    s <= pool.Keys && (s == {} || |s| <= budget) && WithinCap(pool, s, cap)
  }

  ghost function Pick<T>(s: set<T>): (x: T)
    requires s != {}
    ensures x in s
  {
    var x :| x in s;
    x
  }

  ghost function TotalScore(pool: Pool, s: set<Id>): real
    requires s <= pool.Keys
  {
    if s == {} then 0.0
    else var k := Pick(s); pool[k].score + TotalScore(pool, s - {k})
  }

  lemma {:induction false} TotalScoreRemove(pool: Pool, s: set<Id>, k: Id)
    requires k in s && s <= pool.Keys
    ensures TotalScore(pool, s) == pool[k].score + TotalScore(pool, s - {k})
    decreases |s|
  {
    var p := Pick(s);
    if p != k {
      TotalScoreRemove(pool, s - {p}, k);
      TotalScoreRemove(pool, s - {k}, p);
      assert s - {p} - {k} == s - {k} - {p};
    }
  }

  lemma TotalScoreAdd(pool: Pool, s: set<Id>, k: Id)
    requires s <= pool.Keys && k in pool && k !in s
    ensures TotalScore(pool, s + {k}) == pool[k].score + TotalScore(pool, s)
  {
    TotalScoreRemove(pool, s + {k}, k);
    assert s + {k} - {k} == s;
  }

  lemma OfTenantAdd(pool: Pool, s: set<Id>, k: Id)
    requires s <= pool.Keys && k in pool && k !in s
    ensures forall t :: |OfTenant(pool, s + {k}, t)|
                     == |OfTenant(pool, s, t)| + if t == pool[k].tenant then 1 else 0
  {
    forall t
      ensures |OfTenant(pool, s + {k}, t)| == |OfTenant(pool, s, t)| + if t == pool[k].tenant then 1 else 0
    {
      if t == pool[k].tenant {
        assert OfTenant(pool, s + {k}, t) == OfTenant(pool, s, t) + {k};
      } else {
        assert OfTenant(pool, s + {k}, t) == OfTenant(pool, s, t);
      }
    }
  }

  lemma StrictlyBigger<T>(a: set<T>, b: set<T>)
    requires a <= b && |a| < |b|
    ensures b - a != {}
  {
    assert b == a + (b - a);
    assert |b| == |a| + |b - a|;
  }

  lemma SubsetSize<T>(a: set<T>, b: set<T>)
    requires a <= b
    ensures |a| <= |b|
    ensures |a| == |b| ==> a == b
  {
    assert b == a + (b - a);
    assert |b| == |a| + |b - a|;
  }

  // ----- the greedy loop -----

  /** One greedy loop: walk `order`, stop once the budget is used, skip a bot whose tenant is full. */
  ghost function Greedy(pool: Pool, order: seq<Id>, budget: int, cap: int, sel: set<Id>): (r: set<Id>)
    requires sel <= pool.Keys && forall k <- order :: k in pool
    ensures sel <= r <= pool.Keys
    ensures forall k <- r :: k in sel || k in order
  {
    if order == [] || |sel| >= budget then sel
    else if TenantFull(pool, sel, cap, pool[order[0]].tenant) then
      Greedy(pool, order[1..], budget, cap, sel)
    else
      Greedy(pool, order[1..], budget, cap, sel + {order[0]})
  }

  ghost predicate NonIncreasing(pool: Pool, order: seq<Id>)
    requires forall k <- order :: k in pool
  {
    forall i, j :: 0 <= i < j < |order| ==> pool[order[i]].score >= pool[order[j]].score
  }

  /** `order` lists exactly the bots of `s`, each once, best score first. */
  ghost predicate SortedEnumeration(pool: Pool, order: seq<Id>, s: set<Id>) {
    s <= pool.Keys && (forall k :: k in order <==> k in s) && Distinct(order) && NonIncreasing(pool, order)
  }

  ghost predicate NonNegative(pool: Pool) {
    forall k <- pool :: pool[k].score >= 0.0
  }

  // ----- optimality, by exchange -----

  /** Trade `x` for `e`: allowed when `x` belongs to the tenant of `e`, or that tenant has room. */
  lemma Swap(pool: Pool, sel: set<Id>, e: Id, t: set<Id>, x: Id, budget: int, cap: int)
    returns (t': set<Id>)
    requires Feasible(pool, t, budget, cap) && sel <= t
    requires e in pool && e !in t && x in t - sel && pool[x].score <= pool[e].score
    requires pool[x].tenant == pool[e].tenant || !TenantFull(pool, t, cap, pool[e].tenant)
    ensures Feasible(pool, t', budget, cap)
    ensures sel + {e} <= t' <= t + {e}
    ensures TotalScore(pool, t') >= TotalScore(pool, t)
  {
    var base := t - {x};
    t' := base + {e};
    assert base + {x} == t;
    TotalScoreAdd(pool, base, x);
    TotalScoreAdd(pool, base, e);
    OfTenantAdd(pool, base, x);
    OfTenantAdd(pool, base, e);
    assert |t'| == |t|;
  }

  /**
    The exchange step.  If `e` can still be added to `sel`, any feasible `t`
    that extends `sel` without `e` has a partner that contains `e`, extends
    `sel`, and scores no less, provided `e` outscores everything in `t - sel`.
   */
  lemma Exchange(pool: Pool, sel: set<Id>, e: Id, t: set<Id>, budget: int, cap: int)
    returns (t': set<Id>)
    requires NonNegative(pool) && Feasible(pool, t, budget, cap) && sel <= t
    requires e in pool && e !in t && |sel| < budget && !TenantFull(pool, sel, cap, pool[e].tenant)
    requires forall x <- t - sel :: pool[x].score <= pool[e].score
    ensures Feasible(pool, t', budget, cap)
    ensures sel + {e} <= t' <= t + {e}
    ensures TotalScore(pool, t') >= TotalScore(pool, t)
  {
    var tenant := pool[e].tenant;
    if TenantFull(pool, t, cap, tenant) {
      StrictlyBigger(OfTenant(pool, sel, tenant), OfTenant(pool, t, tenant));
      t' := Swap(pool, sel, e, t, Pick(OfTenant(pool, t, tenant) - OfTenant(pool, sel, tenant)), budget, cap);
    } else if |t| < budget {
      t' := t + {e};
      TotalScoreAdd(pool, t, e);
      OfTenantAdd(pool, t, e);
    } else {
      StrictlyBigger(sel, t);
      t' := Swap(pool, sel, e, t, Pick(t - sel), budget, cap);
    }
  }

  /** A feasible set has no more members of a tenant that is already full. */
  lemma FullTenantTakesNoMore(pool: Pool, sel: set<Id>, e: Id, t: set<Id>, budget: int, cap: int)
    requires Feasible(pool, t, budget, cap) && sel <= t && e in t
    requires TenantFull(pool, sel, cap, pool[e].tenant)
    ensures e in sel
  {
    if e !in sel {
      OfTenantAdd(pool, sel, e);
      SubsetSize(OfTenant(pool, sel + {e}, pool[e].tenant), OfTenant(pool, t, pool[e].tenant));
      assert false;
    }
  }

  lemma HeadIsBest(pool: Pool, order: seq<Id>)
    requires order != [] && (forall k <- order :: k in pool) && NonIncreasing(pool, order)
    ensures forall x <- order :: pool[x].score <= pool[order[0]].score
    ensures (forall k <- order[1..] :: k in pool) && NonIncreasing(pool, order[1..])
  {}

  /**
    Greedy is optimal: it scores at least as much as any feasible set between
    what was already selected and everything on offer.
   */
  lemma {:induction false} GreedyOptimal(pool: Pool, order: seq<Id>, budget: int, cap: int,
                                         sel: set<Id>, t: set<Id>)
    requires NonNegative(pool) && sel <= pool.Keys && forall k <- order :: k in pool
    requires NonIncreasing(pool, order)
    requires Feasible(pool, t, budget, cap) && sel <= t && forall k <- t :: k in sel || k in order
    ensures TotalScore(pool, t) <= TotalScore(pool, Greedy(pool, order, budget, cap, sel))
    decreases |order|
  {
    if order == [] {
      assert t == sel;
    } else if |sel| >= budget {
      if t != {} {
        SubsetSize(sel, t);
      }
      assert t == sel;
    } else {
      var e, rest := order[0], order[1..];
      HeadIsBest(pool, order);
      assert forall k <- order :: k == e || k in rest;
      if TenantFull(pool, sel, cap, pool[e].tenant) {
        if e in t {
          FullTenantTakesNoMore(pool, sel, e, t, budget, cap);
        }
        GreedyOptimal(pool, rest, budget, cap, sel, t);
      } else {
        var t' := t;
        if e !in t {
          t' := Exchange(pool, sel, e, t, budget, cap);
        }
        GreedyOptimal(pool, rest, budget, cap, sel + {e}, t');
      }
    }
  }

  // ----- how many slots are used -----

  ghost predicate Exhausted(pool: Pool, order: seq<Id>, cap: int, r: set<Id>)
    requires r <= pool.Keys && forall k <- order :: k in pool
  {
    forall k <- order :: k in r || TenantFull(pool, r, cap, pool[k].tenant)
  }

  /** Greedy respects budget and cap, and leaves a bot out only for one of those two reasons. */
  lemma {:induction false} GreedyMaximal(pool: Pool, order: seq<Id>, budget: int, cap: int, sel: set<Id>)
    requires forall k <- order :: k in pool
    requires Feasible(pool, sel, budget, cap)
    ensures var r := Greedy(pool, order, budget, cap, sel);
            && Feasible(pool, r, budget, cap)
            && (forall k <- r :: k in sel || k in order)
            && (|r| >= budget || Exhausted(pool, order, cap, r))
    decreases |order|
  {
    if order != [] && |sel| < budget {
      var e := order[0];
      var rest := order[1..];
      assert forall k <- order :: k == e || k in rest;
      if TenantFull(pool, sel, cap, pool[e].tenant) {
        GreedyMaximal(pool, rest, budget, cap, sel);
        TenantStaysFull(pool, sel, Greedy(pool, rest, budget, cap, sel), cap, pool[e].tenant);
      } else {
        if e in sel {
          assert sel + {e} == sel;
        } else {
          OfTenantAdd(pool, sel, e);
        }
        GreedyMaximal(pool, rest, budget, cap, sel + {e});
      }
    }
  }

  lemma TenantStaysFull(pool: Pool, a: set<Id>, b: set<Id>, cap: int, tenant: Id)
    requires a <= b <= pool.Keys && TenantFull(pool, a, cap, tenant)
    ensures TenantFull(pool, b, cap, tenant)
  {
    SubsetSize(OfTenant(pool, a, tenant), OfTenant(pool, b, tenant));
  }

  ghost function Tenants(pool: Pool, s: set<Id>): set<Id>
    requires s <= pool.Keys
  {
    set k | k in s :: pool[k].tenant
  }

  /** The sum over `tenants` of min(cap, bots of that tenant in s). */
  ghost function CappedSum(pool: Pool, s: set<Id>, cap: nat, tenants: set<Id>): nat
    requires s <= pool.Keys
  {
    if tenants == {} then 0
    else var t := Pick(tenants); Min(cap, |OfTenant(pool, s, t)|) + CappedSum(pool, s, cap, tenants - {t})
  }

  /** The most bots of `s` that the per-tenant cap alone admits. */
  ghost function Capacity(pool: Pool, s: set<Id>, cap: int): nat
    requires s <= pool.Keys
  {
    if cap <= 0 then |s| else CappedSum(pool, s, cap, Tenants(pool, s))
  }

  lemma {:induction false} CountByTenant(pool: Pool, r: set<Id>, s: set<Id>, cap: nat, tenants: set<Id>)
    requires r <= s <= pool.Keys
    requires forall t <- tenants :: |OfTenant(pool, r, t)| <= cap
    ensures var n := |set k | k in r && pool[k].tenant in tenants|;
            && n <= CappedSum(pool, s, cap, tenants)
            && ((forall t <- tenants :: |OfTenant(pool, r, t)| == Min(cap, |OfTenant(pool, s, t)|))
                ==> n == CappedSum(pool, s, cap, tenants))
    decreases |tenants|
  {
    if tenants == {} {
      assert (set k | k in r && pool[k].tenant in tenants) == {};
    } else {
      var t := Pick(tenants);
      var rest := tenants - {t};
      CountByTenant(pool, r, s, cap, rest);
      SubsetSize(OfTenant(pool, r, t), OfTenant(pool, s, t));
      var here, there := OfTenant(pool, r, t), set k | k in r && pool[k].tenant in rest;
      assert (set k | k in r && pool[k].tenant in tenants) == here + there;
      assert |here + there| == |here| + |there|;
    }
  }

  /** A feasible set that cannot grow has exactly min(budget, capacity) members. */
  lemma MaximalSize(pool: Pool, r: set<Id>, s: set<Id>, budget: int, cap: int)
    requires r <= s <= pool.Keys && Feasible(pool, r, budget, cap)
    requires |r| >= budget || forall k <- s :: k in r || TenantFull(pool, r, cap, pool[k].tenant)
    ensures |r| == Min(if budget < 0 then 0 else budget, Capacity(pool, s, cap))
  {
    if cap <= 0 {
      SubsetSize(r, s);
      assert |r| < budget ==> r == s;
    } else {
      var ts := Tenants(pool, s);
      CountByTenant(pool, r, s, cap, ts);
      assert r == set k | k in r && pool[k].tenant in ts;
      if |r| < budget {
        forall t <- ts ensures |OfTenant(pool, r, t)| == Min(cap, |OfTenant(pool, s, t)|) {
          SubsetSize(OfTenant(pool, r, t), OfTenant(pool, s, t));
          if !TenantFull(pool, r, cap, t) {
            assert OfTenant(pool, r, t) == OfTenant(pool, s, t);
          }
        }
      }
    }
  }

  // ----- who may be passed over -----

  /**
    A bot without a slot is accounted for: the budget is used up, or its
    tenant's cap is, by winners that are privileged or score at least as high.
   */
  ghost predicate Outranked(pool: Pool, winners: set<Id>, privileged: set<Id>, k: Id, budget: int, cap: int)
    requires winners <= pool.Keys && k in pool
  {
    var above := Above(pool, winners, privileged, k);
    |above| >= budget || (cap > 0 && |OfTenant(pool, above, pool[k].tenant)| >= cap)
  }

  ghost function Above(pool: Pool, winners: set<Id>, privileged: set<Id>, k: Id): set<Id>
    requires winners <= pool.Keys && k in pool
  {
    set j | j in winners && (j in privileged || pool[j].score >= pool[k].score)
  }

  lemma {:induction false} GreedyNoEnvy(pool: Pool, order: seq<Id>, budget: int, cap: int,
                                        sel: set<Id>, privileged: set<Id>, k: Id)
    requires sel <= pool.Keys && (forall x <- order :: x in pool) && NonIncreasing(pool, order)
    requires forall j <- sel, x <- order :: j in privileged || pool[j].score >= pool[x].score
    requires k in order && k !in Greedy(pool, order, budget, cap, sel)
    ensures Outranked(pool, Greedy(pool, order, budget, cap, sel), privileged, k, budget, cap)
    decreases |order|
  {
    var r := Greedy(pool, order, budget, cap, sel);
    var above := Above(pool, r, privileged, k);
    var e := order[0];
    assert sel <= above;
    if |sel| >= budget {
      SubsetSize(sel, above);
    } else if TenantFull(pool, sel, cap, pool[e].tenant) {
      if k == e {
        SubsetSize(OfTenant(pool, sel, pool[e].tenant), OfTenant(pool, above, pool[e].tenant));
      } else {
        GreedyNoEnvy(pool, order[1..], budget, cap, sel, privileged, k);
      }
    } else {
      GreedyNoEnvy(pool, order[1..], budget, cap, sel + {e}, privileged, k);
    }
  }

  /** Once its tenant is full, a bot is never admitted by a later loop. */
  lemma {:induction false} GreedySkipsFullTenant(pool: Pool, order: seq<Id>, budget: int, cap: int,
                                                 sel: set<Id>, k: Id)
    requires sel <= pool.Keys && forall x <- order :: x in pool
    requires k in pool && k !in sel && TenantFull(pool, sel, cap, pool[k].tenant)
    ensures k !in Greedy(pool, order, budget, cap, sel)
    decreases |order|
  {
    if order != [] && |sel| < budget {
      var e := order[0];
      if TenantFull(pool, sel, cap, pool[e].tenant) {
        GreedySkipsFullTenant(pool, order[1..], budget, cap, sel, k);
      } else {
        TenantStaysFull(pool, sel, sel + {e}, cap, pool[k].tenant);
        GreedySkipsFullTenant(pool, order[1..], budget, cap, sel + {e}, k);
      }
    }
  }

  // ----- building an order -----

  /** The loop can be cut anywhere: what it did so far is all it needs to go on. */
  lemma {:induction false} GreedyAppend(pool: Pool, a: seq<Id>, b: seq<Id>, budget: int, cap: int, sel: set<Id>)
    requires sel <= pool.Keys && forall k <- a + b :: k in pool
    ensures forall k <- a :: k in pool
    ensures forall k <- b :: k in pool
    ensures Greedy(pool, a + b, budget, cap, sel) == Greedy(pool, b, budget, cap, Greedy(pool, a, budget, cap, sel))
    decreases |a|
  {
    assert forall k <- a :: k in a + b;
    assert forall k <- b :: k in a + b;
    if a == [] {
      assert a + b == b;
    } else {
      assert (a + b)[0] == a[0] && (a + b)[1..] == a[1..] + b;
      if |sel| < budget {
        GreedyAppend(pool, a[1..], b, budget, cap,
                     if TenantFull(pool, sel, cap, pool[a[0]].tenant) then sel else sel + {a[0]});
      }
    }
  }

  lemma {:induction false} BestOf(pool: Pool, s: set<Id>) returns (k: Id)
    requires s <= pool.Keys && s != {}
    ensures k in s && forall x <- s :: pool[k].score >= pool[x].score
    decreases |s|
  {
    k := Pick(s);
    if s != {k} {
      var other := BestOf(pool, s - {k});
      if pool[other].score > pool[k].score {
        k := other;
      }
    }
  }

  lemma {:induction false} SortedEnumerationExists(pool: Pool, s: set<Id>) returns (order: seq<Id>)
    requires s <= pool.Keys
    ensures SortedEnumeration(pool, order, s)
    decreases |s|
  {
    if s == {} {
      order := [];
    } else {
      var k := BestOf(pool, s);
      var rest := SortedEnumerationExists(pool, s - {k});
      order := [k] + rest;
    }
  }

  // ----- both loops together -----

  /**
    What one pass selects: fresh bots off the heap first, then, with slots to
    spare, every other bot in a score order.  Ties may fall either way.
   */
  ghost predicate Selection(pool: Pool, active: set<Id>, budget: int, cap: int,
                            first: set<Id>, selected: set<Id>) {
    && active <= pool.Keys
    && (exists order :: SortedEnumeration(pool, order, active) && first == Greedy(pool, order, budget, cap, {}))
    && (if |first| >= budget then selected == first
        else exists order :: SortedEnumeration(pool, order, pool.Keys - first)
                          && selected == Greedy(pool, order, budget, cap, first))
  }

  lemma FirstLoop(pool: Pool, active: set<Id>, budget: int, cap: int, first: set<Id>, selected: set<Id>)
    requires Selection(pool, active, budget, cap, first, selected)
    ensures first <= active && Feasible(pool, first, budget, cap)
    ensures |first| >= budget || forall k <- active :: k in first || TenantFull(pool, first, cap, pool[k].tenant)
  {
    var order :| SortedEnumeration(pool, order, active) && first == Greedy(pool, order, budget, cap, {});
    assert forall t :: OfTenant(pool, {}, t) == {};
    GreedyMaximal(pool, order, budget, cap, {});
  }

  lemma BothLoops(pool: Pool, active: set<Id>, budget: int, cap: int, first: set<Id>, selected: set<Id>)
    requires Selection(pool, active, budget, cap, first, selected)
    ensures first <= selected <= pool.Keys && Feasible(pool, selected, budget, cap)
    ensures |selected| >= budget
            || forall k <- pool.Keys :: k in selected || TenantFull(pool, selected, cap, pool[k].tenant)
  {
    FirstLoop(pool, active, budget, cap, first, selected);
    if |first| < budget {
      var order :| SortedEnumeration(pool, order, pool.Keys - first)
                   && selected == Greedy(pool, order, budget, cap, first);
      GreedyMaximal(pool, order, budget, cap, first);
    }
  }

  /** No feasible choice of fresh bots scores more than the one the heap loop makes. */
  lemma FreshChoiceOptimal(pool: Pool, active: set<Id>, budget: int, cap: int,
                           first: set<Id>, selected: set<Id>, t: set<Id>)
    requires NonNegative(pool) && Selection(pool, active, budget, cap, first, selected)
    requires t <= active && Feasible(pool, t, budget, cap)
    ensures first <= pool.Keys && TotalScore(pool, t) <= TotalScore(pool, first)
  {
    var order :| SortedEnumeration(pool, order, active) && first == Greedy(pool, order, budget, cap, {});
    GreedyOptimal(pool, order, budget, cap, {}, t);
  }

  /** No feasible extension of the fresh choice scores more than the one the spare loop makes. */
  lemma SpareFillOptimal(pool: Pool, active: set<Id>, budget: int, cap: int,
                         first: set<Id>, selected: set<Id>, t: set<Id>)
    requires NonNegative(pool) && Selection(pool, active, budget, cap, first, selected)
    requires first <= t && Feasible(pool, t, budget, cap)
    ensures selected <= pool.Keys && TotalScore(pool, t) <= TotalScore(pool, selected)
  {
    FirstLoop(pool, active, budget, cap, first, selected);
    if |first| < budget {
      var order :| SortedEnumeration(pool, order, pool.Keys - first)
                   && selected == Greedy(pool, order, budget, cap, first);
      GreedyOptimal(pool, order, budget, cap, first, t);
    } else {
      SubsetSize(first, t);
      assert t == first;
    }
  }

  /**
    The allocation is exact.  Every slot that budget and cap allow is used; the
    fresh bots get as many as they could get on their own, and the spare loop
    adds idle bots only.
   */
  lemma SelectionExact(pool: Pool, active: set<Id>, budget: int, cap: int, first: set<Id>, selected: set<Id>)
    requires Selection(pool, active, budget, cap, first, selected)
    ensures first <= selected <= pool.Keys && Feasible(pool, selected, budget, cap)
    ensures |selected| == Min(if budget < 0 then 0 else budget, Capacity(pool, pool.Keys, cap))
    ensures selected * active == first
    ensures |first| == Min(if budget < 0 then 0 else budget, Capacity(pool, active, cap))
  {
    FirstLoop(pool, active, budget, cap, first, selected);
    BothLoops(pool, active, budget, cap, first, selected);
    MaximalSize(pool, first, active, budget, cap);
    MaximalSize(pool, selected, pool.Keys, budget, cap);
    if |first| < budget {
      var order :| SortedEnumeration(pool, order, pool.Keys - first)
                   && selected == Greedy(pool, order, budget, cap, first);
      forall k <- active - first ensures k !in selected {
        GreedySkipsFullTenant(pool, order, budget, cap, first, k);
      }
    }
  }

  lemma PrivilegedFillBudget(pool: Pool, winners: set<Id>, privileged: set<Id>, k: Id, budget: int, cap: int)
    requires privileged <= winners <= pool.Keys && k in pool && |privileged| >= budget
    ensures Outranked(pool, winners, privileged, k, budget, cap)
  {
    SubsetSize(privileged, Above(pool, winners, privileged, k));
  }

  /** No envy: a fresh bot loses only to fresh bots, an idle bot only to fresh bots or better idle ones. */
  lemma SelectionFair(pool: Pool, active: set<Id>, budget: int, cap: int,
                      first: set<Id>, selected: set<Id>, k: Id)
    requires Selection(pool, active, budget, cap, first, selected)
    requires k in pool && k !in selected
    ensures first <= selected <= pool.Keys
    ensures k in active ==> Outranked(pool, first, {}, k, budget, cap)
    ensures k !in active ==> Outranked(pool, selected, first, k, budget, cap)
  {
    BothLoops(pool, active, budget, cap, first, selected);
    if k in active {
      var order :| SortedEnumeration(pool, order, active) && first == Greedy(pool, order, budget, cap, {});
      GreedyNoEnvy(pool, order, budget, cap, {}, {}, k);
    } else if |first| < budget {
      var order :| SortedEnumeration(pool, order, pool.Keys - first)
                   && selected == Greedy(pool, order, budget, cap, first);
      GreedyNoEnvy(pool, order, budget, cap, first, first, k);
    } else {
      PrivilegedFillBudget(pool, selected, first, k, budget, cap);
    }
  }
}
