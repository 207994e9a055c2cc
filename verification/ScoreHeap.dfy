/**
  The max-heap of entries that hands out hot slots.

  The manager appends raw, then heapifies, then pops.  Init, Pop and Down are
  those of Go's container/heap over this slice.

  A slice is a sequence of entry objects.  Heap order is a fact about their scores
  alone, so the lemmas are about a sequence of reals.

  Contents are compared as multisets, because equal scores may come out in any
  order.
 */
module ScoreHeaps {
  import opened TierModel

  /** One registered bot, updated in place. */
  class Entry {
    const bot: BotRef
    var tier: Tier
    var lastActivity: Time
    var rate: real
    var score: real
    var nextPoll: Time

    constructor (bot: BotRef, pollAt: Time, activeAt: Time)
      ensures View() == EntryState(bot, Cold, activeAt, 0.0, 0.0, pollAt)
    {
      this.bot := bot;
      tier, lastActivity, rate, score, nextPoll := Cold, activeAt, 0.0, 0.0, pollAt;
    }

    ghost function View(): EntryState
      reads this
    {
      EntryState(bot, tier, lastActivity, rate, score, nextPoll)
    }
  }

  function Parent(i: int): int {
    (i - 1) / 2
  }

  /** Heap order among the first `n` entries, for parents from `lo` on. */
  ghost predicate HeapFrom(sc: seq<real>, lo: int, n: int)
    requires 0 <= n <= |sc|
  {
    forall c :: 1 <= c < n && Parent(c) >= lo ==> sc[Parent(c)] >= sc[c]
  }

  /** As HeapFrom, but `hole` may be smaller than its children; its parent is not. */
  ghost predicate HeapExcept(sc: seq<real>, lo: int, n: int, hole: int)
    requires 0 <= n <= |sc|
  {
    && (forall c :: 1 <= c < n && Parent(c) >= lo && Parent(c) != hole ==> sc[Parent(c)] >= sc[c])
    && (forall c :: 1 <= c < n && Parent(c) == hole && Parent(hole) >= lo && hole >= 1 ==> sc[Parent(hole)] >= sc[c])
  }

  lemma {:induction false} RootIsMax(sc: seq<real>, n: int, i: int)
    requires 0 <= i < n <= |sc| && HeapFrom(sc, 0, n)
    ensures sc[0] >= sc[i]
    decreases i
  {
    if i > 0 {
      RootIsMax(sc, n, Parent(i));
    }
  }

  lemma AllBelowRoot(sc: seq<real>)
    requires HeapFrom(sc, 0, |sc|)
    ensures forall i :: 0 <= i < |sc| ==> sc[0] >= sc[i]
  {
    forall i | 0 <= i < |sc| ensures sc[0] >= sc[i] {
      RootIsMax(sc, |sc|, i);
    }
  }

  ghost function Scores(h: seq<Entry>): (sc: seq<real>)
    reads h
    ensures |sc| == |h| && forall i :: 0 <= i < |h| ==> sc[i] == h[i].score
  {
    seq(|h|, i requires 0 <= i < |h| reads h => h[i].score)
  }

  ghost predicate BestChild(sc: seq<real>, n: int, i: int, child: int)
  {
    && 0 <= i < child < n <= |sc| && Parent(child) == i
    && forall c :: 1 <= c < n && Parent(c) == i ==> sc[child] >= sc[c]
  }

  lemma BestOfTwo(sc: seq<real>, n: int, i: int, left: int, child: int)
    requires 0 <= i && left == 2 * i + 1 < n <= |sc|
    requires child == if left + 1 < n && sc[left + 1] > sc[left] then left + 1 else left
    ensures BestChild(sc, n, i, child)
  {
    forall c | 1 <= c < n && Parent(c) == i ensures sc[child] >= sc[c] {
      assert c == left || c == left + 1;
    }
  }

  lemma LeafFills(sc: seq<real>, lo: int, n: int, i: int)
    requires 0 <= n <= |sc| && HeapExcept(sc, lo, n, i) && 0 <= i && 2 * i + 1 >= n
    ensures HeapFrom(sc, lo, n)
  {}

  /** Sifting down one level moves the hole to the child. */
  lemma HoleMoves(sc: seq<real>, sc': seq<real>, lo: int, n: int, i: int, child: int)
    requires 0 <= lo <= i && BestChild(sc, n, i, child) && HeapExcept(sc, lo, n, i)
    requires sc[child] > sc[i] && sc' == sc[i := sc[child]][child := sc[i]]
    ensures HeapExcept(sc', lo, n, child)
  {
    forall c | 1 <= c < n && Parent(c) >= lo && Parent(c) != child
      ensures sc'[Parent(c)] >= sc'[c]
    {
      if c == i {
        assert sc[Parent(i)] >= sc[child];
      }
    }
    forall c | 1 <= c < n && Parent(c) == child
      ensures sc'[Parent(child)] >= sc'[c]
    {
      assert sc[Parent(c)] >= sc[c];
    }
  }

  lemma HoleFills(sc: seq<real>, lo: int, n: int, i: int, child: int)
    requires 0 <= n <= |sc| && HeapExcept(sc, lo, n, i) && BestChild(sc, n, i, child) && sc[child] <= sc[i]
    ensures HeapFrom(sc, lo, n)
  {}

  lemma HeapPrefix(sc: seq<real>, sc': seq<real>, n: int)
    requires 0 <= n == |sc'| <= |sc| && HeapFrom(sc, 0, n) && forall c :: 0 <= c < n ==> sc'[c] == sc[c]
    ensures HeapFrom(sc', 0, n)
  {
    forall c | 1 <= c < n && Parent(c) >= 0 ensures sc'[Parent(c)] >= sc'[c] {
      assert sc[Parent(c)] >= sc[c];
    }
  }

  lemma RootBecomesHole(sc: seq<real>, sc': seq<real>, n: int)
    requires |sc| == n + 1 == |sc'| && n >= 0 && HeapFrom(sc, 0, n + 1)
    requires forall c :: 1 <= c < n ==> sc'[c] == sc[c]
    ensures HeapExcept(sc', 0, n, 0)
  {
    forall c | 1 <= c < n && Parent(c) >= 0 && Parent(c) != 0
      ensures sc'[Parent(c)] >= sc'[c]
    {
      assert sc[Parent(c)] >= sc[c];
    }
  }

  /** Same entries, and nothing moved from position `n` on. */
  ghost predicate Rearranged(a: seq<Entry>, b: seq<Entry>, n: int) {
    |a| == |b| && multiset(a) == multiset(b) && forall k :: 0 <= n <= k < |a| ==> a[k] == b[k]
  }

  lemma SwapRearranges(a: seq<Entry>, h: seq<Entry>, n: int, i: int, j: int)
    requires Rearranged(a, h, n) && 0 <= i < n <= |h| && 0 <= j < n
    ensures Rearranged(a, h[i := h[j]][j := h[i]], n)
  {
    SwapKeepsContents(h, i, j);
  }

  lemma LastDropped(h: seq<Entry>)
    requires h != []
    ensures multiset(h) == multiset(h[..|h| - 1]) + multiset{h[|h| - 1]}
  {
    assert h == h[..|h| - 1] + [h[|h| - 1]];
  }

  lemma SwapKeepsContents(h: seq<Entry>, i: int, j: int)
    requires 0 <= i < |h| && 0 <= j < |h|
    ensures multiset(h[i := h[j]][j := h[i]]) == multiset(h)
  {}

  class ScoreHeap {
    var h: seq<Entry>

    constructor ()
      ensures h == []
    {
      h := [];
    }

    method Push(e: Entry)
      modifies this
      ensures h == old(h) + [e]
    {
      h := h + [e];
    }

    method Swap(i: int, j: int)
      requires 0 <= i < |h| && 0 <= j < |h|
      modifies this
      ensures h == old(h)[i := old(h)[j]][j := old(h)[i]]
      ensures multiset(h) == multiset(old(h))
      ensures Scores(h) == old(Scores(h)[i := h[j].score][j := h[i].score])
    {
      SwapKeepsContents(h, i, j);
      h := h[i := h[j]][j := h[i]];
    }

    /** Sift the entry at `start` down among the first `n`. */
    method Down(start: int, n: int)
      requires 0 <= start && 0 <= n <= |h| && HeapExcept(Scores(h), start, n, start)
      modifies this
      ensures Rearranged(old(h), h, n) && HeapFrom(Scores(h), start, n)
    {
      var i := start;
      ghost var sc := Scores(h);
      while true
        invariant start <= i && Rearranged(old(h), h, n)
        invariant sc == Scores(h) && HeapExcept(sc, start, n, i)
        decreases n - i
      {
        var left := 2 * i + 1;
        if left >= n {
          LeafFills(sc, start, n, i);
          break;
        }
        var child := left;
        if left + 1 < n && h[left + 1].score > h[left].score {
          child := left + 1;
        }
        BestOfTwo(sc, n, i, left, child);
        if !(h[child].score > h[i].score) {
          HoleFills(sc, start, n, i, child);
          break;
        }
        SwapRearranges(old(h), h, n, i, child);
        Swap(i, child);
        HoleMoves(sc, Scores(h), start, n, i, child);
        sc := Scores(h);
        i := child;
      }
    }

    method Init()
      modifies this
      ensures multiset(h) == multiset(old(h)) && HeapFrom(Scores(h), 0, |h|)
    {
      var i := |h| / 2 - 1;
      while i >= 0
        invariant -1 <= i < |h| && |h| == |old(h)|
        invariant multiset(h) == multiset(old(h)) && HeapFrom(Scores(h), i + 1, |h|)
      {
        Down(i, |h|);
        i := i - 1;
      }
    }

    /** Remove an entry of the highest score. */
    method Pop() returns (e: Entry)
      requires h != [] && HeapFrom(Scores(h), 0, |h|)
      modifies this
      ensures multiset(old(h)) == multiset(h) + multiset{e}
      ensures HeapFrom(Scores(h), 0, |h|)
      ensures forall x <- old(h) :: e.score >= x.score
    {
      var n := |h| - 1;
      AllBelowRoot(Scores(h));
      Swap(0, n);
      RootBecomesHole(old(Scores(h)), Scores(h), n);
      Down(0, n);
      e := h[n];
      LastDropped(h);
      ghost var sc := Scores(h);
      h := h[..n];
      HeapPrefix(sc, Scores(h), n);
    }
  }
}
