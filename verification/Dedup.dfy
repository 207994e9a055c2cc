/**
  The capped set of message ids that sockets and polls share.  It is a sorted set
  scored by insertion time, so it is a list, oldest first; adding and trimming
  are separate commands, and others may come between them.
 */
module Dedup {
  import opened Sequences

  /** A message id; NoId is the empty string, which is never recorded. */
  datatype MessageId = NoId | MsgId(n: nat)

  /** The set as it stands, and every id that was ever newly recorded, in order. */
  datatype Memory = Memory(window: seq<MessageId>, recorded: seq<MessageId>) {
    /** Insert if absent. */
    function Add(id: MessageId): Memory {
      if id in window then this else Memory(window + [id], recorded + [id])
    }

    /** Drop the oldest entries beyond the newest `cap`. */
    function Trim(cap: nat): Memory {
      if |window| <= cap then this else Memory(window[|window| - cap..], recorded)
    }
  }

  const EMPTY_MEMORY := Memory([], [])

  // ----- the invariant -----

  /** The `cap` ids recorded just before position j, and maybe more, are all different and none of them is `id`. */
  ghost predicate ManyOthers(recorded: seq<MessageId>, i: nat, j: nat, cap: nat, id: MessageId) {
    exists lo :: i < lo && lo + cap <= j <= |recorded| && Distinct(recorded[lo..j]) && id !in recorded[lo..j]
  }

  /** An id was recorded again only after `cap` others. */
  ghost predicate RepeatsFarApart(recorded: seq<MessageId>, cap: nat) {
    forall i: nat, j: nat :: i < j < |recorded| && recorded[i] == recorded[j] ==>
        ManyOthers(recorded, i, j, cap, recorded[i])
  }

  /** The set is what was recorded last, all different, and as full as it may be. */
  ghost predicate IsSuffix(m: Memory, cap: nat) {
    && |m.window| <= |m.recorded|
    && m.window == m.recorded[|m.recorded| - |m.window|..]
    && Distinct(m.window)
    && (|m.window| == |m.recorded| || |m.window| >= cap)
  }

  ghost predicate Sound(m: Memory, cap: nat) {
    IsSuffix(m, cap) && RepeatsFarApart(m.recorded, cap)
  }

  lemma ManyOthersGrows(recorded: seq<MessageId>, more: seq<MessageId>, i: nat, j: nat, cap: nat, id: MessageId)
    requires ManyOthers(recorded, i, j, cap, id)
    ensures ManyOthers(recorded + more, i, j, cap, id)
  {
    var lo :| i < lo && lo + cap <= j <= |recorded| && Distinct(recorded[lo..j]) && id !in recorded[lo..j];
    assert (recorded + more)[lo..j] == recorded[lo..j];
  }

  lemma AddIsSuffix(m: Memory, cap: nat, id: MessageId)
    requires IsSuffix(m, cap)
    ensures IsSuffix(m.Add(id), cap)
  {
    if id !in m.window {
      DistinctConcat(m.window, [id]);
    }
  }

  /** A new entry is not in the set, so its last time is before the whole set. */
  lemma NewEntryFar(m: Memory, cap: nat, id: MessageId, i: nat)
    requires IsSuffix(m, cap) && id !in m.window && i < |m.recorded| && m.recorded[i] == id
    ensures ManyOthers(m.recorded, i, |m.recorded|, cap, id)
  {
    var lo := |m.recorded| - |m.window|;
    assert m.recorded[lo..|m.recorded|] == m.window;
    assert forall k :: lo <= k < |m.recorded| ==> m.recorded[k] == m.window[k - lo] && m.recorded[k] in m.window;
  }

  lemma AddKeeps(m: Memory, cap: nat, id: MessageId)
    requires Sound(m, cap)
    ensures Sound(m.Add(id), cap)
  {
    AddIsSuffix(m, cap, id);
    if id !in m.window {
      var recorded := m.recorded + [id];
      forall i: nat, j: nat | i < j < |recorded| && recorded[i] == recorded[j]
        ensures ManyOthers(recorded, i, j, cap, recorded[i])
      {
        if j == |m.recorded| {
          NewEntryFar(m, cap, id, i);
        }
        ManyOthersGrows(m.recorded, [id], i, j, cap, recorded[i]);
      }
    }
  }

  lemma TrimKeeps(m: Memory, cap: nat)
    requires Sound(m, cap)
    ensures Sound(m.Trim(cap), cap)
  {}

  /** One call for a new id on its own: it is remembered, the set stays within its cap, and it stays sound. */
  lemma NewIdRemembered(m: Memory, cap: nat, id: MessageId)
    requires Sound(m, cap) && id !in m.window && cap > 0
    ensures var m' := m.Add(id).Trim(cap);
            Sound(m', cap) && id in m'.window && |m'.window| <= cap && m'.recorded == m.recorded + [id]
  {
    AddKeeps(m, cap, id);
    TrimKeeps(m.Add(id), cap);
    var w := m.Add(id).Trim(cap).window;
    assert w[|w| - 1] == id;
  }

  // ----- asking whether an id was seen -----

  /** Which store call of a question fails: recording the id, or trimming the set after a new one. */
  datatype Fault = Works | RecordFails | TrimFails

  /** The question is an error: nothing was recorded, or the id was new and has been recorded. */
  predicate SeenFails(mem: Memory, id: MessageId, fault: Fault) {
    id != NoId && (fault.RecordFails? || (fault.TrimFails? && id !in mem.window))
  }

  /** What the store remembers after the question. */
  function AfterSeen(mem: Memory, id: MessageId, cap: nat, fault: Fault): Memory {
    if id == NoId || fault.RecordFails? || id in mem.window then mem
    else if fault.TrimFails? then mem.Add(id)
    else mem.Add(id).Trim(cap)
  }

  // ----- the store's own code -----

  class DedupSet {
    const dedupCap: nat
    var window: seq<MessageId>
    ghost var recorded: seq<MessageId>

    ghost function Contents(): Memory reads this {
      Memory(window, recorded)
    }

    constructor (cap: int)
      ensures dedupCap == if cap <= 0 then 2048 else cap
      ensures Contents() == EMPTY_MEMORY
    {
      dedupCap := if cap <= 0 then 2048 else cap;
      window, recorded := [], [];
    }

    /** Record `id` unless it is there; `added` says whether it was not. */
    method AddNX(id: MessageId) returns (added: bool)
      modifies this
      ensures Contents() == old(Contents()).Add(id) && (added <==> id !in old(window))
    {
      added := id !in window;
      if added {
        window, recorded := window + [id], recorded + [id];
      }
    }

    /** Remove by rank, from the oldest up to the one before the newest `dedupCap`. */
    method TrimOldest()
      modifies this
      ensures Contents() == old(Contents()).Trim(dedupCap)
    {
      var last := |window| - dedupCap - 1;
      if last >= 0 {
        window := window[last + 1..];
      }
    }

    /**
      Record the id and say whether it was already there; trim after a new one.
      `fault` is which of the two store calls fails, if it gets that far.
     */
    method Seen(id: MessageId, fault: Fault) returns (seen: bool, failed: bool)
      modifies this
      ensures seen <==> id != NoId && !fault.RecordFails? && id in old(window)
      ensures failed <==> SeenFails(old(Contents()), id, fault)
      ensures Contents() == AfterSeen(old(Contents()), id, dedupCap, fault)
    {
      if id == NoId {
        return false, false;
      }
      if fault.RecordFails? {
        return false, true;
      }
      var added := AddNX(id);
      if !added {
        return true, false;
      }
      if fault.TrimFails? {
        return false, true;
      }
      TrimOldest();
      return false, false;
    }
  }
}
