/**
  What the socket's reader achieves: a reply reaches the request that waits for it,
  and a message reaches the callback.
 */
module ConnLiveness {
  import opened Wrappers
  import opened Protowire
  import opened Decode
  import opened Acks
  import opened ConnModel

  /** The reader has a reply `a` in hand, and the request it answers is in the table with nothing in its channel. */
  ghost predicate ReplyInHand(s: State, a: Ack) {
    && a.cid in s.pending && a.cid in s.chans && s.chans[a.cid] == None
    && match s.reader
       case Idle => false
       case Got(frame) => AckOf(frame) == Some(a)
       case Checked(frame, waiting) => waiting && AckOf(frame) == Some(a)
       case Resolving(b) => b == a
       case Sending(cid, b) => cid == a.cid && b == a
  }

  /** Only the end of the request itself, or the reader's own delivery, ends this. */
  lemma StaysInHand(bot: Bytes, s: State, step: Step, a: Ack)
    requires IdsInRange(s) && ReplyInHand(s, a) && Enabled(s, step)
    requires !step.TrySend? && !(step.Finish? && step.cid == a.cid)
    ensures ReplyInHand(Next(bot, s, step), a)
  {}

  lemma {:induction false} StaysInHandOver(bot: Bytes, s: State, steps: seq<Step>, a: Ack)
    requires Inv(s) && ReplyInHand(s, a) && ExecFrom(bot, s, steps).Some?
    requires forall step <- steps :: !step.TrySend? && !(step.Finish? && step.cid == a.cid)
    ensures Inv(ExecFrom(bot, s, steps).value) && ReplyInHand(ExecFrom(bot, s, steps).value, a)
    decreases |steps|
  {
    if steps != [] {
      var front, last := steps[..|steps| - 1], steps[|steps| - 1];
      assert last in steps && forall step <- front :: step in steps;
      StaysInHandOver(bot, s, front, a);
      var mid := ExecFrom(bot, s, front).value;
      StepKeepsInv(bot, mid, last);
      StaysInHand(bot, mid, last, a);
    }
  }

  /**
    A reply arrives.  When a frame with a reply has been read, and its request is in
    the table with an empty channel, then whatever anyone does before the request
    itself finishes, the reader puts that reply into that channel.
   */
  lemma ReplyArrives(bot: Bytes, s: State, steps: seq<Step>, a: Ack)
    requires Inv(s) && ReplyInHand(s, a) && ExecFrom(bot, s, steps).Some?
    requires forall step <- steps :: !step.TrySend? && !(step.Finish? && step.cid == a.cid)
    requires Enabled(ExecFrom(bot, s, steps).value, TrySend)
    ensures var s' := Next(bot, ExecFrom(bot, s, steps).value, TrySend);
            a.cid in s'.chans && s'.chans[a.cid] == Some(a) && s'.reader == Idle
  {
    StaysInHandOver(bot, s, steps, a);
  }

  /** A waiting request with a reply in its channel ends with it: accepted, or rejected by an error. */
  lemma ReplyResolves(bot: Bytes, s: State, a: Ack)
    requires a.cid in s.phases && s.phases[a.cid] == Waiting && a.cid in s.chans && s.chans[a.cid] == Some(a)
    ensures Enabled(s, Receive(a.cid))
    ensures Next(bot, s, Receive(a.cid)).phases[a.cid] == Leaving(if a.err then RejectedBy(a) else Acked(a))
  {}

  /** A request that was written waits; one that was not is over, and so is one whose time is up. */
  lemma RequestGoesOn(bot: Bytes, s: State, c: nat)
    ensures Enabled(s, Send(c, true)) ==> Next(bot, s, Send(c, true)).phases[c] == Waiting
    ensures Enabled(s, Send(c, false)) ==> Next(bot, s, Send(c, false)).phases[c] == Leaving(SendFailed)
    ensures Enabled(s, Timeout(c)) ==> Next(bot, s, Timeout(c)).phases[c] == Leaving(NoAck)
  {}

  /** It ends with the outcome it was left with, and is out of the table. */
  lemma RequestEnds(bot: Bytes, s: State, c: nat, o: Outcome)
    requires c in s.phases && s.phases[c] == Leaving(o)
    ensures Enabled(s, Finish(c)) && Next(bot, s, Finish(c)).phases[c] == Done(o)
    ensures c !in Next(bot, s, Finish(c)).pending
  {}

  lemma ReplyDispatched(bot: Bytes, s: State, ack: Option<Ack>)
    requires s.reader.Checked? && s.reader.waiting && ack == AckOf(s.reader.frame) && ack.Some?
    ensures Next(bot, s, Dispatch).handed == s.handed
  {}

  lemma OtherDispatched(bot: Bytes, s: State, ack: Option<Ack>, more: seq<Message>)
    requires s.reader.Checked? && ack == AckOf(s.reader.frame) && !(s.reader.waiting && ack.Some?)
    requires more == Handed(bot, s.reader.frame)
    ensures Next(bot, s, Dispatch).handed == s.handed + more
  {}

  lemma HandedIs(bot: Bytes, frame: Bytes)
    ensures var r := FrameOf(Fields(frame));
            Handed(bot, frame) == if r.Found? && r.msg.senderId != bot then [r.msg] else []
  {}

  /** A channel message from somebody else is handed to onMessage, unless the frame is a reply somebody waits for. */
  lemma MessageIsHanded(bot: Bytes, s: State, msg: Message)
    requires s.reader.Checked? && FrameOf(Fields(s.reader.frame)) == Found(msg) && msg.senderId != bot
    requires !(s.reader.waiting && AckOf(s.reader.frame).Some?)
    ensures Next(bot, s, Dispatch).handed == s.handed + [msg]
  {
    HandedIs(bot, s.reader.frame);
    OtherDispatched(bot, s, AckOf(s.reader.frame), [msg]);
  }

  /** Nothing else is: not the bot's own messages, not other frames, not a reply that somebody waits for. */
  lemma NothingElseIsHanded(bot: Bytes, s: State)
    requires s.reader.Checked?
    requires var r := FrameOf(Fields(s.reader.frame));
             !r.Found? || r.msg.senderId == bot || (s.reader.waiting && AckOf(s.reader.frame).Some?)
    ensures Next(bot, s, Dispatch).handed == s.handed
  {
    var ack := AckOf(s.reader.frame);
    if s.reader.waiting && ack.Some? {
      ReplyDispatched(bot, s, ack);
    } else {
      HandedIs(bot, s.reader.frame);
      OtherDispatched(bot, s, ack, []);
      assert s.handed + [] == s.handed;
    }
  }
}
