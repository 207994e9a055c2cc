/**
  The socket object itself: its fields, and one method for each section that runs
  under a lock or on a channel.

  Every method is proved to take the step of ConnModel with the same name, on any
  state that the object shows.

  The table maps ids to channel objects, which the reader sends on and the
  requester receives from.  All channels ever made are kept in a ghost map, each a
  different object, so that filling or emptying one leaves the others alone.
  Joining clans and closing need no step: they touch no request.
 */
module ConnClient {
  import opened Wrappers
  import opened Protowire
  import opened Decode
  import opened Acks
  import opened ConnModel

  /** A channel of capacity one. */
  class Channel {
    var buf: Option<Ack>

    constructor ()
      ensures buf == None
    {
      buf := None;
    }

    /** Send unless the buffer is full; never wait. */
    method TrySend(a: Ack)
      modifies this
      ensures buf == if old(buf).None? then Some(a) else old(buf)
    {
      if buf.None? {
        buf := Some(a);
      }
    }
  }

  class Conn {
    const botUserId: Bytes
    var pingCid: nat
    var pending: map<nat, Channel>
    var joined: set<Bytes>
    var closed: bool
    ghost var chans: map<nat, Channel>   // every request's channel, finished or not

    constructor (bot: Bytes)
      ensures botUserId == bot && joined == {} && !closed
      ensures Shows(START)
    {
      botUserId, pingCid, pending, joined, closed, chans := bot, 0, map[], {}, false, map[];
    }

    ghost predicate Apart() reads this {
      forall c, d :: c in chans && d in chans && c != d ==> chans[c] != chans[d]
    }

    /** The fields stand for the shared part of model state `s`. */
    ghost predicate Shows(s: State)
      reads this, set c | c in chans :: chans[c]
    {
      && pingCid == s.lastCid && Apart()
      && chans.Keys == s.chans.Keys && (forall c :: c in chans ==> chans[c].buf == s.chans[c])
      && pending.Keys == s.pending && forall c :: c in pending ==> c in chans && pending[c] == chans[c]
    }

    /** The next request id, and a channel for its reply. */
    method Alloc(ghost s: State) returns (cid: nat, ch: Channel)
      requires Shows(s) && Inv(s)
      modifies this`pingCid, this`chans
      ensures cid == s.lastCid + 1 && fresh(ch) && cid in chans && chans[cid] == ch
      ensures Shows(Next(botUserId, s, ConnModel.Alloc))
    {
      pingCid := pingCid + 1;
      cid := pingCid;
      ch := new Channel();
      chans := chans[cid := ch];
    }

    /** Enter the request in the table. */
    method Register(cid: nat, ch: Channel, ghost s: State)
      requires Shows(s) && Enabled(s, ConnModel.Register(cid)) && cid in chans && chans[cid] == ch
      modifies this`pending
      ensures Shows(Next(botUserId, s, ConnModel.Register(cid)))
    {
      pending := pending[cid := ch];
    }

    /** Write a frame, unless the socket is closed; `wrote` is what the network says. */
    method Send(wrote: bool) returns (ok: bool)
      ensures ok <==> !closed && wrote
    {
      if closed {
        return false;
      }
      ok := wrote;
    }

    /** Take the reply out of the channel. */
    method Receive(cid: nat, ch: Channel, ghost s: State) returns (o: Outcome)
      requires Shows(s) && Enabled(s, ConnModel.Receive(cid)) && cid in chans && chans[cid] == ch
      modifies ch
      ensures Shows(Next(botUserId, s, ConnModel.Receive(cid)))
      ensures Next(botUserId, s, ConnModel.Receive(cid)).phases[cid] == Leaving(o)
    {
      var a := ch.buf.value;
      ch.buf := None;
      o := if a.err then RejectedBy(a) else Acked(a);
    }

    /** Drop the request from the table. */
    method Finish(cid: nat, ghost s: State)
      requires Shows(s) && Enabled(s, ConnModel.Finish(cid))
      modifies this`pending
      ensures Shows(Next(botUserId, s, ConnModel.Finish(cid)))
    {
      pending := pending - {cid};
    }

    /** A keepalive takes an id from the same sequence. */
    method Ping(ghost s: State) returns (cid: nat)
      requires Shows(s)
      modifies this`pingCid
      ensures cid == s.lastCid + 1
      ensures Shows(Next(botUserId, s, ConnModel.Ping))
    {
      pingCid := pingCid + 1;
      cid := pingCid;
    }

    method HasPending(ghost s: State) returns (b: bool)
      requires Shows(s) && s.reader.Got?
      ensures Next(botUserId, s, ConnModel.Check).reader == Checked(s.reader.frame, b)
    {
      b := |pending| > 0;
      assert |pending| == |pending.Keys|;
    }

    /** The body of the read loop once a frame is there and the table has been looked at. */
    method Dispatch(frame: Bytes, waiting: bool, ghost s: State) returns (ack: Option<Ack>, msg: seq<Message>)
      requires s.reader == Checked(frame, waiting)
      ensures var s' := Next(botUserId, s, ConnModel.Dispatch);
              && s'.handed == s.handed + msg
              && s'.reader == if ack.Some? then Resolving(ack.value) else Idle
    {
      msg := [];
      assert s.handed + [] == s.handed;
      if waiting {
        var a, ok := DecodeAck(frame);
        if ok {
          return Some(a), [];
        }
      }
      ack := None;
      var r := DecodeChannelMessage(frame);
      if !r.Found? {
        return;
      }
      if r.msg.senderId == botUserId {
        return;
      }
      msg := [r.msg];
    }

    /** The channel of the request a reply answers, if that request is still in the table. */
    method Lookup(a: Ack, ghost s: State) returns (ch: Channel?)
      requires Shows(s) && s.reader == Resolving(a)
      ensures var s' := Next(botUserId, s, ConnModel.Lookup);
              && (s'.reader.Sending? <==> ch != null)
              && (ch != null ==> a.cid in chans && ch == chans[a.cid] && s'.reader == Sending(a.cid, a))
    {
      if a.cid in pending {
        return pending[a.cid];
      }
      ch := null;
    }

    /** Hand the reply over, or drop it when the channel is full. */
    method Resolve(ch: Channel, a: Ack, ghost s: State)
      requires Shows(s) && s.reader == Sending(a.cid, a) && a.cid in chans && ch == chans[a.cid]
      modifies ch
      ensures Shows(Next(botUserId, s, TrySend))
    {
      ch.TrySend(a);
    }

    /** Join a clan once; only a join that was written is remembered. */
    method JoinClan(clan: Bytes, wrote: bool) returns (sent: bool, ok: bool)
      modifies this`joined
      ensures sent <==> clan !in old(joined) && !closed
      ensures ok <==> clan in joined
      ensures joined == if sent && wrote then old(joined) + {clan} else old(joined)
    {
      if clan in joined {
        return false, true;
      }
      sent := !closed;
      ok := Send(wrote);
      if ok {
        joined := joined + {clan};
      }
    }
  }
}
