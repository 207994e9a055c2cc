/**
  Replies to requests: decoding them, and putting a request id on an envelope.
 */
module Acks {
  import opened Sequences
  import opened Wrappers
  import opened Protowire
  import opened Decimal
  import opened Decode
  import opened DecodeTheorems

  const CID: nat := 1
  const CHANNEL_MESSAGE_ACK: nat := 7
  const ERROR: nat := 12

  datatype Ack = Ack(cid: nat, messageId: Bytes, err: bool)

  // ----- what a frame says -----

  /** A request id, as a varint or as a decimal string. */
  function CidOf(v: Visit): Option<nat> {
    if v.num != CID then None
    else match v.sub
         case None => Some(v.v)
         case Some(s) => if ParseUint(s).Is? then Some(ParseUint(s).v) else None
  }

  /** The last request id that can be read. */
  function CidIn(vs: seq<Visit>): Option<nat> {
    if vs == [] then None
    else if CidOf(vs[|vs| - 1]).Some? then CidOf(vs[|vs| - 1])
    else CidIn(vs[..|vs| - 1])
  }

  predicate IsReply(v: Visit) {
    (v.num == CHANNEL_MESSAGE_ACK || v.num == ERROR) && v.sub.Some?
  }

  predicate Replied(vs: seq<Visit>) {
    exists v <- vs :: IsReply(v)
  }

  predicate Rejected(vs: seq<Visit>) {
    exists v <- vs :: IsReply(v) && v.num == ERROR
  }

  /** The id inside a visit to field 2 of an acknowledgement: a varint or a string. */
  function IdOfVisit(v: Visit): Bytes {
    if v.sub.Some? then v.sub.value else FormatUint(v.v)
  }

  /** The message id that an acknowledgement carries, if it carries one. */
  function MessageIdOf(v: Visit): Option<Bytes> {
    if !IsReply(v) || v.num == ERROR then None
    else var id := LastVisit(ItemVisits(v.sub.value), 2); if id.Some? then Some(IdOfVisit(id.value)) else None
  }

  /** The last message id that any acknowledgement of the frame carries. */
  function MessageIdIn(vs: seq<Visit>): Bytes {
    if vs == [] then []
    else if MessageIdOf(vs[|vs| - 1]).Some? then MessageIdOf(vs[|vs| - 1]).value
    else MessageIdIn(vs[..|vs| - 1])
  }

  /** The reply that the visits of a frame make, if they make one. */
  function AckIn(vs: seq<Visit>): Option<Ack> {
    if CidIn(vs).Some? && Replied(vs) then Some(Ack(CidIn(vs).value, MessageIdIn(vs), Rejected(vs))) else None
  }

  function AckOf(frame: Bytes): Option<Ack> {
    AckIn(Visits(Fields(frame).fields))
  }

  // ----- decoding -----

  /** The last id in an acknowledgement, or `was`. */
  method AckedId(sub: Bytes, was: Bytes) returns (id: Bytes)
    ensures id == MessageIdOf(Visit(CHANNEL_MESSAGE_ACK, 0, Some(sub))).GetOr(was)
  {
    var inner := WalkVarints(sub);
    id := was;
    for i := 0 to |inner|
      invariant var last := LastVisit(inner[..i], 2); id == if last.Some? then IdOfVisit(last.value) else was
    {
      TakeNext(inner, i);
      LastVisitSnoc(inner[..i], inner[i], 2);
      if inner[i].num != 2 {
        continue;
      }
      if inner[i].sub.None? {
        id := FormatUint(inner[i].v);
      } else {
        id := inner[i].sub.value;
      }
    }
    assert inner[..|inner|] == inner;
  }

  /** The loop's state after `vs`. */
  ghost predicate AckSoFar(vs: seq<Visit>, a: Ack, hasCid: bool, hasReply: bool) {
    && (hasCid <==> CidIn(vs).Some?) && a.cid == CidIn(vs).GetOr(0)
    && (hasReply <==> Replied(vs)) && (a.err <==> Rejected(vs))
    && a.messageId == MessageIdIn(vs)
  }

  lemma AckStep(vs: seq<Visit>, v: Visit)
    ensures CidIn(vs + [v]) == if CidOf(v).Some? then CidOf(v) else CidIn(vs)
    ensures MessageIdIn(vs + [v]) == MessageIdOf(v).GetOr(MessageIdIn(vs))
    ensures Replied(vs + [v]) <==> Replied(vs) || IsReply(v)
    ensures Rejected(vs + [v]) <==> Rejected(vs) || (IsReply(v) && v.num == ERROR)
  {
    assert (vs + [v])[..|vs|] == vs;
    assert v in vs + [v] && forall w <- vs :: w in vs + [v];
  }

  /** One visit of the walk below. */
  method AckVisit(v: Visit, a: Ack, hasCid: bool, hasReply: bool, ghost vs: seq<Visit>)
    returns (a': Ack, hasCid': bool, hasReply': bool)
    requires AckSoFar(vs, a, hasCid, hasReply)
    ensures AckSoFar(vs + [v], a', hasCid', hasReply')
  {
    AckStep(vs, v);
    a', hasCid', hasReply' := a, hasCid, hasReply;
    if v.num == CID && v.sub.None? {
      a', hasCid' := a.(cid := v.v), true;
    } else if v.num == CID {
      var n := ParseUint(v.sub.value);
      if n.Is? {
        a', hasCid' := a.(cid := n.v), true;
      }
    } else if v.num == CHANNEL_MESSAGE_ACK && v.sub.Some? {
      hasReply' := true;
      var id := AckedId(v.sub.value, a.messageId);
      a' := a.(messageId := id);
    } else if v.num == ERROR && v.sub.Some? {
      hasReply' := true;
      a' := a.(err := true);
    }
  }

  method DecodeAck(frame: Bytes) returns (a: Ack, ok: bool)
    ensures ok <==> AckOf(frame).Some?
    ensures ok ==> a == AckOf(frame).value
  {
    var visits := WalkVarints(frame);
    var hasCid, hasReply := false, false;
    a := Ack(0, [], false);
    for i := 0 to |visits|
      invariant AckSoFar(visits[..i], a, hasCid, hasReply)
    {
      TakeNext(visits, i);
      a, hasCid, hasReply := AckVisit(visits[i], a, hasCid, hasReply, visits[..i]);
    }
    assert visits[..|visits|] == visits;
    ok := hasCid && hasReply;
  }

  // ----- a frame plays one role -----

  /** A field that makes a frame a channel message or a reply. */
  ghost predicate IsRole(f: Field) {
    f.payload.Data? && f.num in {CHANNEL_MESSAGE, CHANNEL_MESSAGE_ACK, ERROR}
  }

  /** At most one such field, as in an Envelope, where the three are cases of one oneof. */
  ghost predicate SingleRole(frame: Bytes) {
    var fs := Fields(frame).fields;
    forall i, j :: 0 <= i < j < |fs| ==> !(IsRole(fs[i]) && IsRole(fs[j]))
  }

  lemma {:induction false} VisitHasField(fs: seq<Field>, v: Visit)
    requires v in Visits(fs)
    ensures exists f <- fs :: VisitOf(f) == [v]
    decreases |fs|
  {
    var front, f := fs[..|fs| - 1], fs[|fs| - 1];
    if v in Visits(front) {
      VisitHasField(front, v);
      var g :| g in front && VisitOf(g) == [v];
      assert g in fs;
    } else {
      assert v in VisitOf(f);
      assert VisitOf(f) == [v] && f in fs;
    }
  }

  lemma OneRole(frame: Bytes, f: Field, g: Field)
    requires SingleRole(frame) && f in Fields(frame).fields && g in Fields(frame).fields && IsRole(f) && IsRole(g)
    ensures f == g
  {
    var fs := Fields(frame).fields;
    var i :| 0 <= i < |fs| && fs[i] == f;
    var j :| 0 <= j < |fs| && fs[j] == g;
    assert i == j;
  }

  lemma ReplyField(frame: Bytes) returns (f: Field)
    requires AckOf(frame).Some?
    ensures f in Fields(frame).fields && IsRole(f) && f.num != CHANNEL_MESSAGE
  {
    var fs := Fields(frame).fields;
    var v :| v in Visits(fs) && IsReply(v);
    VisitHasField(fs, v);
    f :| f in fs && VisitOf(f) == [v];
  }

  /** A frame that plays one role is never both a reply and a channel message. */
  lemma NeverBoth(frame: Bytes)
    requires SingleRole(frame)
    ensures !(AckOf(frame).Some? && FrameOf(Fields(frame)).Found?)
    ensures AckOf(frame).Some? ==> FrameOf(Fields(frame)) == Other || !Fields(frame).Ok()
  {
    if AckOf(frame).Some? && FirstData(Fields(frame).fields, CHANNEL_MESSAGE).Some? {
      var f := ReplyField(frame);
      var _ := FirstDataIsFirst(Fields(frame).fields, CHANNEL_MESSAGE);
      OneRole(frame, f, Field(CHANNEL_MESSAGE, Data(FirstData(Fields(frame).fields, CHANNEL_MESSAGE).value)));
      assert false;
    }
  }

  // ----- request ids -----

  function VarintField(num: nat, v: nat): seq<Field> {
    if v == 0 then [] else [Field(num, Num(v))]
  }

  /** Zero is the proto3 default, and is left out. */
  function AppendVarintField(b: Bytes, num: nat, v: nat): Bytes {
    if v == 0 then b else b + TagBytes(num, 0) + Varint(v)
  }

  function WithCid(cid: nat, env: Bytes): Bytes {
    AppendVarintField([], CID, cid) + env
  }

  lemma WithCidFields(cid: nat, env: Bytes)
    requires cid < U64
    ensures Fields(WithCid(cid, env)) == Fields(env).After(VarintField(CID, cid))
  {
    var fs := VarintField(CID, cid);
    if cid == 0 {
      assert [] + env == env;
      assert [] + Fields(env).fields == Fields(env).fields;
    } else {
      var prefix := AppendVarintField([], CID, cid);
      assert Write(fs) == WriteField(fs[0]) + Write(fs[1..]) == prefix;
      WriteInverts(fs);
      FieldsConcat(prefix, env);
    }
  }

  lemma {:induction false} VisitsConcat(a: seq<Field>, b: seq<Field>)
    ensures Visits(a + b) == Visits(a) + Visits(b)
    decreases |b|
  {
    if b == [] {
      assert a + b == a;
    } else {
      var front, f := b[..|b| - 1], b[|b| - 1];
      assert a + b == (a + front) + [f];
      VisitsSnoc(a + front, f);
      VisitsConcat(a, front);
      assert Visits(a) + Visits(front) + VisitOf(f) == Visits(a) + (Visits(front) + VisitOf(f));
    }
  }

  lemma {:induction false} AckInCons(v: Visit, vs: seq<Visit>)
    requires v.num == CID && v.sub.None?
    ensures CidIn([v] + vs) == if CidIn(vs).Some? then CidIn(vs) else Some(v.v)
    ensures MessageIdIn([v] + vs) == MessageIdIn(vs)
    ensures Replied([v] + vs) <==> Replied(vs)
    ensures Rejected([v] + vs) <==> Rejected(vs)
    decreases |vs|
  {
    if vs == [] {
      assert [v] + vs == [v] && [v][..0] == [];
    } else {
      var front, last := vs[..|vs| - 1], vs[|vs| - 1];
      assert [v] + vs == ([v] + front) + [last] && vs == front + [last];
      AckInCons(v, front);
      AckStep([v] + front, last);
      AckStep(front, last);
    }
  }

  lemma VisitsAfterCid(cid: nat, fs: seq<Field>)
    ensures Visits([Field(CID, Num(cid))] + fs) == [Visit(CID, cid, None)] + Visits(fs)
  {
    VisitsConcat([Field(CID, Num(cid))], fs);
    assert [Field(CID, Num(cid))][..0] == [];
  }

  /**
    A request id in front of an envelope: every other field stays, the frame is
    the same message as before, and a reply keeps everything but the id, which is
    `cid` unless the envelope has one of its own.
   */
  lemma WithCidExact(cid: nat, env: Bytes)
    requires 0 < cid < U64
    ensures Fields(WithCid(cid, env)) == Fields(env).After([Field(CID, Num(cid))])
    ensures FrameOf(Fields(WithCid(cid, env))) == FrameOf(Fields(env))
    ensures var vs, vs' := Visits(Fields(env).fields), Visits(Fields(WithCid(cid, env)).fields);
            && CidIn(vs') == (if CidIn(vs).Some? then CidIn(vs) else Some(cid))
            && Replied(vs') == Replied(vs) && Rejected(vs') == Rejected(vs) && MessageIdIn(vs') == MessageIdIn(vs)
  {
    var l := Fields(env);
    WithCidFields(cid, env);
    assert Fields(WithCid(cid, env)) == l.After([Field(CID, Num(cid))]);
    FrameAfter(l, Field(CID, Num(cid)));
    VisitsAfterCid(cid, l.fields);
    AckInCons(Visit(CID, cid, None), Visits(l.fields));
  }
}
