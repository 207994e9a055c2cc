/**
  What a reply is, by field numbers: the request id, the message id and the error
  flag as facts about the field list of the frame.
 */
module AckMeaning {
  import opened Wrappers
  import opened Protowire
  import opened Decimal
  import opened Decode
  import opened DecodeTheorems
  import opened DecodeMeaning
  import opened Acks

  /** A readable request id: field 1, as a varint or as a decimal that fits 64 bits. */
  function CidText(f: Field): Option<nat> {
    if f.num != 1 || f.payload.Raw? then None
    else if f.payload.Num? then Some(f.payload.v)
    else if ParseUint(f.payload.data).Is? then Some(ParseUint(f.payload.data).v)
    else None
  }

  /** Field i is the last readable request id. */
  ghost predicate LastCidAt(fs: seq<Field>, i: nat) {
    i < |fs| && CidText(fs[i]).Some? && forall j :: i < j < |fs| ==> CidText(fs[j]).None?
  }

  ghost predicate CidIs(fs: seq<Field>, cid: nat) {
    exists i: nat :: LastCidAt(fs, i) && CidText(fs[i]) == Some(cid)
  }

  /** An acknowledgement, field 7, or an error, field 12. */
  ghost predicate HasReply(fs: seq<Field>) {
    exists f <- fs :: IsData(f, 7) || IsData(f, 12)
  }

  ghost predicate HasError(fs: seq<Field>) {
    exists f <- fs :: IsData(f, 12)
  }

  /** The acknowledgement carries this message id: its last field 2, as it stands or as the decimal of a varint. */
  ghost predicate AckSays(sub: Bytes, id: Bytes) {
    var fs := Fields(sub).fields;
    exists i: nat ::
      LastVisitAt(fs, 2, i) && id == if fs[i].payload.Data? then BytesOf(fs[i]) else FormatUint(NumOf(fs[i]))
  }

  ghost predicate SaysNothing(sub: Bytes) {
    forall f <- Fields(sub).fields :: !IsVisit(f, 2)
  }

  /** Field i is the last acknowledgement that carries a message id. */
  ghost predicate LastIdAt(fs: seq<Field>, i: nat) {
    && i < |fs| && IsData(fs[i], 7) && !SaysNothing(fs[i].payload.data)
    && forall j :: i < j < |fs| && IsData(fs[j], 7) ==> SaysNothing(fs[j].payload.data)
  }

  ghost predicate MessageIdIs(fs: seq<Field>, id: Bytes) {
    || (id == [] && forall f <- fs :: IsData(f, 7) ==> SaysNothing(f.payload.data))
    || exists i: nat :: LastIdAt(fs, i) && AckSays(fs[i].payload.data, id)
  }

  // ----- field by field -----

  lemma CidVisit(f: Field)
    ensures f.payload.Raw? ==> CidText(f).None? && VisitOf(f) == []
    ensures !f.payload.Raw? ==> VisitOf(f) == [VisitOf(f)[0]] && CidOf(VisitOf(f)[0]) == CidText(f)
  {}

  lemma {:induction false} CidReads(fs: seq<Field>) returns (i: nat)
    ensures CidIn(Visits(fs)).None? ==> forall f <- fs :: CidText(f).None?
    ensures CidIn(Visits(fs)).Some? ==> LastCidAt(fs, i) && CidText(fs[i]) == CidIn(Visits(fs))
    decreases |fs|
  {
    i := 0;
    if fs != [] {
      var front, f := fs[..|fs| - 1], fs[|fs| - 1];
      assert fs == front + [f];
      VisitsSnoc(front, f);
      CidVisit(f);
      i := CidReads(front);
      if f.payload.Raw? {
        assert Visits(fs) == Visits(front);
      } else {
        AckStep(Visits(front), VisitOf(f)[0]);
      }
      if CidText(f).Some? {
        i := |front|;
      }
    }
  }

  lemma {:induction false} RepliesRead(fs: seq<Field>)
    ensures Replied(Visits(fs)) <==> HasReply(fs)
    ensures Rejected(Visits(fs)) <==> HasError(fs)
    decreases |fs|
  {
    if fs != [] {
      var front, f := fs[..|fs| - 1], fs[|fs| - 1];
      assert fs == front + [f];
      VisitsSnoc(front, f);
      RepliesRead(front);
      assert HasReply(fs) <==> HasReply(front) || IsData(f, 7) || IsData(f, 12);
      assert HasError(fs) <==> HasError(front) || IsData(f, 12);
      if f.payload.Raw? {
        assert Visits(fs) == Visits(front);
      } else {
        assert VisitOf(f) == [VisitOf(f)[0]];
        AckStep(Visits(front), VisitOf(f)[0]);
      }
    }
  }

  lemma IdVisit(f: Field)
    requires !f.payload.Raw?
    ensures VisitOf(f) == [VisitOf(f)[0]]
    ensures MessageIdOf(VisitOf(f)[0]).None? <==> !IsData(f, 7) || SaysNothing(f.payload.data)
    ensures MessageIdOf(VisitOf(f)[0]).Some? ==> AckSays(f.payload.data, MessageIdOf(VisitOf(f)[0]).value)
  {
    if IsData(f, 7) {
      var fs := Fields(f.payload.data).fields;
      var i := VisitReads(fs, 2);
      if LastVisit(Visits(fs), 2).Some? {
        assert LastVisitAt(fs, 2, i) && fs[i] in fs;
      }
    }
  }

  /** `id` is what the fields say of the message id; `at` is the field that says it, when there is one. */
  ghost predicate IdSoFar(fs: seq<Field>, id: Bytes, at: Option<nat>) {
    match at
    case None => id == [] && forall f <- fs :: IsData(f, 7) ==> SaysNothing(f.payload.data)
    case Some(i) => LastIdAt(fs, i) && AckSays(fs[i].payload.data, id)
  }

  lemma QuietField(fs: seq<Field>, id: Bytes, at: Option<nat>, f: Field)
    requires IdSoFar(fs, id, at) && (IsData(f, 7) ==> SaysNothing(f.payload.data))
    ensures IdSoFar(fs + [f], id, at)
  {}

  lemma TellingField(fs: seq<Field>, f: Field, id: Bytes)
    requires IsData(f, 7) && !SaysNothing(f.payload.data) && AckSays(f.payload.data, id)
    ensures IdSoFar(fs + [f], id, Some(|fs|))
  {}

  lemma {:induction false} IdReadsLast(fs: seq<Field>) returns (at: Option<nat>)
    ensures IdSoFar(fs, MessageIdIn(Visits(fs)), at)
    decreases |fs|
  {
    if fs == [] {
      at := None;
    } else {
      var front, f := fs[..|fs| - 1], fs[|fs| - 1];
      assert fs == front + [f];
      at := IdReadsLast(front);
      var id := IdVisited(front, f);
      if id.Some? {
        TellingField(front, f, id.value);
        at := Some(|front|);
      } else {
        QuietField(front, MessageIdIn(Visits(front)), at, f);
      }
    }
  }

  /** What one more field changes. */
  lemma IdVisited(fs: seq<Field>, f: Field) returns (id: Option<Bytes>)
    ensures MessageIdIn(Visits(fs + [f])) == id.GetOr(MessageIdIn(Visits(fs)))
    ensures id.None? ==> !IsData(f, 7) || SaysNothing(f.payload.data)
    ensures id.Some? ==> IsData(f, 7) && !SaysNothing(f.payload.data) && AckSays(f.payload.data, id.value)
  {
    VisitsSnoc(fs, f);
    if f.payload.Raw? {
      assert Visits(fs + [f]) == Visits(fs);
      id := None;
    } else {
      IdVisit(f);
      AckStep(Visits(fs), VisitOf(f)[0]);
      id := MessageIdOf(VisitOf(f)[0]);
    }
  }

  /**
    A frame is a reply exactly when it has a readable request id and an
    acknowledgement or an error; the last readable id, the last message id and any
    error decide what it says.
   */
  lemma AckMeans(frame: Bytes)
    ensures var fs := Fields(frame).fields;
            && (AckOf(frame).Some? <==> (exists f <- fs :: CidText(f).Some?) && HasReply(fs))
            && (AckOf(frame).Some? ==>
                  var a := AckOf(frame).value;
                  CidIs(fs, a.cid) && MessageIdIs(fs, a.messageId) && (a.err <==> HasError(fs)))
  {
    var fs := Fields(frame).fields;
    var i := CidReads(fs);
    RepliesRead(fs);
    if AckOf(frame).Some? {
      var at := IdReadsLast(fs);
      assert LastCidAt(fs, i) && (at.Some? ==> LastIdAt(fs, at.value));
    }
    if CidIn(Visits(fs)).Some? {
      assert fs[i] in fs;
    }
  }
}
