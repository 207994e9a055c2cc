/**
  What partial decoding cannot see: fields that are not read, wherever they
  stand, and everything after the first channel message.
 */
module DecodeTheorems {
  import opened Wrappers
  import opened Protowire
  import opened Decimal
  import opened Decode

  // ----- the last one wins -----

  ghost predicate IsNum(f: Field, num: nat) {
    f.num == num && f.payload.Num?
  }

  ghost predicate IsData(f: Field, num: nat) {
    f.num == num && f.payload.Data?
  }

  /** LastNum is the value of the last varint field of that number, if there is one. */
  lemma {:induction false} LastNumWins(fs: seq<Field>, num: nat)
    ensures LastNum(fs, num).None? <==> forall f <- fs :: !IsNum(f, num)
    ensures LastNum(fs, num).Some? ==>
      exists i :: 0 <= i < |fs| && fs[i] == Field(num, Num(LastNum(fs, num).value))
               && forall j :: i < j < |fs| ==> !IsNum(fs[j], num)
    decreases |fs|
  {
    if fs != [] {
      var front, f := fs[..|fs| - 1], fs[|fs| - 1];
      assert fs == front + [f];
      LastNumSnoc(front, f, num);
      LastNumWins(front, num);
      if IsNum(f, num) {
        assert fs[|fs| - 1] == Field(num, Num(LastNum(fs, num).value));
      } else if LastNum(fs, num).Some? {
        var i :| 0 <= i < |front| && front[i] == Field(num, Num(LastNum(front, num).value))
                 && forall j :: i < j < |front| ==> !IsNum(front[j], num);
        assert fs[i] == front[i];
        assert forall j :: i < j < |fs| ==> (j < |front| && fs[j] == front[j]) || fs[j] == f;
      }
    }
  }

  /** LastText is the value of the last length-delimited field of that number, or empty. */
  lemma {:induction false} LastTextWins(fs: seq<Field>, num: nat)
    ensures (forall f <- fs :: !IsData(f, num)) ==> LastText(fs, num) == []
    ensures (exists f <- fs :: IsData(f, num)) ==>
      exists i :: 0 <= i < |fs| && fs[i] == Field(num, Data(LastText(fs, num)))
               && forall j :: i < j < |fs| ==> !IsData(fs[j], num)
    decreases |fs|
  {
    if fs != [] {
      var front, f := fs[..|fs| - 1], fs[|fs| - 1];
      assert fs == front + [f];
      LastTextSnoc(front, f, num);
      LastTextWins(front, num);
      if IsData(f, num) {
        assert fs[|fs| - 1] == Field(num, Data(LastText(fs, num)));
      } else if exists g <- fs :: IsData(g, num) {
        var g :| g in fs && IsData(g, num);
        assert g in front;
        var i :| 0 <= i < |front| && front[i] == Field(num, Data(LastText(front, num)))
                 && forall j :: i < j < |front| ==> !IsData(front[j], num);
        assert fs[i] == front[i];
        assert forall j :: i < j < |fs| ==> (j < |front| && fs[j] == front[j]) || fs[j] == f;
      }
    }
  }

  // ----- unread fields in a channel message -----

  /** The fields that decoding a channel message reads, by wire type. */
  predicate IsRead(f: Field) {
    match f.payload
    case Num(_) => f.num in {1, 2, 3, 5, 22, 24}
    case Data(_) => f.num in {6, 7, 8, 9, 12, 13, 16, 17, 18}
    case Raw(_) => false
  }

  /** All of `fs` over `msg`. */
  function UpdateAll(msg: Message, fs: seq<Field>): Message {
    if fs == [] then msg else Update(UpdateAll(msg, fs[..|fs| - 1]), fs[|fs| - 1])
  }

  lemma UpdateSnoc(msg: Message, fs: seq<Field>, f: Field)
    ensures UpdateAll(msg, fs + [f]) == Update(UpdateAll(msg, fs), f)
  {
    assert (fs + [f])[..|fs|] == fs;
  }

  lemma {:induction false} ProjectIsUpdates(fs: seq<Field>)
    ensures Project(fs) == UpdateAll(EMPTY, fs)
    decreases |fs|
  {
    if fs == [] {
    } else {
      var front, f := fs[..|fs| - 1], fs[|fs| - 1];
      assert fs == front + [f];
      ProjectIsUpdates(front);
      ProjectSnoc(front, f);
      UpdateSnoc(EMPTY, front, f);
    }
  }

  lemma {:induction false} UpdateConcat(msg: Message, a: seq<Field>, b: seq<Field>)
    ensures UpdateAll(msg, a + b) == UpdateAll(UpdateAll(msg, a), b)
    decreases |b|
  {
    if b == [] {
      assert a + b == a;
    } else {
      var front, f := b[..|b| - 1], b[|b| - 1];
      assert a + b == (a + front) + [f] && b == front + [f];
      UpdateConcat(msg, a, front);
      UpdateSnoc(msg, a + front, f);
      UpdateSnoc(UpdateAll(msg, a), front, f);
    }
  }

  lemma UpdateUnread(msg: Message, f: Field)
    requires !IsRead(f)
    ensures Update(msg, f) == msg
  {}

  lemma {:induction false} UpdateAllUnread(msg: Message, unread: seq<Field>)
    requires forall f <- unread :: !IsRead(f)
    ensures UpdateAll(msg, unread) == msg
    decreases |unread|
  {
    if unread != [] {
      var front, f := unread[..|unread| - 1], unread[|unread| - 1];
      assert unread == front + [f] && forall g <- front :: g in unread;
      UpdateAllUnread(msg, front);
      UpdateSnoc(msg, front, f);
      UpdateUnread(msg, f);
    }
  }

  lemma ProjectSkips(a: seq<Field>, x: seq<Field>, b: seq<Field>)
    requires forall f <- x :: !IsRead(f)
    ensures Project(a + x + b) == Project(a + b)
  {
    ProjectIsUpdates(a + x + b);
    ProjectIsUpdates(a + b);
    UpdateConcat(EMPTY, a + x, b);
    UpdateConcat(EMPTY, a, x);
    UpdateConcat(EMPTY, a, b);
    UpdateAllUnread(UpdateAll(EMPTY, a), x);
  }

  lemma ListingSplit(a: Bytes, x: Bytes, b: Bytes)
    requires Fields(a).Ok() && Fields(x).Ok()
    ensures Fields(a + x + b) == Fields(b).After(Fields(a).fields + Fields(x).fields)
    ensures Fields(a + b) == Fields(b).After(Fields(a).fields)
  {
    FieldsConcat(a, x);
    FieldsConcat(a + x, b);
    FieldsConcat(a, b);
  }

  /**
    Well-formed fields that are not read can be inserted at any field boundary of
    a channel message: it stands for the same message, or fails the same way.
   */
  lemma UnreadInMessage(a: Bytes, x: Bytes, b: Bytes)
    requires Fields(a).Ok() && Fields(x).Ok() && forall f <- Fields(x).fields :: !IsRead(f)
    ensures MessageOf(a + x + b) == MessageOf(a + b)
  {
    ListingSplit(a, x, b);
    ProjectSkips(Fields(a).fields, Fields(x).fields, Fields(b).fields);
  }

  // ----- other fields in a frame -----

  lemma {:induction false} FirstDataConcat(a: seq<Field>, b: seq<Field>, num: nat)
    ensures FirstData(a + b, num) == if FirstData(a, num).Some? then FirstData(a, num) else FirstData(b, num)
    decreases |a|
  {
    if a == [] {
      assert a + b == b;
    } else {
      assert (a + b)[0] == a[0] && (a + b)[1..] == a[1..] + b;
      FirstDataConcat(a[1..], b, num);
    }
  }

  lemma {:induction false} FirstDataNone(fs: seq<Field>, num: nat)
    ensures FirstData(fs, num).None? <==> forall f <- fs :: !IsData(f, num)
    decreases |fs|
  {
    if fs != [] {
      FirstDataNone(fs[1..], num);
      assert fs[0] in fs && forall f <- fs :: f == fs[0] || f in fs[1..];
      assert forall f <- fs[1..] :: f in fs;
    }
  }

  /** The same for a whole frame: anything but a channel message can stand anywhere in it. */
  lemma UnreadInFrame(a: Bytes, x: Bytes, b: Bytes)
    requires Fields(a).Ok() && Fields(x).Ok() && forall f <- Fields(x).fields :: !IsData(f, CHANNEL_MESSAGE)
    ensures FrameOf(Fields(a + x + b)) == FrameOf(Fields(a + b))
  {
    var fa, fx, fb := Fields(a).fields, Fields(x).fields, Fields(b).fields;
    ListingSplit(a, x, b);
    FirstDataNone(fx, CHANNEL_MESSAGE);
    FirstDataConcat(fa, fx, CHANNEL_MESSAGE);
    FirstDataConcat(fa + fx, fb, CHANNEL_MESSAGE);
    FirstDataConcat(fa, fb, CHANNEL_MESSAGE);
  }

  /** FirstData is the value of the first length-delimited field of that number. */
  lemma {:induction false} FirstDataIsFirst(fs: seq<Field>, num: nat) returns (i: nat)
    requires FirstData(fs, num).Some?
    ensures i < |fs| && fs[i] == Field(num, Data(FirstData(fs, num).value))
    ensures forall j :: 0 <= j < i ==> !IsData(fs[j], num)
    decreases |fs|
  {
    if IsData(fs[0], num) {
      i := 0;
    } else {
      var k := FirstDataIsFirst(fs[1..], num);
      i := k + 1;
      assert forall j :: 0 < j < i ==> fs[j] == fs[1..][j - 1];
    }
  }

  /** Field i is the frame's first channel message, and `sub` is its value. */
  ghost predicate IsFirstMessage(fs: seq<Field>, i: nat, sub: Bytes) {
    i < |fs| && fs[i] == Field(CHANNEL_MESSAGE, Data(sub)) && forall j :: 0 <= j < i ==> !IsData(fs[j], CHANNEL_MESSAGE)
  }

  /**
    A frame is a channel message, or fails, because of its first channel message
    alone; without one it fails exactly when the frame itself does not parse.
   */
  lemma FrameFailsExactly(frame: Bytes)
    ensures var l, r := Fields(frame), FrameOf(Fields(frame));
            && ((forall f <- l.fields :: !IsData(f, CHANNEL_MESSAGE)) ==>
                  (r.Malformed? <==> !l.Ok()) && !r.Found?)
            && ((exists f <- l.fields :: IsData(f, CHANNEL_MESSAGE)) ==>
                  exists i, sub :: IsFirstMessage(l.fields, i, sub)
                    && (r.Malformed? <==> !Fields(sub).Ok())
                    && (Fields(sub).Ok() ==> r == Found(Project(Fields(sub).fields))))
  {
    var l := Fields(frame);
    FirstDataNone(l.fields, CHANNEL_MESSAGE);
    if exists f <- l.fields :: IsData(f, CHANNEL_MESSAGE) {
      var i := FirstDataIsFirst(l.fields, CHANNEL_MESSAGE);
      assert IsFirstMessage(l.fields, i, FirstData(l.fields, CHANNEL_MESSAGE).value);
    }
  }

  // ----- an id that is not a varint -----

  /** "0" */
  const ZERO: Bytes := [48]

  /** What the sender of a mention item put in its id field: a varint, or bytes. */
  function WrittenId(v: Visit): Bytes {
    if v.sub.Some? then v.sub.value else FormatUint(v.v)
  }

  /**
    A mention's user id is the decimal text of the last field 2 when that is a
    varint, and "0" whatever it holds when it is bytes: the id that was written
    is read exactly when it is a varint, or bytes that say "0".
   */
  lemma MentionIdExact(item: Bytes, v: Visit)
    requires LastVisit(ItemVisits(item), 2) == Some(v)
    ensures v.sub.Some? ==> MentionOf(ItemVisits(item)).userId == ZERO
    ensures MentionOf(ItemVisits(item)).userId == WrittenId(v) <==> v.sub.None? || v.sub.value == ZERO
  {
    if v.sub.Some? {
      BytesVisitsAreZero(Fields(item).fields, v, 2);
    }
    assert FormatUint(0) == ZERO;
  }

  lemma {:induction false} BytesVisitsAreZero(fs: seq<Field>, v: Visit, num: nat)
    requires LastVisit(Visits(fs), num) == Some(v) && v.sub.Some?
    ensures v.v == 0
    decreases |fs|
  {
    if fs != [] {
      var front, f := fs[..|fs| - 1], fs[|fs| - 1];
      assert fs == front + [f];
      VisitsSnoc(front, f);
      if VisitOf(f) == [] {
        assert Visits(fs) == Visits(front);
      } else {
        LastVisitSnoc(Visits(front), VisitOf(f)[0], num);
        assert Visits(fs) == Visits(front) + [VisitOf(f)[0]];
      }
      if VisitOf(f) == [] || VisitOf(f)[0].num != num {
        BytesVisitsAreZero(front, v, num);
      }
    }
  }

  /** The mention item whose field 2 is the text "5" is read as a mention of user 0. */
  lemma TextIdReadsAsZero()
    ensures var item: Bytes := [0x12, 1, 53];
            Fields(item) == Listing([Field(2, Data([53]))], None) && MentionOf(ItemVisits(item)).userId == ZERO
  {
    var f := Field(2, Data([53]));
    WriteInverts([f]);
    assert Write([f]) == [0x12, 1, 53];
    var v := Visit(2, 0, Some([53]));
    VisitsSnoc([], f);
    LastVisitSnoc([], v, 2);
    assert [] + [f] == [f] && [] + [v] == [v] && Visits([f]) == [v];
    MentionIdExact([0x12, 1, 53], v);
  }
}
