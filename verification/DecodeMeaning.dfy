/**
  What each attribute of a decoded message is, by its field number: statements
  about the field list alone, with the position of the field that decides.  In a
  message that is the last field with the number and the wire type of the
  attribute; in an item of a list it is the last one with the number, of either
  wire type.
 */
module DecodeMeaning {
  import opened Wrappers
  import opened Protowire
  import opened Decimal
  import opened Decode
  import opened DecodeTheorems

  // ----- attributes of a field list -----

  /** Field i is the last varint field with this number. */
  ghost predicate LastNumAt(fs: seq<Field>, num: nat, i: nat) {
    i < |fs| && IsNum(fs[i], num) && forall j :: i < j < |fs| ==> !IsNum(fs[j], num)
  }

  /** Field i is the last length-delimited field with this number. */
  ghost predicate LastDataAt(fs: seq<Field>, num: nat, i: nat) {
    i < |fs| && IsData(fs[i], num) && forall j :: i < j < |fs| ==> !IsData(fs[j], num)
  }

  /** `text` is the decimal of the last varint field `num`, or empty without one. */
  ghost predicate IdIs(fs: seq<Field>, num: nat, text: Bytes) {
    || (text == [] && forall f <- fs :: !IsNum(f, num))
    || exists i: nat :: LastNumAt(fs, num, i) && text == FormatUint(fs[i].payload.v)
  }

  /** `x` is the int32 of the last varint field `num`, or 0 without one. */
  ghost predicate IntIs(fs: seq<Field>, num: nat, x: int) {
    || (x == 0 && forall f <- fs :: !IsNum(f, num))
    || exists i: nat :: LastNumAt(fs, num, i) && x == Int32(fs[i].payload.v)
  }

  ghost predicate FlagIs(fs: seq<Field>, num: nat, b: bool) {
    || (!b && forall f <- fs :: !IsNum(f, num))
    || exists i: nat :: LastNumAt(fs, num, i) && (b <==> fs[i].payload.v != 0)
  }

  /** `text` is the last length-delimited field `num`, or empty without one. */
  ghost predicate TextIs(fs: seq<Field>, num: nat, text: Bytes) {
    || (text == [] && forall f <- fs :: !IsData(f, num))
    || exists i: nat :: LastDataAt(fs, num, i) && text == fs[i].payload.data
  }

  lemma IdReads(fs: seq<Field>, num: nat)
    ensures IdIs(fs, num, LastId(fs, num))
  {
    var _ := NumReads(fs, num);
  }

  lemma IntReads(fs: seq<Field>, num: nat)
    ensures IntIs(fs, num, Int32(LastNum(fs, num).GetOr(0)))
  {
    var _ := NumReads(fs, num);
  }

  lemma FlagReads(fs: seq<Field>, num: nat)
    ensures FlagIs(fs, num, LastNum(fs, num).GetOr(0) != 0)
  {
    var _ := NumReads(fs, num);
  }

  lemma NumReads(fs: seq<Field>, num: nat) returns (i: nat)
    ensures LastNum(fs, num).None? ==> forall f <- fs :: !IsNum(f, num)
    ensures LastNum(fs, num).Some? ==> LastNumAt(fs, num, i) && fs[i].payload.v == LastNum(fs, num).value
  {
    LastNumWins(fs, num);
    i := 0;
    if LastNum(fs, num).Some? {
      i :| 0 <= i < |fs| && fs[i] == Field(num, Num(LastNum(fs, num).value))
           && forall j :: i < j < |fs| ==> !IsNum(fs[j], num);
    }
  }

  lemma TextReads(fs: seq<Field>, num: nat)
    ensures TextIs(fs, num, LastText(fs, num))
  {
    LastTextWins(fs, num);
    if exists f <- fs :: IsData(f, num) {
      var i :| 0 <= i < |fs| && fs[i] == Field(num, Data(LastText(fs, num)))
               && forall j :: i < j < |fs| ==> !IsData(fs[j], num);
      assert LastDataAt(fs, num, i);
    }
  }

  // ----- items of a list -----

  /** `items` are the values of all length-delimited fields `num`, in order; `at` says where they are. */
  ghost predicate ItemsAt(fs: seq<Field>, num: nat, items: seq<Bytes>, at: seq<nat>) {
    && |at| == |items|
    && (forall k :: 0 <= k < |at| ==> at[k] < |fs| && fs[at[k]] == Field(num, Data(items[k])))
    && (forall k, l :: 0 <= k < l < |at| ==> at[k] < at[l])
    && (forall i: nat :: i < |fs| && IsData(fs[i], num) ==> i in at)
  }

  ghost predicate ItemsAre(fs: seq<Field>, num: nat, items: seq<Bytes>) {
    exists at :: ItemsAt(fs, num, items, at)
  }

  lemma OneMoreField(fs: seq<Field>, num: nat, items: seq<Bytes>, at: seq<nat>, f: Field)
    requires ItemsAt(fs, num, items, at)
    ensures !IsData(f, num) ==> ItemsAt(fs + [f], num, items, at)
    ensures IsData(f, num) ==> ItemsAt(fs + [f], num, items + [f.payload.data], at + [|fs|])
  {
    if IsData(f, num) {
      var at' := at + [|fs|];
      assert |fs| in at' && forall i <- at :: i in at';
    }
  }

  lemma {:induction false} AllDataReads(fs: seq<Field>, num: nat) returns (at: seq<nat>)
    ensures ItemsAt(fs, num, AllData(fs, num), at)
    decreases |fs|
  {
    if fs == [] {
      at := [];
    } else {
      var front, f := fs[..|fs| - 1], fs[|fs| - 1];
      at := AllDataReads(front, num);
      OneMoreField(front, num, AllData(front, num), at, f);
      DataSnoc(front, f, num);
      assert fs == front + [f] && AllData(front, num) + [] == AllData(front, num);
      if IsData(f, num) {
        at := at + [|front|];
      }
    }
  }

  // ----- attributes of an item: the last field of either wire type -----

  ghost predicate IsVisit(f: Field, num: nat) {
    f.num == num && !f.payload.Raw?
  }

  ghost predicate LastVisitAt(fs: seq<Field>, num: nat, i: nat) {
    i < |fs| && IsVisit(fs[i], num) && forall j :: i < j < |fs| ==> !IsVisit(fs[j], num)
  }

  /** The varint of a field; bytes count as 0. */
  function NumOf(f: Field): nat {
    if f.payload.Num? then f.payload.v else 0
  }

  /** The bytes of a field; a varint counts as none. */
  function BytesOf(f: Field): Bytes {
    if f.payload.Data? then f.payload.data else []
  }

  ghost predicate ItemIdIs(fs: seq<Field>, num: nat, text: Bytes) {
    || (text == [] && forall f <- fs :: !IsVisit(f, num))
    || exists i: nat :: LastVisitAt(fs, num, i) && text == FormatUint(NumOf(fs[i]))
  }

  ghost predicate ItemIntIs(fs: seq<Field>, num: nat, x: int) {
    || (x == 0 && forall f <- fs :: !IsVisit(f, num))
    || exists i: nat :: LastVisitAt(fs, num, i) && x == Int32(NumOf(fs[i]))
  }

  ghost predicate ItemTextIs(fs: seq<Field>, num: nat, text: Bytes) {
    || (text == [] && forall f <- fs :: !IsVisit(f, num))
    || exists i: nat :: LastVisitAt(fs, num, i) && text == BytesOf(fs[i])
  }

  lemma {:induction false} VisitReads(fs: seq<Field>, num: nat) returns (i: nat)
    ensures LastVisit(Visits(fs), num).None? ==> forall f <- fs :: !IsVisit(f, num)
    ensures LastVisit(Visits(fs), num).Some? ==>
              LastVisitAt(fs, num, i) && VisitOf(fs[i]) == [LastVisit(Visits(fs), num).value]
    decreases |fs|
  {
    i := 0;
    if fs != [] {
      var front, f := fs[..|fs| - 1], fs[|fs| - 1];
      assert fs == front + [f];
      VisitsSnoc(front, f);
      i := VisitReads(front, num);
      if f.payload.Raw? {
        assert Visits(fs) == Visits(front);
      } else {
        assert Visits(fs) == Visits(front) + [VisitOf(f)[0]];
        LastVisitSnoc(Visits(front), VisitOf(f)[0], num);
      }
      if IsVisit(f, num) {
        i := |front|;
      }
    }
  }

  lemma ItemReads(fs: seq<Field>, num: nat)
    ensures ItemIdIs(fs, num, IdText(LastVisit(Visits(fs), num)))
    ensures ItemIntIs(fs, num, Int(LastVisit(Visits(fs), num)))
    ensures ItemTextIs(fs, num, Text(LastVisit(Visits(fs), num)))
  {
    var i := VisitReads(fs, num);
    if LastVisit(Visits(fs), num).Some? {
      assert LastVisitAt(fs, num, i);
    }
  }

  ghost predicate MentionReads(item: Bytes, m: Mention) {
    var fs := Fields(item).fields;
    ItemIdIs(fs, 2, m.userId) && ItemIntIs(fs, 7, m.s) && ItemIntIs(fs, 8, m.e)
  }

  ghost predicate AttachmentReads(item: Bytes, a: Attachment) {
    var fs := Fields(item).fields;
    && ItemTextIs(fs, 1, a.filename) && ItemIntIs(fs, 2, a.size)
    && ItemTextIs(fs, 3, a.url) && ItemTextIs(fs, 4, a.filetype)
  }

  ghost predicate ReferenceReads(item: Bytes, r: Reference) {
    var fs := Fields(item).fields;
    ItemIdIs(fs, 1, r.messageId) && ItemTextIs(fs, 3, r.content) && ItemIdIs(fs, 6, r.senderId)
  }

  /** The list in the last length-delimited field `num` has these items: its own fields 1. */
  ghost predicate ListIs(fs: seq<Field>, num: nat, items: seq<Bytes>) {
    exists list :: TextIs(fs, num, list) && ItemsAre(Fields(list).fields, 1, items)
  }

  lemma ListReads(fs: seq<Field>, num: nat)
    ensures ListIs(fs, num, Items(LastText(fs, num)))
  {
    TextReads(fs, num);
    var list := LastText(fs, num);
    var at := AllDataReads(Fields(list).fields, 1);
    assert ItemsAre(Fields(list).fields, 1, Items(list));
  }

  ghost predicate MentionsRead(items: seq<Bytes>, ms: seq<Mention>) {
    |ms| == |items| && forall i :: 0 <= i < |ms| ==> MentionReads(items[i], ms[i])
  }

  ghost predicate AttachmentsRead(items: seq<Bytes>, fs: seq<Attachment>) {
    |fs| == |items| && forall i :: 0 <= i < |fs| ==> AttachmentReads(items[i], fs[i])
  }

  ghost predicate ReferencesRead(items: seq<Bytes>, rs: seq<Reference>) {
    |rs| == |items| && forall i :: 0 <= i < |rs| ==> ReferenceReads(items[i], rs[i])
  }

  lemma OneMention(item: Bytes)
    ensures MentionReads(item, MentionOf(ItemVisits(item)))
  {
    var fs := Fields(item).fields;
    ItemReads(fs, 2);
    ItemReads(fs, 7);
    ItemReads(fs, 8);
  }

  lemma OneAttachment(item: Bytes)
    ensures AttachmentReads(item, AttachmentOf(ItemVisits(item)))
  {
    var fs := Fields(item).fields;
    ItemReads(fs, 1);
    ItemReads(fs, 2);
    ItemReads(fs, 3);
    ItemReads(fs, 4);
  }

  lemma OneReference(item: Bytes)
    ensures ReferenceReads(item, ReferenceOf(ItemVisits(item)))
  {
    var fs := Fields(item).fields;
    ItemReads(fs, 1);
    ItemReads(fs, 3);
    ItemReads(fs, 6);
  }

  lemma MentionsSnoc(items: seq<Bytes>, ms: seq<Mention>, item: Bytes, x: Mention)
    requires MentionsRead(items, ms) && MentionReads(item, x)
    ensures MentionsRead(items + [item], ms + [x])
  {}

  lemma {:induction false} AllMentions(items: seq<Bytes>)
    ensures MentionsRead(items, MentionList(items))
    decreases |items|
  {
    if items != [] {
      var front, last := items[..|items| - 1], items[|items| - 1];
      assert items == front + [last];
      AllMentions(front);
      OneMention(last);
      MentionsSnoc(front, MentionList(front), last, MentionOf(ItemVisits(last)));
    }
  }

  lemma AttachmentsSnoc(items: seq<Bytes>, fs: seq<Attachment>, item: Bytes, x: Attachment)
    requires AttachmentsRead(items, fs) && AttachmentReads(item, x)
    ensures AttachmentsRead(items + [item], fs + [x])
  {}

  lemma {:induction false} AllAttachments(items: seq<Bytes>)
    ensures AttachmentsRead(items, AttachmentList(items))
    decreases |items|
  {
    if items != [] {
      var front, last := items[..|items| - 1], items[|items| - 1];
      assert items == front + [last];
      AllAttachments(front);
      OneAttachment(last);
      AttachmentsSnoc(front, AttachmentList(front), last, AttachmentOf(ItemVisits(last)));
    }
  }

  lemma ReferencesSnoc(items: seq<Bytes>, rs: seq<Reference>, item: Bytes, x: Reference)
    requires ReferencesRead(items, rs) && ReferenceReads(item, x)
    ensures ReferencesRead(items + [item], rs + [x])
  {}

  lemma {:induction false} AllReferences(items: seq<Bytes>)
    ensures ReferencesRead(items, ReferenceList(items))
    decreases |items|
  {
    if items != [] {
      var front, last := items[..|items| - 1], items[|items| - 1];
      assert items == front + [last];
      AllReferences(front);
      OneReference(last);
      ReferencesSnoc(front, ReferenceList(front), last, ReferenceOf(ItemVisits(last)));
    }
  }

  // ----- the whole message -----

  ghost predicate NumbersRead(fs: seq<Field>, m: Message) {
    && IdIs(fs, 1, m.clanId) && IdIs(fs, 2, m.channelId) && IdIs(fs, 3, m.messageId) && IdIs(fs, 5, m.senderId)
    && IntIs(fs, 22, m.mode) && FlagIs(fs, 24, m.isPublic)
  }

  ghost predicate TextsRead(fs: seq<Field>, m: Message) {
    && TextIs(fs, 6, m.username) && TextIs(fs, 7, m.avatar) && TextIs(fs, 8, m.content)
    && TextIs(fs, 9, m.channelLabel) && TextIs(fs, 12, m.displayName) && TextIs(fs, 13, m.clanNick)
  }

  ghost predicate ListsRead(fs: seq<Field>, m: Message) {
    exists mentions, attachments, references ::
      && ListIs(fs, 16, mentions) && MentionsRead(mentions, m.mentions)
      && ListIs(fs, 17, attachments) && AttachmentsRead(attachments, m.attachments)
      && ListIs(fs, 18, references) && ReferencesRead(references, m.references)
  }

  /** Every attribute of the message is what its field number says. */
  ghost predicate MessageReads(fs: seq<Field>, m: Message) {
    NumbersRead(fs, m) && TextsRead(fs, m) && ListsRead(fs, m)
  }

  lemma NumbersOf(fs: seq<Field>)
    ensures NumbersRead(fs, Project(fs))
  {
    IdReads(fs, 1);
    IdReads(fs, 2);
    IdReads(fs, 3);
    IdReads(fs, 5);
    IntReads(fs, 22);
    FlagReads(fs, 24);
  }

  lemma TextsOf(fs: seq<Field>)
    ensures TextsRead(fs, Project(fs))
  {
    TextReads(fs, 6);
    TextReads(fs, 7);
    TextReads(fs, 8);
    TextReads(fs, 9);
    TextReads(fs, 12);
    TextReads(fs, 13);
  }

  lemma ListsOf(fs: seq<Field>)
    ensures ListsRead(fs, Project(fs))
  {
    ListReads(fs, 16);
    AllMentions(Items(LastText(fs, 16)));
    ListReads(fs, 17);
    AllAttachments(Items(LastText(fs, 17)));
    ListReads(fs, 18);
    AllReferences(Items(LastText(fs, 18)));
  }

  /** A channel message that decodes is what its fields say, attribute by attribute. */
  lemma FieldsMean(b: Bytes, m: Message)
    requires MessageOf(b) == Ok(m)
    ensures Fields(b).Ok() && MessageReads(Fields(b).fields, m)
  {
    NumbersOf(Fields(b).fields);
    TextsOf(Fields(b).fields);
    ListsOf(Fields(b).fields);
  }

  /** A frame that decodes is the message in its first length-delimited field 6. */
  lemma FrameMeans(frame: Bytes, m: Message)
    requires FrameOf(Fields(frame)) == Found(m)
    ensures exists i: nat, sub ::
              && i < |Fields(frame).fields| && Fields(frame).fields[i] == Field(6, Data(sub))
              && (forall j :: 0 <= j < i ==> !IsData(Fields(frame).fields[j], 6))
              && Fields(sub).Ok() && MessageReads(Fields(sub).fields, m)
  {
    var fs := Fields(frame).fields;
    var i := FirstDataIsFirst(fs, CHANNEL_MESSAGE);
    var sub := FirstData(fs, CHANNEL_MESSAGE).value;
    FieldsMean(sub, m);
    assert fs[i] == Field(6, Data(sub));
  }
}
