/**
  The partial decoders: loops over the wire that read a few fields and skip the
  rest, against the field list of a full parse.  Text is kept as bytes; the
  lists that the source prints as JSON stay lists (an empty one is no JSON).
 */
module Decode {
  import opened Sequences
  import opened Wrappers
  import opened Protowire
  import opened Decimal

  datatype Mention = Mention(userId: Bytes, s: int, e: int)

  datatype Attachment = Attachment(filename: Bytes, url: Bytes, filetype: Bytes, size: int)

  datatype Reference = Reference(messageId: Bytes, senderId: Bytes, content: Bytes)

  datatype Message = Message(
    clanId: Bytes, channelId: Bytes, messageId: Bytes, senderId: Bytes,
    username: Bytes, avatar: Bytes, content: Bytes, channelLabel: Bytes, displayName: Bytes, clanNick: Bytes,
    mentions: seq<Mention>, attachments: seq<Attachment>, references: seq<Reference>,
    mode: int, isPublic: bool)

  const EMPTY := Message([], [], [], [], [], [], [], [], [], [], [], [], [], 0, false)

  // ----- projections of a field list -----

  function Last<T>(s: seq<T>): Option<T> {
    if s == [] then None else Some(s[|s| - 1])
  }

  function DataOf(f: Field, num: nat): seq<Bytes> {
    if f.num == num && f.payload.Data? then [f.payload.data] else []
  }

  function NumsOf(f: Field, num: nat): seq<nat> {
    if f.num == num && f.payload.Num? then [f.payload.v] else []
  }

  /** The length-delimited values of field `num`, in order. */
  function AllData(fs: seq<Field>, num: nat): seq<Bytes> {
    if fs == [] then [] else AllData(fs[..|fs| - 1], num) + DataOf(fs[|fs| - 1], num)
  }

  /** The varint values of field `num`, in order. */
  function AllNums(fs: seq<Field>, num: nat): seq<nat> {
    if fs == [] then [] else AllNums(fs[..|fs| - 1], num) + NumsOf(fs[|fs| - 1], num)
  }

  /** What a walk shows its visitor: a varint, or bytes with a zero varint. */
  datatype Visit = Visit(num: nat, v: nat, sub: Option<Bytes>)

  function VisitOf(f: Field): seq<Visit> {
    match f.payload
    case Num(v) => [Visit(f.num, v, None)]
    case Data(d) => [Visit(f.num, 0, Some(d))]
    case Raw(_) => []
  }

  function Visits(fs: seq<Field>): seq<Visit> {
    if fs == [] then [] else Visits(fs[..|fs| - 1]) + VisitOf(fs[|fs| - 1])
  }

  lemma DataSnoc(fs: seq<Field>, f: Field, num: nat)
    ensures AllData(fs + [f], num) == AllData(fs, num) + DataOf(f, num)
  {
    assert (fs + [f])[..|fs|] == fs;
  }

  lemma NumsSnoc(fs: seq<Field>, f: Field, num: nat)
    ensures AllNums(fs + [f], num) == AllNums(fs, num) + NumsOf(f, num)
  {
    assert (fs + [f])[..|fs|] == fs;
  }

  lemma VisitsSnoc(fs: seq<Field>, f: Field)
    ensures Visits(fs + [f]) == Visits(fs) + VisitOf(f)
  {
    assert (fs + [f])[..|fs|] == fs;
  }

  // ----- one step of a walk -----

  /** `done` is read, `b` is left. */
  ghost predicate Walked(frame: Bytes, done: seq<Field>, b: Bytes) {
    Fields(frame) == Fields(b).After(done)
  }

  lemma WalkStart(frame: Bytes)
    ensures Walked(frame, [], frame)
  {
    assert [] + Fields(frame).fields == Fields(frame).fields;
  }

  lemma WalkEnd(frame: Bytes, done: seq<Field>)
    requires Walked(frame, done, [])
    ensures Fields(frame) == Listing(done, None)
  {
    assert done + [] == done;
  }

  lemma WalkStuck(frame: Bytes, done: seq<Field>, b: Bytes)
    requires Walked(frame, done, b) && b != [] && ConsumeField(b).Bad?
    ensures Fields(frame) == Listing(done, Some(ConsumeField(b).code))
  {
    assert done + [] == done;
  }

  lemma WalkOn(frame: Bytes, done: seq<Field>, b: Bytes, f: Field, n: nat)
    requires Walked(frame, done, b) && ConsumeField(b) == Good(f, n)
    ensures Walked(frame, done + [f], b[n..])
  {
    FieldsStep(b, f, n, b[n..]);
    AfterTwice(Fields(b[n..]), done, [f]);
  }

  /**
    One field off the front: its tag, and then its value by wire type.  All the
    decoders' loops start with this.
   */
  method NextField(b: Bytes) returns (r: Parsed<Field>)
    ensures r == ConsumeField(b)
  {
    var tag := ConsumeTag(b);
    if tag.Bad? {
      return Bad(tag.code);
    }
    var num, typ, rest := tag.value.num, tag.value.typ, b[tag.n..];
    if typ == BytesType {
      var d := ConsumeBytes(rest);
      return if d.Bad? then Bad(d.code) else Good(Field(num, Data(d.value)), tag.n + d.n);
    }
    if typ == VarintType {
      var v := ConsumeVarint(rest);
      return if v.Bad? then Bad(v.code) else Good(Field(num, Num(v.value)), tag.n + v.n);
    }
    var skipped := ConsumeValue(num, typ, rest, RECURSION_LIMIT);
    return if skipped.Bad? then Bad(skipped.code) else Good(Field(num, skipped.value), tag.n + skipped.n);
  }

  // ----- walks -----

  /** Every varint and every length-delimited field of the longest well-formed prefix. */
  method WalkVarints(frame: Bytes) returns (visits: seq<Visit>)
    ensures visits == Visits(Fields(frame).fields)
  {
    var b := frame;
    visits := [];
    ghost var done: seq<Field> := [];
    WalkStart(frame);
    while b != []
      invariant Walked(frame, done, b) && visits == Visits(done)
      decreases |b|
    {
      var r := NextField(b);
      if r.Bad? {
        WalkStuck(frame, done, b);
        return;
      }
      WalkOn(frame, done, b, r.value, r.n);
      VisitsSnoc(done, r.value);
      match r.value.payload {
        case Num(v) => visits := visits + [Visit(r.value.num, v, None)];
        case Data(d) => visits := visits + [Visit(r.value.num, 0, Some(d))];
        case Raw(_) =>
      }
      done := done + [r.value];
      b := b[r.n..];
    }
    WalkEnd(frame, done);
  }

  /** Every length-delimited value of field `want` in the longest well-formed prefix. */
  method WalkWire(frame: Bytes, want: nat) returns (items: seq<Bytes>)
    ensures items == AllData(Fields(frame).fields, want)
  {
    var b := frame;
    items := [];
    ghost var done: seq<Field> := [];
    WalkStart(frame);
    while b != []
      invariant Walked(frame, done, b) && items == AllData(done, want)
      decreases |b|
    {
      var r := NextField(b);
      if r.Bad? {
        WalkStuck(frame, done, b);
        return;
      }
      WalkOn(frame, done, b, r.value, r.n);
      DataSnoc(done, r.value, want);
      if r.value.num == want && r.value.payload.Data? {
        items := items + [r.value.payload.data];
      }
      done := done + [r.value];
      b := b[r.n..];
    }
    WalkEnd(frame, done);
  }

  // ----- nested lists -----

  /** The last visit to field `num`, of either wire type. */
  function LastVisit(visits: seq<Visit>, num: nat): Option<Visit> {
    if visits == [] then None
    else if visits[|visits| - 1].num == num then Some(visits[|visits| - 1])
    else LastVisit(visits[..|visits| - 1], num)
  }

  function IdText(v: Option<Visit>): Bytes {
    if v.Some? then FormatUint(v.value.v) else []
  }

  function Text(v: Option<Visit>): Bytes {
    if v.Some? then v.value.sub.GetOr([]) else []
  }

  function Int(v: Option<Visit>): int {
    if v.Some? then Int32(v.value.v) else 0
  }

  function MentionOf(vs: seq<Visit>): Mention {
    Mention(IdText(LastVisit(vs, 2)), Int(LastVisit(vs, 7)), Int(LastVisit(vs, 8)))
  }

  function AttachmentOf(vs: seq<Visit>): Attachment {
    Attachment(Text(LastVisit(vs, 1)), Text(LastVisit(vs, 3)), Text(LastVisit(vs, 4)), Int(LastVisit(vs, 2)))
  }

  function ReferenceOf(vs: seq<Visit>): Reference {
    Reference(IdText(LastVisit(vs, 1)), IdText(LastVisit(vs, 6)), Text(LastVisit(vs, 3)))
  }

  /** What item `item` of a list holds. */
  function ItemVisits(item: Bytes): seq<Visit> {
    Visits(Fields(item).fields)
  }

  function MentionList(items: seq<Bytes>): seq<Mention> {
    if items == [] then []
    else MentionList(items[..|items| - 1]) + [MentionOf(ItemVisits(items[|items| - 1]))]
  }

  function AttachmentList(items: seq<Bytes>): seq<Attachment> {
    if items == [] then []
    else AttachmentList(items[..|items| - 1]) + [AttachmentOf(ItemVisits(items[|items| - 1]))]
  }

  function ReferenceList(items: seq<Bytes>): seq<Reference> {
    if items == [] then []
    else ReferenceList(items[..|items| - 1]) + [ReferenceOf(ItemVisits(items[|items| - 1]))]
  }

  /** The items of a list message: its length-delimited fields 1. */
  function Items(list: Bytes): seq<Bytes> {
    AllData(Fields(list).fields, 1)
  }

  lemma LastVisitSnoc(vs: seq<Visit>, v: Visit, num: nat)
    ensures LastVisit(vs + [v], num) == if v.num == num then Some(v) else LastVisit(vs, num)
  {
    assert (vs + [v])[..|vs|] == vs;
  }

  /** One more visit. */
  function MentionWith(m: Mention, v: Visit): Mention {
    match v.num
    case 2 => m.(userId := FormatUint(v.v))
    case 7 => m.(s := Int32(v.v))
    case 8 => m.(e := Int32(v.v))
    case _ => m
  }

  lemma MentionSnoc(vs: seq<Visit>, v: Visit)
    ensures MentionOf(vs + [v]) == MentionWith(MentionOf(vs), v)
  {
    var was, now := MentionOf(vs), MentionOf(vs + [v]);
    assert now == MentionWith(was, v) by {
      LastVisitSnoc(vs, v, 2);
      LastVisitSnoc(vs, v, 7);
      LastVisitSnoc(vs, v, 8);
    }
  }

  method ReadMention(item: Bytes) returns (m: Mention)
    ensures m == MentionOf(ItemVisits(item))
  {
    var visits := WalkVarints(item);
    m := Mention([], 0, 0);
    for i := 0 to |visits|
      invariant m == MentionOf(visits[..i])
    {
      TakeNext(visits, i);
      MentionSnoc(visits[..i], visits[i]);
      m := MentionWith(m, visits[i]);
    }
    assert visits[..|visits|] == visits;
  }

  /** One more visit. */
  function AttachmentWith(a: Attachment, v: Visit): Attachment {
    match v.num
    case 1 => a.(filename := v.sub.GetOr([]))
    case 2 => a.(size := Int32(v.v))
    case 3 => a.(url := v.sub.GetOr([]))
    case 4 => a.(filetype := v.sub.GetOr([]))
    case _ => a
  }

  lemma AttachmentSnoc(vs: seq<Visit>, v: Visit)
    ensures AttachmentOf(vs + [v]) == AttachmentWith(AttachmentOf(vs), v)
  {
    var was, now := AttachmentOf(vs), AttachmentOf(vs + [v]);
    assert now == AttachmentWith(was, v) by {
      LastVisitSnoc(vs, v, 1);
      LastVisitSnoc(vs, v, 2);
      LastVisitSnoc(vs, v, 3);
      LastVisitSnoc(vs, v, 4);
    }
  }

  method ReadAttachment(item: Bytes) returns (a: Attachment)
    ensures a == AttachmentOf(ItemVisits(item))
  {
    var visits := WalkVarints(item);
    a := Attachment([], [], [], 0);
    for i := 0 to |visits|
      invariant a == AttachmentOf(visits[..i])
    {
      TakeNext(visits, i);
      AttachmentSnoc(visits[..i], visits[i]);
      a := AttachmentWith(a, visits[i]);
    }
    assert visits[..|visits|] == visits;
  }

  /** One more visit. */
  function ReferenceWith(r: Reference, v: Visit): Reference {
    match v.num
    case 1 => r.(messageId := FormatUint(v.v))
    case 3 => r.(content := v.sub.GetOr([]))
    case 6 => r.(senderId := FormatUint(v.v))
    case _ => r
  }

  lemma ReferenceSnoc(vs: seq<Visit>, v: Visit)
    ensures ReferenceOf(vs + [v]) == ReferenceWith(ReferenceOf(vs), v)
  {
    var was, now := ReferenceOf(vs), ReferenceOf(vs + [v]);
    assert now == ReferenceWith(was, v) by {
      LastVisitSnoc(vs, v, 1);
      LastVisitSnoc(vs, v, 3);
      LastVisitSnoc(vs, v, 6);
    }
  }

  method ReadReference(item: Bytes) returns (r: Reference)
    ensures r == ReferenceOf(ItemVisits(item))
  {
    var visits := WalkVarints(item);
    r := Reference([], [], []);
    for i := 0 to |visits|
      invariant r == ReferenceOf(visits[..i])
    {
      TakeNext(visits, i);
      ReferenceSnoc(visits[..i], visits[i]);
      r := ReferenceWith(r, visits[i]);
    }
    assert visits[..|visits|] == visits;
  }

  lemma MentionListNext(items: seq<Bytes>, i: nat)
    requires i < |items|
    ensures MentionList(items[..i + 1]) == MentionList(items[..i]) + [MentionOf(ItemVisits(items[i]))]
  {
    assert items[..i + 1][..i] == items[..i];
  }

  method ReadMentions(list: Bytes) returns (out: seq<Mention>)
    ensures out == MentionList(Items(list))
  {
    var items := WalkWire(list, 1);
    out := [];
    for i := 0 to |items|
      invariant out == MentionList(items[..i])
    {
      MentionListNext(items, i);
      var m := ReadMention(items[i]);
      out := out + [m];
    }
    assert items[..|items|] == items;
  }

  lemma AttachmentListNext(items: seq<Bytes>, i: nat)
    requires i < |items|
    ensures AttachmentList(items[..i + 1]) == AttachmentList(items[..i]) + [AttachmentOf(ItemVisits(items[i]))]
  {
    assert items[..i + 1][..i] == items[..i];
  }

  method ReadAttachments(list: Bytes) returns (out: seq<Attachment>)
    ensures out == AttachmentList(Items(list))
  {
    var items := WalkWire(list, 1);
    out := [];
    for i := 0 to |items|
      invariant out == AttachmentList(items[..i])
    {
      AttachmentListNext(items, i);
      var a := ReadAttachment(items[i]);
      out := out + [a];
    }
    assert items[..|items|] == items;
  }

  lemma ReferenceListNext(items: seq<Bytes>, i: nat)
    requires i < |items|
    ensures ReferenceList(items[..i + 1]) == ReferenceList(items[..i]) + [ReferenceOf(ItemVisits(items[i]))]
  {
    assert items[..i + 1][..i] == items[..i];
  }

  method ReadReferences(list: Bytes) returns (out: seq<Reference>)
    ensures out == ReferenceList(Items(list))
  {
    var items := WalkWire(list, 1);
    out := [];
    for i := 0 to |items|
      invariant out == ReferenceList(items[..i])
    {
      ReferenceListNext(items, i);
      var r := ReadReference(items[i]);
      out := out + [r];
    }
    assert items[..|items|] == items;
  }

  // ----- channel messages -----

  function LastNum(fs: seq<Field>, num: nat): Option<nat> {
    Last(AllNums(fs, num))
  }

  function LastId(fs: seq<Field>, num: nat): Bytes {
    if LastNum(fs, num).Some? then FormatUint(LastNum(fs, num).value) else []
  }

  function LastText(fs: seq<Field>, num: nat): Bytes {
    Last(AllData(fs, num)).GetOr([])
  }

  /** The message a field list stands for: for each attribute, the last field that carries it. */
  function Project(fs: seq<Field>): Message {
    Message(
      LastId(fs, 1), LastId(fs, 2), LastId(fs, 3), LastId(fs, 5),
      LastText(fs, 6), LastText(fs, 7), LastText(fs, 8), LastText(fs, 9), LastText(fs, 12), LastText(fs, 13),
      MentionList(Items(LastText(fs, 16))), AttachmentList(Items(LastText(fs, 17))),
      ReferenceList(Items(LastText(fs, 18))),
      Int32(LastNum(fs, 22).GetOr(0)), LastNum(fs, 24).GetOr(0) != 0)
  }

  /** One more field, over everything before it. */
  function Update(msg: Message, f: Field): Message {
    match f.payload
    case Num(v) =>
      (match f.num
       case 1 => msg.(clanId := FormatUint(v))
       case 2 => msg.(channelId := FormatUint(v))
       case 3 => msg.(messageId := FormatUint(v))
       case 5 => msg.(senderId := FormatUint(v))
       case 22 => msg.(mode := Int32(v))
       case 24 => msg.(isPublic := v != 0)
       case _ => msg)
    case Data(d) =>
      (match f.num
       case 6 => msg.(username := d)
       case 7 => msg.(avatar := d)
       case 8 => msg.(content := d)
       case 9 => msg.(channelLabel := d)
       case 12 => msg.(displayName := d)
       case 13 => msg.(clanNick := d)
       case 16 => msg.(mentions := MentionList(Items(d)))
       case 17 => msg.(attachments := AttachmentList(Items(d)))
       case 18 => msg.(references := ReferenceList(Items(d)))
       case _ => msg)
    case Raw(_) => msg
  }

  lemma LastNumSnoc(fs: seq<Field>, f: Field, num: nat)
    ensures LastNum(fs + [f], num) == if f.num == num && f.payload.Num? then Some(f.payload.v) else LastNum(fs, num)
  {
    NumsSnoc(fs, f, num);
    assert AllNums(fs, num) + [] == AllNums(fs, num);
  }

  lemma LastTextSnoc(fs: seq<Field>, f: Field, num: nat)
    ensures LastText(fs + [f], num) == if f.num == num && f.payload.Data? then f.payload.data else LastText(fs, num)
  {
    DataSnoc(fs, f, num);
    assert AllData(fs, num) + [] == AllData(fs, num);
  }

  lemma IdSnoc(fs: seq<Field>, f: Field, num: nat)
    ensures LastId(fs + [f], num) == if f.num == num && f.payload.Num? then FormatUint(f.payload.v) else LastId(fs, num)
  {
    LastNumSnoc(fs, f, num);
  }

  lemma ProjectSnoc(fs: seq<Field>, f: Field)
    ensures Project(fs + [f]) == Update(Project(fs), f)
  {
    var was, now := Project(fs), Project(fs + [f]);
    assert now == Update(was, f) by {
      IdSnoc(fs, f, 1);
      IdSnoc(fs, f, 2);
      IdSnoc(fs, f, 3);
      IdSnoc(fs, f, 5);
      LastNumSnoc(fs, f, 22);
      LastNumSnoc(fs, f, 24);
      LastTextSnoc(fs, f, 6);
      LastTextSnoc(fs, f, 7);
      LastTextSnoc(fs, f, 8);
      LastTextSnoc(fs, f, 9);
      LastTextSnoc(fs, f, 12);
      LastTextSnoc(fs, f, 13);
      LastTextSnoc(fs, f, 16);
      LastTextSnoc(fs, f, 17);
      LastTextSnoc(fs, f, 18);
    }
  }

  datatype Result<T> = Ok(value: T) | Err(code: Code)

  /** The message that a whole ChannelMessage stands for, or what is wrong with it. */
  function MessageOf(b: Bytes): Result<Message> {
    var l := Fields(b);
    if l.Ok() then Ok(Project(l.fields)) else Err(l.end.value)
  }

  lemma MessageRead(b: Bytes, fs: seq<Field>)
    requires Fields(b) == Listing(fs, None)
    ensures MessageOf(b) == Ok(Project(fs))
  {}

  lemma MessageStuck(b: Bytes, fs: seq<Field>, code: Code)
    requires Fields(b) == Listing(fs, Some(code))
    ensures MessageOf(b) == Err(code)
  {}

  /** Read the fields that are needed, skip the rest, and fail where a full parse fails. */
  method DecodeFields(b: Bytes) returns (r: Result<Message>)
    ensures r == MessageOf(b)
  {
    var left, msg := b, EMPTY;
    ghost var done: seq<Field> := [];
    WalkStart(b);
    while left != []
      invariant Walked(b, done, left) && msg == Project(done)
      decreases |left|
    {
      var field := NextField(left);
      if field.Bad? {
        WalkStuck(b, done, left);
        MessageStuck(b, done, field.code);
        return Err(field.code);
      }
      WalkOn(b, done, left, field.value, field.n);
      msg := ApplyNext(msg, field.value, done);
      done := done + [field.value];
      left := left[field.n..];
    }
    WalkEnd(b, done);
    MessageRead(b, done);
    return Ok(msg);
  }

  /** What the loop above does with one more field, on top of those read so far. */
  method ApplyNext(msg: Message, f: Field, ghost done: seq<Field>) returns (r: Message)
    requires msg == Project(done)
    ensures r == Project(done + [f])
  {
    ProjectSnoc(done, f);
    r := ApplyField(msg, f);
  }

  /** Its two switches. */
  method ApplyField(msg: Message, f: Field) returns (r: Message)
    ensures r == Update(msg, f)
  {
    r := msg;
    match f.payload {
      case Data(v) =>
        match f.num {
          case 6 => r := r.(username := v);
          case 7 => r := r.(avatar := v);
          case 8 => r := r.(content := v);
          case 9 => r := r.(channelLabel := v);
          case 12 => r := r.(displayName := v);
          case 13 => r := r.(clanNick := v);
          case 16 =>
            var mentions := ReadMentions(v);
            r := r.(mentions := mentions);
          case 17 =>
            var attachments := ReadAttachments(v);
            r := r.(attachments := attachments);
          case 18 =>
            var references := ReadReferences(v);
            r := r.(references := references);
          case _ =>
        }
      case Num(v) =>
        match f.num {
          case 1 => r := r.(clanId := FormatUint(v));
          case 2 => r := r.(channelId := FormatUint(v));
          case 3 => r := r.(messageId := FormatUint(v));
          case 5 => r := r.(senderId := FormatUint(v));
          case 22 => r := r.(mode := Int32(v));
          case 24 => r := r.(isPublic := v != 0);
          case _ =>
        }
      case Raw(_) =>
    }
  }

  // ----- frames -----

  const CHANNEL_MESSAGE: nat := 6

  /** What a frame turns out to be: a channel message, something else, or malformed. */
  datatype Frame = Found(msg: Message) | Other | Malformed(code: Code)

  /** The first length-delimited field `num`. */
  function FirstData(fs: seq<Field>, num: nat): Option<Bytes> {
    if fs == [] then None
    else if fs[0].num == num && fs[0].payload.Data? then Some(fs[0].payload.data)
    else FirstData(fs[1..], num)
  }

  function FrameOfMessage(sub: Bytes): Frame {
    match MessageOf(sub)
    case Ok(msg) => Found(msg)
    case Err(code) => Malformed(code)
  }

  /**
    A frame by its full field list: the first channel message decides, and when
    there is none the frame must parse to its end.
   */
  function FrameOf(l: Listing): Frame {
    match FirstData(l.fields, CHANNEL_MESSAGE)
    case Some(sub) => FrameOfMessage(sub)
    case None => if l.Ok() then Other else Malformed(l.end.value)
  }

  lemma FrameAfter(l: Listing, f: Field)
    ensures FrameOf(l.After([f])) ==
            if f.num == CHANNEL_MESSAGE && f.payload.Data? then FrameOfMessage(f.payload.data) else FrameOf(l)
  {
    assert ([f] + l.fields)[1..] == l.fields;
  }

  /** Decode the first channel message of a frame; skip every other field without decoding it. */
  method DecodeChannelMessage(frame: Bytes) returns (r: Frame)
    ensures r == FrameOf(Fields(frame))
  {
    var b := frame;
    while b != []
      invariant FrameOf(Fields(frame)) == FrameOf(Fields(b))
      decreases |b|
    {
      var field := NextField(b);
      if field.Bad? {
        return Malformed(field.code);
      }
      FieldsStep(b, field.value, field.n, b[field.n..]);
      FrameAfter(Fields(b[field.n..]), field.value);
      if field.value.num == CHANNEL_MESSAGE && field.value.payload.Data? {
        var msg := DecodeFields(field.value.payload.data);
        if msg.Err? {
          return Malformed(msg.code);
        }
        return Found(msg.value);
      }
      b := b[field.n..];
    }
    return Other;
  }
}
