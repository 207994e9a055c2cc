/**
  What comes out at the other end: a server that parses a send envelope reads
  back every argument, and no envelope built here looks like a message or a reply.
  A server is modelled as a fold over the fields of the message: the last scalar
  of a number wins, items are collected in order, and everything that is left out
  reads as zero or empty.
 */
module EnvelopeTheorems {
  import opened Sequences
  import opened Wrappers
  import opened Protowire
  import opened Decimal
  import opened Decode
  import opened DecodeTheorems
  import opened Acks
  import opened Envelopes

  // ----- reading a written message back -----

  /** A field whose number and varint are in range; its length is bounded by the whole. */
  predicate Plain(f: Field) {
    1 <= f.num <= MAX_FIELD_NUMBER && !f.payload.Raw? && (f.payload.Num? ==> f.payload.v < U64)
  }

  lemma {:induction false} WriteCovers(fs: seq<Field>, f: Field)
    requires f in fs && f.payload.Data?
    ensures |f.payload.data| <= |Write(fs)|
    decreases |fs|
  {
    if f != fs[0] {
      WriteCovers(fs[1..], f);
    }
  }

  /** Fields in range that were written into a message of 64-bit length are read back. */
  lemma ReadBack(fs: seq<Field>)
    requires (forall f <- fs :: Plain(f)) && |Write(fs)| < U64
    ensures Fields(Write(fs)) == Listing(fs, None)
  {
    forall f <- fs ensures Writable(f) {
      if f.payload.Data? {
        WriteCovers(fs, f);
      }
    }
    WriteInverts(fs);
  }

  lemma EnvelopeReads(num: nat, fields: seq<Field>)
    requires 1 <= num <= MAX_FIELD_NUMBER && (forall f <- fields :: Plain(f)) && |Envelope(num, fields)| < U64
    ensures Fields(Envelope(num, fields)) == Listing([Field(num, Data(Write(fields)))], None)
    ensures Fields(Write(fields)) == Listing(fields, None)
  {
    var fs := [Field(num, Data(Write(fields)))];
    WriteCovers(fs, fs[0]);
    ReadBack(fs);
    ReadBack(fields);
  }

  /** The fields of message `num` in an envelope that carries nothing else. */
  function MessageIn(env: Bytes, num: nat): Option<seq<Field>> {
    var l := Fields(env);
    if l.Ok() && |l.fields| == 1 && l.fields[0].num == num && l.fields[0].payload.Data?
       && Fields(l.fields[0].payload.data).Ok()
    then Some(Fields(l.fields[0].payload.data).fields)
    else None
  }

  // ----- what a server makes of a send envelope -----

  datatype SentMention = SentMention(user: nat, s: int, e: int)

  datatype SentRef = SentRef(messageId: nat, content: Bytes, senderId: nat, username: Bytes, avatar: Bytes)

  datatype Sent = Sent(
    clan: nat, channel: nat, content: Bytes, mentions: seq<SentMention>, refs: seq<SentRef>,
    mode: int, everyone: bool, public: bool)

  /** Field by field, from proto3 defaults: a later scalar overrides, a repeated message is appended. */
  function MentionFrom(fs: seq<Field>): SentMention {
    if fs == [] then SentMention(0, 0, 0) else MergeMention(MentionFrom(fs[..|fs| - 1]), fs[|fs| - 1])
  }

  function MergeMention(m: SentMention, f: Field): SentMention {
    if !f.payload.Num? then m
    else match f.num
         case 2 => m.(user := f.payload.v)
         case 7 => m.(s := Int32(f.payload.v))
         case 8 => m.(e := Int32(f.payload.v))
         case _ => m
  }

  function RefFrom(fs: seq<Field>): SentRef {
    if fs == [] then SentRef(0, [], 0, [], []) else MergeRef(RefFrom(fs[..|fs| - 1]), fs[|fs| - 1])
  }

  function MergeRef(r: SentRef, f: Field): SentRef {
    match f.payload
    case Num(v) => if f.num == 2 then r.(messageId := v) else if f.num == 6 then r.(senderId := v) else r
    case Data(d) =>
      (match f.num
       case 3 => r.(content := d)
       case 7 => r.(username := d)
       case 8 => r.(avatar := d)
       case _ => r)
    case Raw(_) => r
  }

  function SentFrom(fs: seq<Field>): Sent {
    if fs == [] then Sent(0, 0, [], [], [], 0, false, false) else MergeSent(SentFrom(fs[..|fs| - 1]), fs[|fs| - 1])
  }

  function MergeSent(s: Sent, f: Field): Sent {
    match f.payload
    case Num(v) =>
      (match f.num
       case 1 => s.(clan := v)
       case 2 => s.(channel := v)
       case 7 => s.(mode := Int32(v))
       case 9 => s.(everyone := v != 0)
       case 11 => s.(public := v != 0)
       case _ => s)
    case Data(d) =>
      (match f.num
       case 3 => s.(content := d)
       case 4 => s.(mentions := s.mentions + [MentionFrom(Fields(d).fields)])
       case 6 => s.(refs := s.refs + [RefFrom(Fields(d).fields)])
       case _ => s)
    case Raw(_) => s
  }

  /** The one send message of an envelope that carries nothing else. */
  function SentOf(env: Bytes): Option<Sent> {
    match MessageIn(env, 8)
    case None => None
    case Some(fs) => Some(SentFrom(fs))
  }

  lemma SentSnoc(fs: seq<Field>, f: Field)
    ensures SentFrom(fs + [f]) == MergeSent(SentFrom(fs), f)
  {
    assert (fs + [f])[..|fs|] == fs;
  }

  /** A scalar that is left out when zero, or empty. */
  lemma SentAdd(fs: seq<Field>, part: seq<Field>)
    requires |part| <= 1
    ensures SentFrom(fs + part) == if part == [] then SentFrom(fs) else MergeSent(SentFrom(fs), part[0])
  {
    if part == [] {
      assert fs + part == fs;
    } else {
      assert part == [part[0]];
      SentSnoc(fs, part[0]);
    }
  }

  lemma MentionAdd(fs: seq<Field>, num: nat, v: nat)
    ensures MentionFrom(fs + VarintField(num, v)) ==
            if v == 0 then MentionFrom(fs) else MergeMention(MentionFrom(fs), Field(num, Num(v)))
  {
    if v == 0 {
      assert fs + [] == fs;
    } else {
      assert (fs + [Field(num, Num(v))])[..|fs|] == fs;
    }
  }

  lemma RefAdd(fs: seq<Field>, part: seq<Field>)
    requires |part| <= 1
    ensures RefFrom(fs + part) == if part == [] then RefFrom(fs) else MergeRef(RefFrom(fs), part[0])
  {
    if part == [] {
      assert fs + part == fs;
    } else {
      assert (fs + part)[..|fs|] == fs;
    }
  }

  // ----- mentions and references -----

  lemma MentionPlain(m: MentionArg)
    ensures forall f <- MentionFields(m) :: Plain(f)
  {}

  lemma MentionReadBack(m: MentionArg)
    requires IsInt32(m.s) && IsInt32(m.e) && |Write(MentionFields(m))| < U64
    ensures MentionFrom(Fields(Write(MentionFields(m))).fields) == SentMention(Id(m.userId), m.s, m.e)
  {
    MentionPlain(m);
    ReadBack(MentionFields(m));
    var a := VarintField(2, Id(m.userId));
    assert [] + a == a;
    MentionAdd([], 2, Id(m.userId));
    MentionAdd(a, 7, Uint32(m.s));
    MentionAdd(a + VarintField(7, Uint32(m.s)), 8, Uint32(m.e));
    Int32Inverts(m.s);
    Int32Inverts(m.e);
  }

  lemma RefPlain(r: RefArg)
    ensures forall f <- RefFields(r) :: Plain(f)
  {}

  lemma RefMeans(id: nat, content: Bytes, sender: nat, username: Bytes, avatar: Bytes)
    ensures RefFrom(VarintField(2, id) + StringField(3, content) + VarintField(6, sender)
                    + StringField(7, username) + StringField(8, avatar))
         == SentRef(id, content, sender, username, avatar)
  {
    var a := VarintField(2, id);
    var b := a + StringField(3, content);
    var c := b + VarintField(6, sender);
    var d := c + StringField(7, username);
    assert RefFrom(a) == SentRef(id, [], 0, [], []) by {
      assert [] + a == a;
      RefAdd([], a);
    }
    assert RefFrom(b) == SentRef(id, content, 0, [], []) by {
      RefAdd(a, StringField(3, content));
    }
    assert RefFrom(c) == SentRef(id, content, sender, [], []) by {
      RefAdd(b, VarintField(6, sender));
    }
    assert RefFrom(d) == SentRef(id, content, sender, username, []) by {
      RefAdd(c, StringField(7, username));
    }
    RefAdd(d, StringField(8, avatar));
  }

  lemma RefReadBack(r: RefArg)
    requires |Write(RefFields(r))| < U64
    ensures RefFrom(Fields(Write(RefFields(r))).fields)
         == SentRef(Id(r.refMessageId), r.content, Id(r.senderId), r.senderUsername, r.senderAvatar)
  {
    assert Fields(Write(RefFields(r))).fields == RefFields(r) by {
      RefPlain(r);
      ReadBack(RefFields(r));
    }
    RefMeans(Id(r.refMessageId), r.content, Id(r.senderId), r.senderUsername, r.senderAvatar);
  }

  /** The mentions a server reads are the ones passed in, in order. */
  ghost predicate SameMentions(sent: seq<SentMention>, ms: seq<MentionArg>) {
    |sent| == |ms| && forall i :: 0 <= i < |ms| ==> sent[i] == SentMention(Id(ms[i].userId), ms[i].s, ms[i].e)
  }

  /** The references a server reads are the one passed in, or none. */
  ghost predicate SameRef(sent: seq<SentRef>, ref: Option<RefArg>) {
    match ref
    case None => sent == []
    case Some(r) => sent == [SentRef(Id(r.refMessageId), r.content, Id(r.senderId), r.senderUsername, r.senderAvatar)]
  }

  /** Arguments that Go's types allow. */
  ghost predicate Typed(ms: seq<MentionArg>) {
    forall m <- ms :: IsInt32(m.s) && IsInt32(m.e)
  }

  lemma {:induction false} MentionsPlain(ms: seq<MentionArg>)
    ensures forall f <- MentionItems(ms) :: Plain(f)
    decreases |ms|
  {
    if ms != [] {
      MentionsPlain(ms[..|ms| - 1]);
    }
  }

  // ----- the whole message -----

  function Expected(m: MentionArg): SentMention {
    SentMention(Id(m.userId), m.s, m.e)
  }

  /** Field `f` is a mention that reads as `m`. */
  ghost predicate ReadsAs(f: Field, m: SentMention) {
    f.num == 4 && f.payload.Data? && MentionFrom(Fields(f.payload.data).fields) == m
  }

  lemma ItemReads(m: MentionArg)
    requires IsInt32(m.s) && IsInt32(m.e) && |Write(MentionFields(m))| < U64
    ensures ReadsAs(MentionItem(m), Expected(m))
  {
    MentionReadBack(m);
  }

  lemma SentAddItem(fs: seq<Field>, f: Field, m: SentMention)
    requires ReadsAs(f, m)
    ensures SentFrom(fs + [f]) == SentFrom(fs).(mentions := SentFrom(fs).mentions + [m])
  {
    SentSnoc(fs, f);
  }

  /** The fields `items` are mentions that read as `sent`, one by one. */
  ghost predicate ReadAs(items: seq<Field>, sent: seq<SentMention>) {
    && |items| == |sent|
    && (items != [] ==>
          ReadsAs(items[|items| - 1], sent[|sent| - 1]) && ReadAs(items[..|items| - 1], sent[..|sent| - 1]))
  }

  lemma {:induction false} SentAddItems(fs: seq<Field>, items: seq<Field>, sent: seq<SentMention>)
    requires SentFrom(fs).mentions == [] && ReadAs(items, sent)
    ensures SentFrom(fs + items) == SentFrom(fs).(mentions := sent)
    decreases |items|
  {
    if items == [] {
      assert fs + [] == fs;
    } else {
      var last := |items| - 1;
      SentAddItems(fs, items[..last], sent[..last]);
      SentAddItem(fs + items[..last], items[last], sent[last]);
      AppendNext(fs, items, last);
      TakeNext(sent, last);
      assert items[..last + 1] == items && sent[..last + 1] == sent;
    }
  }

  function ExpectedAll(ms: seq<MentionArg>): (r: seq<SentMention>)
    ensures |r| == |ms| && forall i :: 0 <= i < |ms| ==> r[i] == Expected(ms[i])
  {
    if ms == [] then [] else ExpectedAll(ms[..|ms| - 1]) + [Expected(ms[|ms| - 1])]
  }

  lemma {:induction false} ItemsRead(ms: seq<MentionArg>)
    requires Typed(ms) && forall m <- ms :: |Write(MentionFields(m))| < U64
    ensures ReadAs(MentionItems(ms), ExpectedAll(ms))
    decreases |ms|
  {
    if ms != [] {
      var front, m := ms[..|ms| - 1], ms[|ms| - 1];
      assert m in ms && forall x <- front :: x in ms;
      ItemsRead(front);
      ItemReads(m);
      var items, sent := MentionItems(ms), ExpectedAll(ms);
      assert items[..|items| - 1] == MentionItems(front) && sent[..|sent| - 1] == ExpectedAll(front);
    }
  }

  lemma SentAddMentions(fs: seq<Field>, ms: seq<MentionArg>)
    requires Typed(ms) && forall m <- ms :: |Write(MentionFields(m))| < U64
    requires SentFrom(fs).mentions == []
    ensures SentFrom(fs + MentionItems(ms)) == SentFrom(fs).(mentions := ExpectedAll(ms))
  {
    ItemsRead(ms);
    SentAddItems(fs, MentionItems(ms), ExpectedAll(ms));
  }

  lemma SentAddRef(fs: seq<Field>, ref: Option<RefArg>) returns (sent: seq<SentRef>)
    requires ref.Some? ==> |Write(RefFields(ref.value))| < U64
    requires SentFrom(fs).refs == []
    ensures SentFrom(fs + RefField(ref)) == SentFrom(fs).(refs := sent) && SameRef(sent, ref)
  {
    SentAdd(fs, RefField(ref));
    match ref {
      case None =>
        sent := [];
      case Some(r) =>
        sent := [SentRef(Id(r.refMessageId), r.content, Id(r.senderId), r.senderUsername, r.senderAvatar)];
        assert RefFrom(Fields(Write(RefFields(r))).fields) == sent[0] by {
          RefReadBack(r);
        }
    }
  }

  lemma HeadMeans(clan: nat, channel: nat, content: Bytes)
    ensures SentFrom(VarintField(1, clan) + VarintField(2, channel) + StringField(3, content))
         == Sent(clan, channel, content, [], [], 0, false, false)
  {
    var a := VarintField(1, clan);
    var b := a + VarintField(2, channel);
    assert SentFrom(a) == Sent(clan, 0, [], [], [], 0, false, false) by {
      assert [] + a == a;
      SentAdd([], a);
    }
    assert SentFrom(b) == Sent(clan, channel, [], [], [], 0, false, false) by {
      SentAdd(a, VarintField(2, channel));
    }
    SentAdd(b, StringField(3, content));
  }

  lemma AddMode(fs: seq<Field>, mode: int)
    requires IsInt32(mode) && SentFrom(fs).mode == 0
    ensures SentFrom(fs + VarintField(7, Uint32(mode))) == SentFrom(fs).(mode := mode)
  {
    Int32Inverts(mode);
    SentAdd(fs, VarintField(7, Uint32(mode)));
  }

  lemma AddEveryone(fs: seq<Field>, flag: bool)
    requires !SentFrom(fs).everyone
    ensures SentFrom(fs + FlagField(9, flag)) == SentFrom(fs).(everyone := flag)
  {
    SentAdd(fs, FlagField(9, flag));
  }

  lemma AddPublic(fs: seq<Field>, flag: bool)
    requires !SentFrom(fs).public
    ensures SentFrom(fs + FlagField(11, flag)) == SentFrom(fs).(public := flag)
  {
    SentAdd(fs, FlagField(11, flag));
  }

  /** The fields of a send message stand for exactly its arguments; what is left out reads as zero or empty. */
  lemma SendFieldsMean(channelId: Bytes, clanId: Bytes, mode: int, isPublic: bool, content: Bytes, opts: SendOpts)
    requires IsInt32(mode) && Typed(opts.mentions)
    requires forall m <- opts.mentions :: |Write(MentionFields(m))| < U64
    requires opts.ref.Some? ==> |Write(RefFields(opts.ref.value))| < U64
    ensures Means(SentFrom(SendFields(channelId, clanId, mode, isPublic, content, opts)),
                  channelId, clanId, mode, isPublic, content, opts)
  {
    HeadMeans(Id(clanId), Id(channelId), content);
    var c := VarintField(1, Id(clanId)) + VarintField(2, Id(channelId)) + StringField(3, content);
    var d := c + MentionItems(opts.mentions);
    SentAddMentions(c, opts.mentions);
    var refs := SentAddRef(d, opts.ref);
    var e := d + RefField(opts.ref);
    AddMode(e, mode);
    AddEveryone(e + VarintField(7, Uint32(mode)), opts.mentionEveryone);
    AddPublic(e + VarintField(7, Uint32(mode)) + FlagField(9, opts.mentionEveryone), isPublic);
  }

  /** What a server read is what was passed in. */
  ghost predicate Means(s: Sent, channelId: Bytes, clanId: Bytes, mode: int, isPublic: bool, content: Bytes,
                        opts: SendOpts) {
    && s.clan == Id(clanId) && s.channel == Id(channelId) && s.content == content
    && SameMentions(s.mentions, opts.mentions) && SameRef(s.refs, opts.ref)
    && s.mode == mode && s.everyone == opts.mentionEveryone && s.public == isPublic
  }

  lemma SendPlain(channelId: Bytes, clanId: Bytes, mode: int, isPublic: bool, content: Bytes, opts: SendOpts)
    requires IsInt32(mode)
    ensures forall f <- SendFields(channelId, clanId, mode, isPublic, content, opts) :: Plain(f)
  {
    MentionsPlain(opts.mentions);
  }

  lemma PartCovered(fs: seq<Field>, num: nat, f: Field)
    requires f in fs && f.payload.Data? && |Envelope(num, fs)| < U64
    ensures |f.payload.data| < U64
  {
    var outer := Field(num, Data(Write(fs)));
    WriteCovers([outer], outer);
    WriteCovers(fs, f);
  }

  lemma PartsCovered(channelId: Bytes, clanId: Bytes, mode: int, isPublic: bool, content: Bytes, opts: SendOpts)
    requires |Envelope(CHANNEL_MESSAGE_SEND, SendFields(channelId, clanId, mode, isPublic, content, opts))| < U64
    ensures forall m <- opts.mentions :: |Write(MentionFields(m))| < U64
    ensures opts.ref.Some? ==> |Write(RefFields(opts.ref.value))| < U64
  {
    var fs := SendFields(channelId, clanId, mode, isPublic, content, opts);
    forall m <- opts.mentions ensures |Write(MentionFields(m))| < U64 {
      assert MentionItem(m) in fs by {
        var i :| 0 <= i < |opts.mentions| && opts.mentions[i] == m;
        assert MentionItems(opts.mentions)[i] == MentionItem(m);
        assert MentionItem(m) in MentionItems(opts.mentions);
      }
      PartCovered(fs, CHANNEL_MESSAGE_SEND, MentionItem(m));
    }
    if opts.ref.Some? {
      assert RefField(opts.ref)[0] in fs;
      PartCovered(fs, CHANNEL_MESSAGE_SEND, RefField(opts.ref)[0]);
    }
  }

  /**
    The send round trip.  For all arguments, an envelope of a length that Go
    allows parses to one field 8 and nothing else, and that field gives back the
    ids, the content, every mention in order, the reference if there is one, the
    mode, negative ones included, and both flags.
   */
  lemma SendRoundTrip(channelId: Bytes, clanId: Bytes, mode: int, isPublic: bool, content: Bytes, opts: SendOpts)
    requires IsInt32(mode) && Typed(opts.mentions)
    requires |Envelope(CHANNEL_MESSAGE_SEND, SendFields(channelId, clanId, mode, isPublic, content, opts))| < U64 / 2
    ensures var fs := SendFields(channelId, clanId, mode, isPublic, content, opts);
            var sent := SentOf(Envelope(CHANNEL_MESSAGE_SEND, fs));
            sent.Some? && Means(sent.value, channelId, clanId, mode, isPublic, content, opts)
  {
    var fs := SendFields(channelId, clanId, mode, isPublic, content, opts);
    SendPlain(channelId, clanId, mode, isPublic, content, opts);
    EnvelopeReads(CHANNEL_MESSAGE_SEND, fs);
    PartsCovered(channelId, clanId, mode, isPublic, content, opts);
    SendFieldsMean(channelId, clanId, mode, isPublic, content, opts);
  }

  // ----- no envelope is taken for an inbound frame -----

  /** The kinds of envelope that this SDK builds. */
  const BUILT: set<nat> := {CLAN_JOIN, CHANNEL_MESSAGE_SEND, CHANNEL_MESSAGE_UPDATE, PING, TYPING, REACTION}

  /** A frame that parses to its end without a channel message or a reply is neither. */
  lemma RolelessIsNeither(frame: Bytes)
    requires Fields(frame).Ok() && forall f <- Fields(frame).fields :: !IsRole(f)
    ensures FrameOf(Fields(frame)) == Other
    ensures AckOf(frame).None?
  {
    var fs := Fields(frame).fields;
    assert FirstData(fs, CHANNEL_MESSAGE).None? by {
      FirstDataNone(fs, CHANNEL_MESSAGE);
    }
    if AckOf(frame).Some? {
      var _ := ReplyField(frame);
      assert false;
    }
  }

  lemma FieldReads(f: Field)
    requires Plain(f) && f.payload.Data? && |Write([f])| < U64
    ensures Fields(Write([f])) == Listing([f], None)
  {
    WriteCovers([f], f);
    ReadBack([f]);
  }

  lemma RolelessStays(cid: nat, f: Field, env: Bytes)
    requires cid < U64 && !IsRole(f) && Fields(env) == Listing([f], None)
    ensures Fields(WithCid(cid, env)).Ok() && forall g <- Fields(WithCid(cid, env)).fields :: !IsRole(g)
  {
    WithCidFields(cid, env);
  }

  /** With or without a request id, no envelope built here decodes as a channel message or as a reply. */
  lemma BuiltIsNeither(cid: nat, num: nat, fields: seq<Field>)
    requires cid < U64 && num in BUILT && |Envelope(num, fields)| < U64 / 2
    ensures FrameOf(Fields(WithCid(cid, Envelope(num, fields)))) == Other
    ensures AckOf(WithCid(cid, Envelope(num, fields))).None?
  {
    var env, f := Envelope(num, fields), Field(num, Data(Write(fields)));
    FieldReads(f);
    RolelessStays(cid, f, env);
    RolelessIsNeither(WithCid(cid, env));
  }
}
