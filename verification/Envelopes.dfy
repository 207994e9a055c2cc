/**
  The outgoing envelopes, encoded by hand, and the trip through the wire: what a
  server that parses a send envelope gets is what was passed in.
 */
module Envelopes {
  import opened Sequences
  import opened Wrappers
  import opened Protowire
  import opened Decimal
  import opened Decode
  import opened DecodeTheorems
  import opened Acks

  const CLAN_JOIN: nat := 3
  const CHANNEL_MESSAGE_SEND: nat := 8
  const CHANNEL_MESSAGE_UPDATE: nat := 9
  const PING: nat := 22
  const TYPING: nat := 24
  const REACTION: nat := 26

  /** A mention over text[s..e]; both ends are int32. */
  datatype MentionArg = MentionArg(userId: Bytes, s: int, e: int)

  /** The message that is replied to. */
  datatype RefArg = RefArg(refMessageId: Bytes, senderId: Bytes, senderUsername: Bytes, senderAvatar: Bytes,
                           content: Bytes)

  datatype SendOpts = SendOpts(ref: Option<RefArg>, mentions: seq<MentionArg>, mentionEveryone: bool)

  // ----- appending fields -----

  function AppendStringField(b: Bytes, num: nat, v: Bytes): Bytes {
    if v == [] then b else b + TagBytes(num, 2) + (Varint(|v|) + v)
  }

  function AppendMessageField(b: Bytes, num: nat, msg: Bytes): Bytes {
    b + TagBytes(num, 2) + (Varint(|msg|) + msg)
  }

  /** What the three append functions add, as fields: a zero or empty scalar is left out. */
  function StringField(num: nat, v: Bytes): seq<Field> {
    if v == [] then [] else [Field(num, Data(v))]
  }

  function FlagField(num: nat, flag: bool): seq<Field> {
    if flag then [Field(num, Num(1))] else []
  }

  lemma AppendVarintWrites(fs: seq<Field>, num: nat, v: nat)
    ensures AppendVarintField(Write(fs), num, v) == Write(fs + VarintField(num, v))
  {
    if v == 0 {
      assert fs + [] == fs;
    } else {
      WriteSnoc(fs, Field(num, Num(v)));
      Regroup(Write(fs), TagBytes(num, 0), Varint(v));
    }
  }

  lemma AppendMessageWrites(fs: seq<Field>, num: nat, msg: Bytes)
    ensures AppendMessageField(Write(fs), num, msg) == Write(fs + [Field(num, Data(msg))])
  {
    WriteSnoc(fs, Field(num, Data(msg)));
    Regroup(Write(fs), TagBytes(num, 2), Varint(|msg|) + msg);
  }

  lemma AppendStringWrites(fs: seq<Field>, num: nat, v: Bytes)
    ensures AppendStringField(Write(fs), num, v) == Write(fs + StringField(num, v))
  {
    if v == [] {
      assert fs + [] == fs;
    } else {
      AppendMessageWrites(fs, num, v);
    }
  }

  // ----- the fields of a send envelope -----

  function MentionFields(m: MentionArg): seq<Field> {
    VarintField(2, Id(m.userId)) + VarintField(7, Uint32(m.s)) + VarintField(8, Uint32(m.e))
  }

  function MentionItem(m: MentionArg): Field {
    Field(4, Data(Write(MentionFields(m))))
  }

  function MentionItems(ms: seq<MentionArg>): (r: seq<Field>)
    ensures |r| == |ms| && forall i :: 0 <= i < |ms| ==> r[i] == MentionItem(ms[i])
  {
    if ms == [] then [] else MentionItems(ms[..|ms| - 1]) + [MentionItem(ms[|ms| - 1])]
  }

  function RefFields(r: RefArg): seq<Field> {
    VarintField(2, Id(r.refMessageId)) + StringField(3, r.content) + VarintField(6, Id(r.senderId))
    + StringField(7, r.senderUsername) + StringField(8, r.senderAvatar)
  }

  function RefField(ref: Option<RefArg>): seq<Field> {
    if ref.Some? then [Field(6, Data(Write(RefFields(ref.value))))] else []
  }

  function SendFields(channelId: Bytes, clanId: Bytes, mode: int, isPublic: bool, content: Bytes,
                      opts: SendOpts): seq<Field> {
    VarintField(1, Id(clanId)) + VarintField(2, Id(channelId)) + StringField(3, content) + MentionItems(opts.mentions)
    + RefField(opts.ref) + VarintField(7, Uint32(mode)) + FlagField(9, opts.mentionEveryone) + FlagField(11, isPublic)
  }

  /** One message field around a message: what every envelope is. */
  function Envelope(num: nat, fields: seq<Field>): Bytes {
    Write([Field(num, Data(Write(fields)))])
  }

  lemma EnvelopeWrites(num: nat, fields: seq<Field>)
    ensures AppendMessageField([], num, Write(fields)) == Envelope(num, fields)
  {
    AppendMessageWrites([], num, Write(fields));
    assert Write([]) == [] && [] + [Field(num, Data(Write(fields)))] == [Field(num, Data(Write(fields)))];
  }

  /** Build a mention: 2 user_id, 7 s, 8 e. */
  method BuildMention(m: MentionArg) returns (mm: Bytes)
    ensures mm == Write(MentionFields(m))
  {
    ghost var fs: seq<Field> := [];
    mm := [];
    AppendVarintWrites(fs, 2, Id(m.userId));
    mm, fs := AppendVarintField(mm, 2, Id(m.userId)), fs + VarintField(2, Id(m.userId));
    AppendVarintWrites(fs, 7, Uint32(m.s));
    mm, fs := AppendVarintField(mm, 7, Uint32(m.s)), fs + VarintField(7, Uint32(m.s));
    AppendVarintWrites(fs, 8, Uint32(m.e));
    mm, fs := AppendVarintField(mm, 8, Uint32(m.e)), fs + VarintField(8, Uint32(m.e));
    assert fs == MentionFields(m);
  }

  /** Build a reference: 2 message_ref_id, 3 content, 6, 7 and 8 the sender. */
  method BuildRef(r: RefArg) returns (mr: Bytes)
    ensures mr == Write(RefFields(r))
  {
    ghost var fs: seq<Field> := [];
    mr := [];
    AppendVarintWrites(fs, 2, Id(r.refMessageId));
    mr, fs := AppendVarintField(mr, 2, Id(r.refMessageId)), fs + VarintField(2, Id(r.refMessageId));
    AppendStringWrites(fs, 3, r.content);
    mr, fs := AppendStringField(mr, 3, r.content), fs + StringField(3, r.content);
    AppendVarintWrites(fs, 6, Id(r.senderId));
    mr, fs := AppendVarintField(mr, 6, Id(r.senderId)), fs + VarintField(6, Id(r.senderId));
    AppendStringWrites(fs, 7, r.senderUsername);
    mr, fs := AppendStringField(mr, 7, r.senderUsername), fs + StringField(7, r.senderUsername);
    AppendStringWrites(fs, 8, r.senderAvatar);
    mr, fs := AppendStringField(mr, 8, r.senderAvatar), fs + StringField(8, r.senderAvatar);
    assert fs == RefFields(r);
  }

  lemma MentionItemsSnoc(ms: seq<MentionArg>, m: MentionArg)
    ensures MentionItems(ms + [m]) == MentionItems(ms) + [MentionItem(m)]
  {
    TakeNext(ms + [m], |ms|);
    assert (ms + [m])[..|ms|] == ms;
  }

  lemma MentionStep(fs: seq<Field>, ms: seq<MentionArg>, m: MentionArg, mm: Bytes)
    requires mm == Write(MentionFields(m))
    ensures AppendMessageField(Write(fs + MentionItems(ms)), 4, mm) == Write(fs + MentionItems(ms + [m]))
  {
    var items, item := MentionItems(ms), Field(4, Data(mm));
    assert fs + MentionItems(ms + [m]) == fs + items + [item] by {
      MentionItemsSnoc(ms, m);
      Regroup(fs, items, [item]);
    }
    AppendMessageWrites(fs + items, 4, mm);
  }

  method AppendMentions(msg: Bytes, ghost fs: seq<Field>, mentions: seq<MentionArg>) returns (r: Bytes)
    requires msg == Write(fs)
    ensures r == Write(fs + MentionItems(mentions))
  {
    r := msg;
    assert fs + [] == fs;
    for i := 0 to |mentions|
      invariant r == Write(fs + MentionItems(mentions[..i]))
    {
      TakeNext(mentions, i);
      var mm := BuildMention(mentions[i]);
      MentionStep(fs, mentions[..i], mentions[i], mm);
      r := AppendMessageField(r, 4, mm);
    }
    assert mentions[..|mentions|] == mentions;
  }

  /** The send envelope for a content blob that is rendered already. */
  method BuildSendEnvelopeRaw(channelId: Bytes, clanId: Bytes, mode: int, isPublic: bool, content: Bytes,
                              opts: SendOpts)
    returns (env: Bytes)
    requires IsInt32(mode)
    ensures env == Envelope(CHANNEL_MESSAGE_SEND, SendFields(channelId, clanId, mode, isPublic, content, opts))
  {
    ghost var fs: seq<Field> := [];
    var msg: Bytes := [];
    AppendVarintWrites(fs, 1, Id(clanId));
    msg, fs := AppendVarintField(msg, 1, Id(clanId)), fs + VarintField(1, Id(clanId));
    AppendVarintWrites(fs, 2, Id(channelId));
    msg, fs := AppendVarintField(msg, 2, Id(channelId)), fs + VarintField(2, Id(channelId));
    AppendStringWrites(fs, 3, content);
    msg, fs := AppendStringField(msg, 3, content), fs + StringField(3, content);
    msg := AppendMentions(msg, fs, opts.mentions);
    fs := fs + MentionItems(opts.mentions);
    if opts.ref.Some? {
      var mr := BuildRef(opts.ref.value);
      AppendMessageWrites(fs, 6, mr);
      msg := AppendMessageField(msg, 6, mr);
    }
    assert opts.ref.None? ==> fs + [] == fs;
    fs := fs + RefField(opts.ref);
    AppendVarintWrites(fs, 7, Uint32(mode));
    msg, fs := AppendVarintField(msg, 7, Uint32(mode)), fs + VarintField(7, Uint32(mode));
    AppendVarintWrites(fs, 9, 1);
    if opts.mentionEveryone {
      msg := AppendVarintField(msg, 9, 1);
    }
    assert !opts.mentionEveryone ==> fs + [] == fs;
    fs := fs + FlagField(9, opts.mentionEveryone);
    AppendVarintWrites(fs, 11, 1);
    if isPublic {
      msg := AppendVarintField(msg, 11, 1);
    }
    assert !isPublic ==> fs + [] == fs;
    fs := fs + FlagField(11, isPublic);
    assert [] + VarintField(1, Id(clanId)) == VarintField(1, Id(clanId));
    assert fs == SendFields(channelId, clanId, mode, isPublic, content, opts);
    EnvelopeWrites(CHANNEL_MESSAGE_SEND, fs);
    env := AppendMessageField([], CHANNEL_MESSAGE_SEND, msg);
  }

  // ----- the other envelopes -----

  /** Clan, channel, sender and mode, and the names a client shows. */
  function TypingFields(channelId: Bytes, clanId: Bytes, senderId: Bytes, username: Bytes, displayName: Bytes,
                        mode: int, isPublic: bool): seq<Field> {
    VarintField(1, Id(clanId)) + VarintField(2, Id(channelId)) + VarintField(3, Id(senderId))
    + VarintField(4, Uint32(mode)) + FlagField(5, isPublic) + StringField(6, username)
    + StringField(7, if displayName == [] then username else displayName)
  }

  function ReactionFields(clanId: Bytes, channelId: Bytes, messageId: Bytes, emojiId: Bytes, emoji: Bytes,
                          action: bool, mode: int, isPublic: bool): seq<Field> {
    VarintField(2, Id(emojiId)) + StringField(3, emoji) + FlagField(7, action) + VarintField(9, Id(channelId))
    + VarintField(10, Id(messageId)) + VarintField(11, Id(clanId)) + VarintField(12, Uint32(mode))
    + FlagField(14, isPublic)
  }

  /** "sticker" */
  const STICKER: Bytes := [115, 116, 105, 99, 107, 101, 114]

  /** The sticker, as the attachment that it is sent as. */
  function StickerFile(shortcode: Bytes, url: Bytes): seq<Field> {
    StringField(1, shortcode) + StringField(3, url) + StringField(4, STICKER)
  }

  function StickerFields(channelId: Bytes, clanId: Bytes, mode: int, isPublic: bool, shortcode: Bytes,
                         url: Bytes): seq<Field> {
    VarintField(1, Id(clanId)) + VarintField(2, Id(channelId))
    + [Field(5, Data(Write(StickerFile(shortcode, url))))]
    + VarintField(7, Uint32(mode)) + FlagField(11, isPublic)
  }

  function UpdateFields(channelId: Bytes, clanId: Bytes, messageId: Bytes, mode: int, isPublic: bool,
                        content: Bytes): seq<Field> {
    VarintField(1, Id(clanId)) + VarintField(2, Id(channelId)) + VarintField(3, Id(messageId)) + StringField(4, content)
    + VarintField(7, Uint32(mode)) + FlagField(8, isPublic) + FlagField(9, true)
  }

  method BuildClanJoinEnvelope(clanId: Bytes) returns (env: Bytes)
    ensures env == Envelope(CLAN_JOIN, VarintField(1, Id(clanId)))
  {
    AppendVarintWrites([], 1, Id(clanId));
    assert [] + VarintField(1, Id(clanId)) == VarintField(1, Id(clanId));
    var inner := AppendVarintField([], 1, Id(clanId));
    EnvelopeWrites(CLAN_JOIN, VarintField(1, Id(clanId)));
    env := AppendMessageField([], CLAN_JOIN, inner);
  }

  method BuildTypingEnvelope(channelId: Bytes, clanId: Bytes, senderId: Bytes, username: Bytes, displayName: Bytes,
                             mode: int, isPublic: bool)
    returns (env: Bytes)
    requires IsInt32(mode)
    ensures env == Envelope(TYPING, TypingFields(channelId, clanId, senderId, username, displayName, mode, isPublic))
  {
    var shown := if displayName == [] then username else displayName;
    ghost var fs: seq<Field> := [];
    var msg: Bytes := [];
    AppendVarintWrites(fs, 1, Id(clanId));
    msg, fs := AppendVarintField(msg, 1, Id(clanId)), fs + VarintField(1, Id(clanId));
    AppendVarintWrites(fs, 2, Id(channelId));
    msg, fs := AppendVarintField(msg, 2, Id(channelId)), fs + VarintField(2, Id(channelId));
    AppendVarintWrites(fs, 3, Id(senderId));
    msg, fs := AppendVarintField(msg, 3, Id(senderId)), fs + VarintField(3, Id(senderId));
    AppendVarintWrites(fs, 4, Uint32(mode));
    msg, fs := AppendVarintField(msg, 4, Uint32(mode)), fs + VarintField(4, Uint32(mode));
    AppendVarintWrites(fs, 5, 1);
    if isPublic {
      msg := AppendVarintField(msg, 5, 1);
    }
    assert !isPublic ==> fs + [] == fs;
    fs := fs + FlagField(5, isPublic);
    AppendStringWrites(fs, 6, username);
    msg, fs := AppendStringField(msg, 6, username), fs + StringField(6, username);
    AppendStringWrites(fs, 7, shown);
    msg, fs := AppendStringField(msg, 7, shown), fs + StringField(7, shown);
    assert [] + VarintField(1, Id(clanId)) == VarintField(1, Id(clanId));
    assert fs == TypingFields(channelId, clanId, senderId, username, displayName, mode, isPublic);
    EnvelopeWrites(TYPING, fs);
    env := AppendMessageField([], TYPING, msg);
  }

  method BuildReactionEnvelope(clanId: Bytes, channelId: Bytes, messageId: Bytes, emojiId: Bytes, emoji: Bytes,
                               action: bool, mode: int, isPublic: bool)
    returns (env: Bytes)
    requires IsInt32(mode)
    ensures env == Envelope(REACTION,
                            ReactionFields(clanId, channelId, messageId, emojiId, emoji, action, mode, isPublic))
  {
    ghost var fs: seq<Field> := [];
    var msg: Bytes := [];
    AppendVarintWrites(fs, 2, Id(emojiId));
    assert emojiId == [] ==> Id(emojiId) == 0;
    if emojiId != [] {
      msg := AppendVarintField(msg, 2, Id(emojiId));
    }
    fs := VarintField(2, Id(emojiId));
    assert msg == Write(fs) by {
      assert [] + fs == fs;
    }
    AppendStringWrites(fs, 3, emoji);
    msg, fs := AppendStringField(msg, 3, emoji), fs + StringField(3, emoji);
    AppendVarintWrites(fs, 7, 1);
    if action {
      msg := AppendVarintField(msg, 7, 1);
    }
    assert !action ==> fs + [] == fs;
    fs := fs + FlagField(7, action);
    AppendVarintWrites(fs, 9, Id(channelId));
    msg, fs := AppendVarintField(msg, 9, Id(channelId)), fs + VarintField(9, Id(channelId));
    AppendVarintWrites(fs, 10, Id(messageId));
    msg, fs := AppendVarintField(msg, 10, Id(messageId)), fs + VarintField(10, Id(messageId));
    AppendVarintWrites(fs, 11, Id(clanId));
    msg, fs := AppendVarintField(msg, 11, Id(clanId)), fs + VarintField(11, Id(clanId));
    AppendVarintWrites(fs, 12, Uint32(mode));
    msg, fs := AppendVarintField(msg, 12, Uint32(mode)), fs + VarintField(12, Uint32(mode));
    AppendVarintWrites(fs, 14, 1);
    if isPublic {
      msg := AppendVarintField(msg, 14, 1);
    }
    assert !isPublic ==> fs + [] == fs;
    fs := fs + FlagField(14, isPublic);
    assert fs == ReactionFields(clanId, channelId, messageId, emojiId, emoji, action, mode, isPublic);
    EnvelopeWrites(REACTION, fs);
    env := AppendMessageField([], REACTION, msg);
  }

  /** A message whose one attachment is the sticker. */
  method BuildStickerEnvelope(channelId: Bytes, clanId: Bytes, mode: int, isPublic: bool, shortcode: Bytes, url: Bytes)
    returns (env: Bytes)
    requires IsInt32(mode)
    ensures env == Envelope(CHANNEL_MESSAGE_SEND, StickerFields(channelId, clanId, mode, isPublic, shortcode, url))
  {
    ghost var inner: seq<Field> := [];
    var att: Bytes := [];
    AppendStringWrites(inner, 1, shortcode);
    att, inner := AppendStringField(att, 1, shortcode), inner + StringField(1, shortcode);
    AppendStringWrites(inner, 3, url);
    att, inner := AppendStringField(att, 3, url), inner + StringField(3, url);
    AppendStringWrites(inner, 4, STICKER);
    att, inner := AppendStringField(att, 4, STICKER), inner + StringField(4, STICKER);
    assert inner == StickerFile(shortcode, url);
    ghost var fs: seq<Field> := [];
    var msg: Bytes := [];
    AppendVarintWrites(fs, 1, Id(clanId));
    msg, fs := AppendVarintField(msg, 1, Id(clanId)), fs + VarintField(1, Id(clanId));
    AppendVarintWrites(fs, 2, Id(channelId));
    msg, fs := AppendVarintField(msg, 2, Id(channelId)), fs + VarintField(2, Id(channelId));
    AppendMessageWrites(fs, 5, att);
    msg, fs := AppendMessageField(msg, 5, att), fs + [Field(5, Data(att))];
    AppendVarintWrites(fs, 7, Uint32(mode));
    msg, fs := AppendVarintField(msg, 7, Uint32(mode)), fs + VarintField(7, Uint32(mode));
    AppendVarintWrites(fs, 11, 1);
    if isPublic {
      msg := AppendVarintField(msg, 11, 1);
    }
    assert !isPublic ==> fs + [] == fs;
    fs := fs + FlagField(11, isPublic);
    assert [] + VarintField(1, Id(clanId)) == VarintField(1, Id(clanId));
    assert fs == StickerFields(channelId, clanId, mode, isPublic, shortcode, url);
    EnvelopeWrites(CHANNEL_MESSAGE_SEND, fs);
    env := AppendMessageField([], CHANNEL_MESSAGE_SEND, msg);
  }

  method BuildUpdateEnvelope(channelId: Bytes, clanId: Bytes, messageId: Bytes, mode: int, isPublic: bool,
                             content: Bytes)
    returns (env: Bytes)
    requires IsInt32(mode)
    ensures env == Envelope(CHANNEL_MESSAGE_UPDATE, UpdateFields(channelId, clanId, messageId, mode, isPublic, content))
  {
    ghost var fs: seq<Field> := [];
    var msg: Bytes := [];
    AppendVarintWrites(fs, 1, Id(clanId));
    msg, fs := AppendVarintField(msg, 1, Id(clanId)), fs + VarintField(1, Id(clanId));
    AppendVarintWrites(fs, 2, Id(channelId));
    msg, fs := AppendVarintField(msg, 2, Id(channelId)), fs + VarintField(2, Id(channelId));
    AppendVarintWrites(fs, 3, Id(messageId));
    msg, fs := AppendVarintField(msg, 3, Id(messageId)), fs + VarintField(3, Id(messageId));
    AppendStringWrites(fs, 4, content);
    msg, fs := AppendStringField(msg, 4, content), fs + StringField(4, content);
    AppendVarintWrites(fs, 7, Uint32(mode));
    msg, fs := AppendVarintField(msg, 7, Uint32(mode)), fs + VarintField(7, Uint32(mode));
    AppendVarintWrites(fs, 8, 1);
    if isPublic {
      msg := AppendVarintField(msg, 8, 1);
    }
    assert !isPublic ==> fs + [] == fs;
    fs := fs + FlagField(8, isPublic);
    AppendVarintWrites(fs, 9, 1);
    msg, fs := AppendVarintField(msg, 9, 1), fs + FlagField(9, true);
    assert [] + VarintField(1, Id(clanId)) == VarintField(1, Id(clanId));
    assert fs == UpdateFields(channelId, clanId, messageId, mode, isPublic, content);
    EnvelopeWrites(CHANNEL_MESSAGE_UPDATE, fs);
    env := AppendMessageField([], CHANNEL_MESSAGE_UPDATE, msg);
  }

  /** A ping with a request id; the server reaps sockets whose pings carry none. */
  method BuildPingEnvelopeWithCid(cid: nat) returns (env: Bytes)
    ensures env == WithCid(cid, Envelope(PING, []))
  {
    env := AppendVarintField([], CID, cid);
    EnvelopeWrites(PING, []);
    env := env + AppendMessageField([], PING, []);
  }
}
