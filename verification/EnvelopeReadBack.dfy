/**
  The trip through the wire for the smaller envelopes: joining a clan, typing,
  reacting, sending a sticker and editing.  Each builder writes a field at most
  once, so a server that takes the last field of a number reads every argument.
 */
module EnvelopeReadBack {
  import opened Wrappers
  import opened Protowire
  import opened Decimal
  import opened Decode
  import opened DecodeTheorems
  import opened Acks
  import opened Envelopes
  import opened EnvelopeTheorems

  // ----- one attribute of a message -----

  /** A varint attribute, and a text one, as proto3 reads them: the last field of that number, or the default. */
  function NumAt(fs: seq<Field>, num: nat): nat {
    LastNum(fs, num).GetOr(0)
  }

  function IntAt(fs: seq<Field>, num: nat): int {
    Int32(NumAt(fs, num))
  }

  predicate FlagAt(fs: seq<Field>, num: nat) {
    NumAt(fs, num) != 0
  }

  function TextAt(fs: seq<Field>, num: nat): Bytes {
    LastText(fs, num)
  }

  function Flag(b: bool): nat {
    if b then 1 else 0
  }

  // ----- messages that write each number at most once -----

  /** `f` carries what the two tables say of its number; a zero or empty value is not carried. */
  ghost predicate Carries(f: Field, nums: map<nat, nat>, texts: map<nat, Bytes>) {
    match f.payload
    case Num(v) => v != 0 && f.num in nums && nums[f.num] == v
    case Data(d) => d != [] && f.num in texts && texts[f.num] == d
    case Raw(_) => false
  }

  ghost predicate Holds(fs: seq<Field>, nums: map<nat, nat>, texts: map<nat, Bytes>) {
    forall f :: f in fs <==> Carries(f, nums, texts)
  }

  lemma AddNum(fs: seq<Field>, nums: map<nat, nat>, texts: map<nat, Bytes>, num: nat, v: nat)
    requires Holds(fs, nums, texts) && num !in nums
    ensures Holds(fs + VarintField(num, v), nums[num := v], texts)
  {}

  lemma AddText(fs: seq<Field>, nums: map<nat, nat>, texts: map<nat, Bytes>, num: nat, d: Bytes)
    requires Holds(fs, nums, texts) && num !in texts
    ensures Holds(fs + StringField(num, d), nums, texts[num := d])
  {}

  lemma AddFlag(fs: seq<Field>, nums: map<nat, nat>, texts: map<nat, Bytes>, num: nat, b: bool)
    requires Holds(fs, nums, texts) && num !in nums
    ensures Holds(fs + FlagField(num, b), nums[num := Flag(b)], texts)
  {
    AddNum(fs, nums, texts, num, Flag(b));
  }

  lemma NumReads(fs: seq<Field>, nums: map<nat, nat>, texts: map<nat, Bytes>, num: nat)
    requires Holds(fs, nums, texts) && num in nums
    ensures NumAt(fs, num) == nums[num]
  {
    LastNumWins(fs, num);
    var last := LastNum(fs, num);
    if last.Some? {
      assert Field(num, Num(last.value)) in fs;
    } else {
      assert nums[num] == 0 || IsNum(Field(num, Num(nums[num])), num);
    }
  }

  lemma TextReads(fs: seq<Field>, nums: map<nat, nat>, texts: map<nat, Bytes>, num: nat)
    requires Holds(fs, nums, texts) && num in texts
    ensures TextAt(fs, num) == texts[num]
  {
    LastTextWins(fs, num);
    if exists f <- fs :: IsData(f, num) {
      assert Field(num, Data(LastText(fs, num))) in fs;
    } else {
      assert texts[num] == [] || IsData(Field(num, Data(texts[num])), num);
    }
  }

  /** The tables stay in the ranges of the wire format. */
  ghost predicate InRange(nums: map<nat, nat>, texts: map<nat, Bytes>) {
    && (forall k <- nums :: 1 <= k <= MAX_FIELD_NUMBER && nums[k] < U64)
    && forall k <- texts :: 1 <= k <= MAX_FIELD_NUMBER
  }

  /** An envelope around such a message carries it. */
  lemma TablesArrive(num: nat, fs: seq<Field>, nums: map<nat, nat>, texts: map<nat, Bytes>)
    requires 1 <= num <= MAX_FIELD_NUMBER && Holds(fs, nums, texts) && InRange(nums, texts)
    requires |Envelope(num, fs)| < U64 / 2
    ensures MessageIn(Envelope(num, fs), num) == Some(fs)
  {
    EnvelopeReads(num, fs);
  }

  // ----- joining a clan -----

  lemma ClanJoinRoundTrip(clanId: Bytes)
    requires |Envelope(CLAN_JOIN, VarintField(1, Id(clanId)))| < U64 / 2
    ensures var m := MessageIn(Envelope(CLAN_JOIN, VarintField(1, Id(clanId))), 3);
            m.Some? && NumAt(m.value, 1) == Id(clanId)
  {
    var fs := VarintField(1, Id(clanId));
    assert [] + fs == fs;
    AddNum([], map[], map[], 1, Id(clanId));
    TablesArrive(CLAN_JOIN, fs, map[1 := Id(clanId)], map[]);
  }

  // ----- pinging -----

  /** A ping is its request id and an empty field 22. */
  lemma PingExact(cid: nat)
    requires cid < U64
    ensures Fields(WithCid(cid, Envelope(PING, [])))
         == Listing((if cid == 0 then [] else [Field(1, Num(cid))]) + [Field(22, Data([]))], None)
  {
    var f := Field(PING, Data([]));
    assert Write([]) == [];
    assert Fields(Envelope(PING, [])) == Listing([f], None) by {
      WriteInverts([f]);
    }
    WithCidFields(cid, Envelope(PING, []));
  }

  // ----- typing -----

  datatype Typing = Typing(
    clan: nat, channel: nat, sender: nat, mode: int, public: bool, username: Bytes, displayName: Bytes)

  function TypingOf(fs: seq<Field>): Typing {
    Typing(NumAt(fs, 1), NumAt(fs, 2), NumAt(fs, 3), IntAt(fs, 4), FlagAt(fs, 5), TextAt(fs, 6), TextAt(fs, 7))
  }

  ghost predicate TypingTables(nums: map<nat, nat>, texts: map<nat, Bytes>, t: Typing) {
    && 1 in nums && nums[1] == t.clan
    && 2 in nums && nums[2] == t.channel
    && 3 in nums && nums[3] == t.sender
    && 4 in nums && nums[4] == Uint32(t.mode)
    && 5 in nums && nums[5] == Flag(t.public)
    && 6 in texts && texts[6] == t.username
    && 7 in texts && texts[7] == t.displayName
  }

  lemma TypingHolds(t: Typing) returns (nums: map<nat, nat>, texts: map<nat, Bytes>)
    requires t.clan < U64 && t.channel < U64 && t.sender < U64
    ensures Holds(VarintField(1, t.clan) + VarintField(2, t.channel) + VarintField(3, t.sender)
                  + VarintField(4, Uint32(t.mode)) + FlagField(5, t.public) + StringField(6, t.username)
                  + StringField(7, t.displayName),
                  nums, texts)
    ensures InRange(nums, texts) && TypingTables(nums, texts, t)
  {
    var fs: seq<Field>;
    nums, texts, fs := map[], map[], [];
    AddNum(fs, nums, texts, 1, t.clan);
    nums, fs := nums[1 := t.clan], fs + VarintField(1, t.clan);
    assert fs == VarintField(1, t.clan);
    AddNum(fs, nums, texts, 2, t.channel);
    nums, fs := nums[2 := t.channel], fs + VarintField(2, t.channel);
    AddNum(fs, nums, texts, 3, t.sender);
    nums, fs := nums[3 := t.sender], fs + VarintField(3, t.sender);
    AddNum(fs, nums, texts, 4, Uint32(t.mode));
    nums, fs := nums[4 := Uint32(t.mode)], fs + VarintField(4, Uint32(t.mode));
    AddFlag(fs, nums, texts, 5, t.public);
    nums, fs := nums[5 := Flag(t.public)], fs + FlagField(5, t.public);
    AddText(fs, nums, texts, 6, t.username);
    texts, fs := texts[6 := t.username], fs + StringField(6, t.username);
    AddText(fs, nums, texts, 7, t.displayName);
    texts, fs := texts[7 := t.displayName], fs + StringField(7, t.displayName);
  }

  lemma TypingArrives(fs: seq<Field>, nums: map<nat, nat>, texts: map<nat, Bytes>, t: Typing)
    requires Holds(fs, nums, texts) && InRange(nums, texts) && TypingTables(nums, texts, t)
    requires IsInt32(t.mode) && |Envelope(TYPING, fs)| < U64 / 2
    ensures MessageIn(Envelope(TYPING, fs), TYPING) == Some(fs) && TypingOf(fs) == t
  {
    TablesArrive(TYPING, fs, nums, texts);
    NumReads(fs, nums, texts, 1);
    NumReads(fs, nums, texts, 2);
    NumReads(fs, nums, texts, 3);
    NumReads(fs, nums, texts, 4);
    NumReads(fs, nums, texts, 5);
    TextReads(fs, nums, texts, 6);
    TextReads(fs, nums, texts, 7);
    Int32Inverts(t.mode);
  }

  /** A typing event gives back every argument; an empty display name reads as the username. */
  lemma TypingRoundTrip(channelId: Bytes, clanId: Bytes, senderId: Bytes, username: Bytes, displayName: Bytes,
                        mode: int, isPublic: bool)
    requires IsInt32(mode)
    requires var fs := TypingFields(channelId, clanId, senderId, username, displayName, mode, isPublic);
             |Envelope(TYPING, fs)| < U64 / 2
    ensures var fs := TypingFields(channelId, clanId, senderId, username, displayName, mode, isPublic);
            var m := MessageIn(Envelope(TYPING, fs), 24);
            && m.Some?
            && TypingOf(m.value) == Typing(Id(clanId), Id(channelId), Id(senderId), mode, isPublic,
                                           username, if displayName == [] then username else displayName)
  {
    var shown := if displayName == [] then username else displayName;
    var t := Typing(Id(clanId), Id(channelId), Id(senderId), mode, isPublic, username, shown);
    var nums, texts := TypingHolds(t);
    TypingArrives(TypingFields(channelId, clanId, senderId, username, displayName, mode, isPublic), nums, texts, t);
  }

  // ----- reacting -----

  datatype Reaction = Reaction(
    emojiId: nat, emoji: Bytes, action: bool, channel: nat, message: nat, clan: nat, mode: int, public: bool)

  function ReactionOf(fs: seq<Field>): Reaction {
    Reaction(NumAt(fs, 2), TextAt(fs, 3), FlagAt(fs, 7), NumAt(fs, 9), NumAt(fs, 10), NumAt(fs, 11), IntAt(fs, 12),
             FlagAt(fs, 14))
  }

  ghost predicate ReactionTables(nums: map<nat, nat>, texts: map<nat, Bytes>, r: Reaction) {
    && 2 in nums && nums[2] == r.emojiId
    && 7 in nums && nums[7] == Flag(r.action)
    && 9 in nums && nums[9] == r.channel
    && 10 in nums && nums[10] == r.message
    && 11 in nums && nums[11] == r.clan
    && 12 in nums && nums[12] == Uint32(r.mode)
    && 14 in nums && nums[14] == Flag(r.public)
    && 3 in texts && texts[3] == r.emoji
  }

  lemma ReactionHolds(r: Reaction) returns (nums: map<nat, nat>, texts: map<nat, Bytes>)
    requires r.emojiId < U64 && r.channel < U64 && r.message < U64 && r.clan < U64
    ensures Holds(VarintField(2, r.emojiId) + StringField(3, r.emoji) + FlagField(7, r.action)
                  + VarintField(9, r.channel) + VarintField(10, r.message) + VarintField(11, r.clan)
                  + VarintField(12, Uint32(r.mode)) + FlagField(14, r.public),
                  nums, texts)
    ensures InRange(nums, texts) && ReactionTables(nums, texts, r)
  {
    var fs: seq<Field>;
    nums, texts, fs := map[], map[], [];
    AddNum(fs, nums, texts, 2, r.emojiId);
    nums, fs := nums[2 := r.emojiId], fs + VarintField(2, r.emojiId);
    assert fs == VarintField(2, r.emojiId);
    AddText(fs, nums, texts, 3, r.emoji);
    texts, fs := texts[3 := r.emoji], fs + StringField(3, r.emoji);
    AddFlag(fs, nums, texts, 7, r.action);
    nums, fs := nums[7 := Flag(r.action)], fs + FlagField(7, r.action);
    AddNum(fs, nums, texts, 9, r.channel);
    nums, fs := nums[9 := r.channel], fs + VarintField(9, r.channel);
    AddNum(fs, nums, texts, 10, r.message);
    nums, fs := nums[10 := r.message], fs + VarintField(10, r.message);
    AddNum(fs, nums, texts, 11, r.clan);
    nums, fs := nums[11 := r.clan], fs + VarintField(11, r.clan);
    AddNum(fs, nums, texts, 12, Uint32(r.mode));
    nums, fs := nums[12 := Uint32(r.mode)], fs + VarintField(12, Uint32(r.mode));
    AddFlag(fs, nums, texts, 14, r.public);
    nums, fs := nums[14 := Flag(r.public)], fs + FlagField(14, r.public);
  }

  lemma ReactionArrives(fs: seq<Field>, nums: map<nat, nat>, texts: map<nat, Bytes>, r: Reaction)
    requires Holds(fs, nums, texts) && InRange(nums, texts) && ReactionTables(nums, texts, r)
    requires IsInt32(r.mode) && |Envelope(REACTION, fs)| < U64 / 2
    ensures MessageIn(Envelope(REACTION, fs), REACTION) == Some(fs) && ReactionOf(fs) == r
  {
    TablesArrive(REACTION, fs, nums, texts);
    NumReads(fs, nums, texts, 2);
    NumReads(fs, nums, texts, 7);
    NumReads(fs, nums, texts, 9);
    NumReads(fs, nums, texts, 10);
    NumReads(fs, nums, texts, 11);
    NumReads(fs, nums, texts, 12);
    NumReads(fs, nums, texts, 14);
    TextReads(fs, nums, texts, 3);
    Int32Inverts(r.mode);
  }

  /** A reaction gives back every argument. */
  lemma ReactionRoundTrip(clanId: Bytes, channelId: Bytes, messageId: Bytes, emojiId: Bytes, emoji: Bytes,
                          action: bool, mode: int, isPublic: bool)
    requires IsInt32(mode)
    requires var fs := ReactionFields(clanId, channelId, messageId, emojiId, emoji, action, mode, isPublic);
             |Envelope(REACTION, fs)| < U64 / 2
    ensures var fs := ReactionFields(clanId, channelId, messageId, emojiId, emoji, action, mode, isPublic);
            var m := MessageIn(Envelope(REACTION, fs), 26);
            && m.Some?
            && ReactionOf(m.value) == Reaction(Id(emojiId), emoji, action, Id(channelId), Id(messageId), Id(clanId),
                                               mode, isPublic)
  {
    var r := Reaction(Id(emojiId), emoji, action, Id(channelId), Id(messageId), Id(clanId), mode, isPublic);
    var nums, texts := ReactionHolds(r);
    ReactionArrives(ReactionFields(clanId, channelId, messageId, emojiId, emoji, action, mode, isPublic),
                    nums, texts, r);
  }

  // ----- editing -----

  datatype Edit = Edit(
    clan: nat, channel: nat, message: nat, content: Bytes, mode: int, public: bool, hideEdited: bool)

  function EditOf(fs: seq<Field>): Edit {
    Edit(NumAt(fs, 1), NumAt(fs, 2), NumAt(fs, 3), TextAt(fs, 4), IntAt(fs, 7), FlagAt(fs, 8), FlagAt(fs, 9))
  }

  ghost predicate EditTables(nums: map<nat, nat>, texts: map<nat, Bytes>, e: Edit) {
    && 1 in nums && nums[1] == e.clan
    && 2 in nums && nums[2] == e.channel
    && 3 in nums && nums[3] == e.message
    && 7 in nums && nums[7] == Uint32(e.mode)
    && 8 in nums && nums[8] == Flag(e.public)
    && 9 in nums && nums[9] == Flag(e.hideEdited)
    && 4 in texts && texts[4] == e.content
  }

  lemma EditHolds(e: Edit) returns (nums: map<nat, nat>, texts: map<nat, Bytes>)
    requires e.clan < U64 && e.channel < U64 && e.message < U64
    ensures Holds(VarintField(1, e.clan) + VarintField(2, e.channel) + VarintField(3, e.message)
                  + StringField(4, e.content) + VarintField(7, Uint32(e.mode)) + FlagField(8, e.public)
                  + FlagField(9, e.hideEdited),
                  nums, texts)
    ensures InRange(nums, texts) && EditTables(nums, texts, e)
  {
    var fs: seq<Field>;
    nums, texts, fs := map[], map[], [];
    AddNum(fs, nums, texts, 1, e.clan);
    nums, fs := nums[1 := e.clan], fs + VarintField(1, e.clan);
    assert fs == VarintField(1, e.clan);
    AddNum(fs, nums, texts, 2, e.channel);
    nums, fs := nums[2 := e.channel], fs + VarintField(2, e.channel);
    AddNum(fs, nums, texts, 3, e.message);
    nums, fs := nums[3 := e.message], fs + VarintField(3, e.message);
    AddText(fs, nums, texts, 4, e.content);
    texts, fs := texts[4 := e.content], fs + StringField(4, e.content);
    AddNum(fs, nums, texts, 7, Uint32(e.mode));
    nums, fs := nums[7 := Uint32(e.mode)], fs + VarintField(7, Uint32(e.mode));
    AddFlag(fs, nums, texts, 8, e.public);
    nums, fs := nums[8 := Flag(e.public)], fs + FlagField(8, e.public);
    AddFlag(fs, nums, texts, 9, e.hideEdited);
    nums, fs := nums[9 := Flag(e.hideEdited)], fs + FlagField(9, e.hideEdited);
  }

  lemma EditArrives(fs: seq<Field>, nums: map<nat, nat>, texts: map<nat, Bytes>, e: Edit)
    requires Holds(fs, nums, texts) && InRange(nums, texts) && EditTables(nums, texts, e)
    requires IsInt32(e.mode) && |Envelope(CHANNEL_MESSAGE_UPDATE, fs)| < U64 / 2
    ensures MessageIn(Envelope(CHANNEL_MESSAGE_UPDATE, fs), CHANNEL_MESSAGE_UPDATE) == Some(fs) && EditOf(fs) == e
  {
    TablesArrive(CHANNEL_MESSAGE_UPDATE, fs, nums, texts);
    NumReads(fs, nums, texts, 1);
    NumReads(fs, nums, texts, 2);
    NumReads(fs, nums, texts, 3);
    NumReads(fs, nums, texts, 7);
    NumReads(fs, nums, texts, 8);
    NumReads(fs, nums, texts, 9);
    TextReads(fs, nums, texts, 4);
    Int32Inverts(e.mode);
  }

  /** An edit gives back every argument, and always hides that it is one. */
  lemma UpdateRoundTrip(channelId: Bytes, clanId: Bytes, messageId: Bytes, mode: int, isPublic: bool, content: Bytes)
    requires IsInt32(mode)
    requires var fs := UpdateFields(channelId, clanId, messageId, mode, isPublic, content);
             |Envelope(CHANNEL_MESSAGE_UPDATE, fs)| < U64 / 2
    ensures var fs := UpdateFields(channelId, clanId, messageId, mode, isPublic, content);
            var m := MessageIn(Envelope(CHANNEL_MESSAGE_UPDATE, fs), 9);
            m.Some? && EditOf(m.value) == Edit(Id(clanId), Id(channelId), Id(messageId), content, mode, isPublic, true)
  {
    var e := Edit(Id(clanId), Id(channelId), Id(messageId), content, mode, isPublic, true);
    var nums, texts := EditHolds(e);
    EditArrives(UpdateFields(channelId, clanId, messageId, mode, isPublic, content), nums, texts, e);
  }

  // ----- stickers -----

  /** A file of a sent message, as far as a sticker fills it in. */
  datatype SentFile = SentFile(filename: Bytes, url: Bytes, filetype: Bytes)

  function FileOf(fs: seq<Field>): SentFile {
    SentFile(TextAt(fs, 1), TextAt(fs, 3), TextAt(fs, 4))
  }

  /** A sent message, as far as a sticker fills it in. */
  datatype SentSticker = SentSticker(clan: nat, channel: nat, files: seq<Bytes>, mode: int, public: bool)

  function StickerOf(fs: seq<Field>): SentSticker {
    SentSticker(NumAt(fs, 1), NumAt(fs, 2), AllData(fs, 5), IntAt(fs, 7), FlagAt(fs, 11))
  }

  lemma StickerFileHolds(shortcode: Bytes, url: Bytes)
    ensures Holds(StickerFile(shortcode, url), map[], map[1 := shortcode, 3 := url, 4 := STICKER])
  {
    var fs := StringField(1, shortcode);
    assert [] + fs == fs;
    AddText([], map[], map[], 1, shortcode);
    AddText(fs, map[], map[1 := shortcode], 3, url);
    AddText(fs + StringField(3, url), map[], map[1 := shortcode, 3 := url], 4, STICKER);
  }

  lemma StickerFileReads(shortcode: Bytes, url: Bytes)
    requires |Write(StickerFile(shortcode, url))| < U64
    ensures FileOf(Fields(Write(StickerFile(shortcode, url))).fields) == SentFile(shortcode, url, STICKER)
    ensures Write(StickerFile(shortcode, url)) != []
  {
    var fs, texts := StickerFile(shortcode, url), map[1 := shortcode, 3 := url, 4 := STICKER];
    StickerFileHolds(shortcode, url);
    ReadBack(fs);
    TextReads(fs, map[], texts, 1);
    TextReads(fs, map[], texts, 3);
    TextReads(fs, map[], texts, 4);
    WriteCovers(fs, Field(4, Data(STICKER)));
  }

  ghost predicate StickerTables(nums: map<nat, nat>, s: SentSticker) {
    && 1 in nums && nums[1] == s.clan
    && 2 in nums && nums[2] == s.channel
    && 7 in nums && nums[7] == Uint32(s.mode)
    && 11 in nums && nums[11] == Flag(s.public)
  }

  lemma StickerHolds(s: SentSticker, file: Bytes) returns (nums: map<nat, nat>, texts: map<nat, Bytes>)
    requires file != [] && s.clan < U64 && s.channel < U64
    ensures Holds(VarintField(1, s.clan) + VarintField(2, s.channel) + [Field(5, Data(file))]
                  + VarintField(7, Uint32(s.mode)) + FlagField(11, s.public),
                  nums, texts)
    ensures InRange(nums, texts) && StickerTables(nums, s)
  {
    var fs: seq<Field>;
    nums, texts, fs := map[], map[], [];
    AddNum(fs, nums, texts, 1, s.clan);
    nums, fs := nums[1 := s.clan], fs + VarintField(1, s.clan);
    assert fs == VarintField(1, s.clan);
    AddNum(fs, nums, texts, 2, s.channel);
    nums, fs := nums[2 := s.channel], fs + VarintField(2, s.channel);
    AddText(fs, nums, texts, 5, file);
    texts, fs := texts[5 := file], fs + StringField(5, file);
    AddNum(fs, nums, texts, 7, Uint32(s.mode));
    nums, fs := nums[7 := Uint32(s.mode)], fs + VarintField(7, Uint32(s.mode));
    AddFlag(fs, nums, texts, 11, s.public);
    nums, fs := nums[11 := Flag(s.public)], fs + FlagField(11, s.public);
  }

  lemma StickerArrives(fs: seq<Field>, nums: map<nat, nat>, texts: map<nat, Bytes>, s: SentSticker)
    requires Holds(fs, nums, texts) && InRange(nums, texts) && StickerTables(nums, s) && AllData(fs, 5) == s.files
    requires IsInt32(s.mode) && |Envelope(CHANNEL_MESSAGE_SEND, fs)| < U64 / 2
    ensures MessageIn(Envelope(CHANNEL_MESSAGE_SEND, fs), CHANNEL_MESSAGE_SEND) == Some(fs) && StickerOf(fs) == s
  {
    TablesArrive(CHANNEL_MESSAGE_SEND, fs, nums, texts);
    NumReads(fs, nums, texts, 1);
    NumReads(fs, nums, texts, 2);
    NumReads(fs, nums, texts, 7);
    NumReads(fs, nums, texts, 11);
    Int32Inverts(s.mode);
  }

  lemma DataAddOther(fs: seq<Field>, part: seq<Field>, num: nat)
    requires |part| <= 1 && forall f <- part :: !IsData(f, num)
    ensures AllData(fs + part, num) == AllData(fs, num)
  {
    if part == [] {
      assert fs + part == fs;
    } else {
      assert part == [part[0]] && part[0] in part;
      DataSnoc(fs, part[0], num);
      assert AllData(fs, num) + [] == AllData(fs, num);
    }
  }

  /** The file is the only one. */
  lemma OneFile(clan: nat, channel: nat, file: Bytes, mode: nat, public: bool)
    ensures AllData(VarintField(1, clan) + VarintField(2, channel) + [Field(5, Data(file))] + VarintField(7, mode)
                    + FlagField(11, public), 5) == [file]
  {
    var f := Field(5, Data(file));
    var a := VarintField(1, clan);
    var b := a + VarintField(2, channel);
    assert AllData(b, 5) == [] by {
      assert [] + a == a;
      DataAddOther([], a, 5);
      DataAddOther(a, VarintField(2, channel), 5);
    }
    assert AllData(b + [f], 5) == [file] by {
      DataSnoc(b, f, 5);
    }
    DataAddOther(b + [f], VarintField(7, mode), 5);
    DataAddOther(b + [f] + VarintField(7, mode), FlagField(11, public), 5);
  }

  /** A sticker gives back every argument: it is the one file of a message. */
  lemma StickerRoundTrip(channelId: Bytes, clanId: Bytes, mode: int, isPublic: bool, shortcode: Bytes, url: Bytes)
    requires IsInt32(mode)
    requires var fs := StickerFields(channelId, clanId, mode, isPublic, shortcode, url);
             |Envelope(CHANNEL_MESSAGE_SEND, fs)| < U64 / 2
    ensures var fs := StickerFields(channelId, clanId, mode, isPublic, shortcode, url);
            var m := MessageIn(Envelope(CHANNEL_MESSAGE_SEND, fs), 8);
            && m.Some?
            && var file := Write(StickerFile(shortcode, url));
               && StickerOf(m.value) == SentSticker(Id(clanId), Id(channelId), [file], mode, isPublic)
               && FileOf(Fields(file).fields) == SentFile(shortcode, url, STICKER)
  {
    var file := Write(StickerFile(shortcode, url));
    var s := SentSticker(Id(clanId), Id(channelId), [file], mode, isPublic);
    var fs := StickerFields(channelId, clanId, mode, isPublic, shortcode, url);
    PartCovered(fs, CHANNEL_MESSAGE_SEND, Field(5, Data(file)));
    StickerFileReads(shortcode, url);
    var nums, texts := StickerHolds(s, file);
    OneFile(Id(clanId), Id(channelId), file, Uint32(mode), isPublic);
    StickerArrives(fs, nums, texts, s);
  }
}
