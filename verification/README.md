# Verification of mezon-go-sdk-turbo

A Dafny model of the four parts of the SDK whose correctness is hardest to see
by reading, with proofs that hold for every input, every interleaving and every
run.

**Tier scheduler** (`lib/tier`).  One rebalance pass decays rates, scores bots,
fills a hot budget from a heap and then from a sort, under a per-tenant cap, and
turns the decision into opens, closes and polls.  The sets of bots that respect
budget and cap form a truncated partition matroid: both greedy loops are proved
optimal by exchange, the hot count is a closed formula, and a run of
`Add`/`Remove`/`Touch`/`Rebalance`/`ForceTier` keeps an invariant that ties the
action log to the hot set.  Ties and map order are left open; scores are reals.
`TierSelection` is the matroid, `TierModel` a pass on values, `TierRun`,
`TierTheorems` and `TierPolling` whole runs, the last one in numbers and poll
times, `ScoreHeap` and `TierManager` the code.

**Content renderer** (`lib/ws/content.go`).  Markdown becomes clean text and
UTF-16 entity spans.  `Markdown` has the patterns as leftmost scanners and the
fences, `Entities` what overlaps and what the filter keeps, `FencedBlocks` and
`MarkupTheorems` which entities that is by the languages of the markup alone,
`Rendering` what the spans cut out and that nothing is lost, `Content` and `Links`
the loops.  Text is
a sequence of Unicode scalar values; all markers are ASCII, so cuts fall on
character boundaries of valid UTF-8 (section 3 of RFC 3629).

**Wire codec and request table** (`lib/ws`).  `Protowire` is the Protocol Buffers
wire format ("Base 128 Varints", "Message Structure" and "Last One Wins" in its
Encoding document) as a full field-list parser and a writer, `WireGroups` how far
groups reach and how deep they nest.  `Decode` and `Acks` have the partial
decoders, proved against that parser, `DecodeMeaning` and `AckMeaning` what they
return by field number, `Envelopes` the builders, and the theorem modules what
decoding ignores and what survives the trip.  `ConnModel` is one socket with its
requesters and its reader as a system of atomic steps, `ConnLiveness` what comes
of a reply and of a message, `ConnClient` the object.

**Engine lifecycle and delivery** (`lib/turbo`, `lib/poller`, `lib/state`,
`lib/ws/pingwheel.go`).  `SocketModel` is who owns which socket, over all
interleavings of dials, closes and deaths, and `SocketLiveness` that wanted bots
get one and closed bots lose it; `Delivery` is how messages reach the
callback through sockets and overlapping polls, over one capped id set and one
cursor per channel, and `CursorChains` exactly when a cursor can be trusted.
Each section under a lock and each Redis command is one step.  `SocketEngine`,
`Dedup` and `Poller` are the code, proved to take only steps of the models.

In the three step models, a state that code shares is a value, and the methods of
the classes take the model state that the fields show as a ghost argument; what
they ensure is that the fields show the state after the step of the same name.  What
the network and the store answer in a poll is an argument of the poll.

## Where the code and its comments disagree

- `id` (`lib/ws/wire.go:58-63`) says that text which is not numeric encodes as 0.
  `strconv.ParseUint` reports overflow as soon as it happens and returns the
  largest value with it, and `id` drops the error: digits beyond 64 bits, with or
  without trailing text, encode as 18446744073709551615.  `Decimal.IdOfNonNumber`
  is the exact condition.
- `linkSpans` skips URLs that are empty after trimming; none ever is
  (`Links.UrlNotEmpty`).
- A cursor stands for everything since the first page of its own chain of polls,
  and a poll that finds no cursor starts a chain.  A message between two such
  pages can be lost: when two polls find no cursor at the same time
  (`CursorChains.TwoFirstPollsSkip`), and when a first poll ends in an error after
  its page and is tried again (`CursorChains.RetriedFirstPollSkips`).
  `CursorChains.ChainExact` says exactly when a cursor can still change chains,
  `CursorChains.NothingSkippedExact` exactly when a message can still be passed
  over, and `CursorChains.ChainsExact` which chains a run can lead to.  When the
  polls of a channel take turns until it has a cursor, and none is tried again
  once it has got messages, there is one chain
  (`CursorChains.NothingSkippedFromFirstPage`).
- `Seen` records an id and then trims the set.  When trimming fails, a poll gives
  the message up although it is recorded, and the next poll takes it for one that
  was seen (`CursorChains.FailedTrimSkips`); `Delivery.NothingSkipped` says exactly
  which messages still reach the callback.  A socket frame that cannot be looked
  up is delivered whether or not it was before (`CursorChains.FailedLookupRepeats`),
  and `Delivery.AtMostOnce` says that nothing else repeats a callback early.
- In a list inside a channel message, field 2 of a mention sent as bytes reads as
  user id "0", because the visitor passes 0 for the varint; the condition is
  `DecodeTheorems.MentionIdExact`, and `DecodeTheorems.TextIdReadsAsZero` an input.

## Model

| member | source | states |
|---|---|---|
| `TierSelection.Exchange` | lib/tier/manager.go:239-246 | the exchange step of the truncated partition matroid: a bot that can still be admitted can be traded into any feasible set at no loss of score |
| `TierSelection.GreedyOptimal` | lib/tier/manager.go:235-272 | a greedy loop scores at least as much as any feasible set between what was already selected and everything on offer, for any order of ties |
| `TierSelection.GreedyMaximal` | lib/tier/manager.go:239-246 | a greedy loop stays within budget and cap, and leaves a bot out only because the budget is used up or its tenant is full |
| `TierSelection.MaximalSize` | lib/tier/manager.go:235-272 | a feasible set that cannot grow has exactly min(budget, sum over tenants of min(cap, bots of that tenant)) members |
| `TierSelection.GreedyNoEnvy` | lib/tier/manager.go:239-271 | a bot that a loop leaves out faces winners that score at least as high and use up the budget or its tenant's cap |
| `TierSelection.GreedySkipsFullTenant` | lib/tier/manager.go:261-271 | the spare loop never admits a bot whose tenant was full before it began |
| `TierSelection.FreshChoiceOptimal` | lib/tier/manager.go:235-246 | no feasible set of fresh bots scores more than the heap loop's choice |
| `TierSelection.SpareFillOptimal` | lib/tier/manager.go:253-272 | no feasible extension of the fresh choice scores more than what the spare loop makes of it |
| `TierSelection.SelectionExact` | lib/tier/manager.go:235-272 | both loops together fill exactly the slots that budget and cap allow, fresh bots get as many as on their own, and the spare loop adds idle bots only |
| `TierSelection.SelectionFair` | lib/tier/manager.go:235-272 | no envy: a fresh bot loses only to fresh bots, an idle one only to fresh or better idle ones |
| `TierModel.RateStaysInRange` | lib/tier/manager.go:136-146 | a rate below 90/37, the fixed point of touch and decay, stays below it and stays non-negative |
| `TierModel.PlanGapDecides` | lib/tier/manager.go:209-216 | a plan-weight gap of 1/8 outweighs all recency and rate, even when the clock reading is up to HotIdle/148 behind the bot's last activity |
| `TierModel.ScoresNonNegative` | lib/tier/manager.go:209-216 | with non-negative plan weights every score of a pass is non-negative |
| `TierRun.ReplayBot` | lib/tier/manager.go:276-303 | what one bot emits, replayed, moves that bot to its decided tier, touches no other, and polls it exactly when its poll is due |
| `TierRun.ReplayPass` | lib/tier/manager.go:274-304 | the actions of a pass, replayed in any map order, turn the old hot set into the selected one; opens name bots that are not hot, closes and nothing else hot ones |
| `TierRun.PassOutcome` | lib/tier/manager.go:203-305 | after a pass the hot bots are exactly the selected ones, and the fresh ones among them the heap loop's choice |
| `TierRun.PassKeepsInv` | lib/tier/manager.go:203-305 | a pass keeps the run invariant: rates in range, log replay equal to the hot set, budget and tenant cap, poll spacing |
| `TierRun.StepKeepsInv` | lib/tier/manager.go:111-146 | each of Add, Remove, Touch, Rebalance and ForceTier to a tier that is not hot keeps the run invariant |
| `TierRun.ReachableInv` | lib/tier/manager.go:111-336 | in every state of every run, replaying the emitted actions gives exactly the hot bots, the cap and the last pass's budget hold, and polls are spaced |
| `TierTheorems.PassAllocatesExactly` | lib/tier/manager.go:229-272 | after every pass the hot count is exactly min(slots, capacity), and so is the fresh hot count over fresh bots alone |
| `TierTheorems.PassIsOptimal` | lib/tier/manager.go:235-272 | in every run with non-negative weights, the fresh hot bots of a pass have the largest total score of all feasible fresh sets, and the hot set of all its feasible extensions |
| `TierTheorems.ScoreFollowsPlan` | lib/tier/manager.go:209-216 | in a pass, an equal or better score means at most 1/8 less plan weight |
| `TierTheorems.NoPlanInversion` | lib/tier/manager.go:209-246 | in every run, a fresh bot without a slot is blocked only by fresh hot bots that score at least as high and are not on a lower plan |
| `TierTheorems.ClockNeverBehind` | lib/tier/manager.go:111-146 | under a clock that never steps back, every reading a run has made is at most the next one, so the bound on a lagging clock is met |
| `TierTheorems.PollsPerWindow` | lib/tier/manager.go:294-302 | within any window T one registration is polled at most 1 + T / min(WarmPoll, ColdPoll) times |
| `TierTheorems.OverdueBotIsPolled` | lib/tier/manager.go:294-302 | a pass at least max(WarmPoll, ColdPoll) after the last poll polls every bot that it leaves without a socket |
| `TierPolling.FreshExactly` | lib/tier/manager.go:218-227 | a bot is fresh exactly when it has been active, not longer ago than HotIdle nor than WarmIdle |
| `TierPolling.PassScores` | lib/tier/manager.go:207-216 | after a pass, in numbers: nine tenths of the rate, and 100 per unit of plan weight, plus 10 less the part of HotIdle spent idle, plus the rate |
| `TierPolling.PassDecays` | lib/tier/manager.go:136-141 | a pass of a run decays every rate by a tenth; the bot that is touched first gets 0.7 of its rate plus 1, and the time of the touch |
| `TierPolling.PassDemotes` | lib/tier/manager.go:218-293 | a bot that a pass leaves without a socket is Cold exactly when it was never active or idle longer than WarmIdle, and Warm otherwise |
| `TierPolling.PassPollsExactly` | lib/tier/manager.go:294-302 | a pass polls a bot exactly when it leaves it without a socket and its poll is due; the next one is then due WarmPoll later if it ends Warm, ColdPoll later if Cold, and otherwise when it was |
| `TierPolling.PolledFromDueTime` | lib/tier/manager.go:294-302 | over a run, a pass polls a registered bot exactly from its due time on, while it has no socket |
| `TierPolling.NextPollExact` | lib/tier/manager.go:294-302 | over a run, after a poll that left a bot Cold the next one of that registration is in the first pass at least ColdPoll later that gives it no socket; WarmPoll later after one that left it Warm |
| `TierPolling.FirstPollExact` | lib/tier/manager.go:111-119 | over a run, a new bot is first polled by the first pass at or after the time it was added that gives it no socket |
| `TierPolling.RemovedIsGone` | lib/tier/manager.go:122-132 | over a run, a removed bot is not registered, has no socket and is not polled until it is added again |
| `TierPolling.FreshBotGetsSocket` | lib/tier/manager.go:235-246 | over a run, a fresh bot gets a socket when budget and tenant cap have room for all fresh bots |
| `TierPolling.NewBotGetsSocket` | lib/tier/manager.go:105-119 | no cold-start deadlock: with such room, a bot that was just added gets a socket in a pass within both idle windows |
| `TierPolling.PressureLimits` | lib/tier/manager.go:229-233 | the budget is PressureHotCap when memory is at or over a positive MemHighMB, and MaxHot otherwise, and no pass exceeds it |
| `TierPolling.DefaultsExact` | lib/tier/manager.go:47-67 | settings that are not positive become 20s, 3m, 2m, 10m and 200, missing weights 1, 2 and 3; all others stay |
| `ScoreHeaps.RootIsMax` | lib/tier/pq.go:5-18 | in a heap-ordered slice nothing scores above the root |
| `ScoreHeaps.ScoreHeap.Push` | lib/tier/pq.go:9-9 | appends raw, without restoring heap order, as scoring a pass needs |
| `ScoreHeaps.ScoreHeap.Init` | lib/tier/manager.go:238-238 | turns raw-appended entries into a heap and keeps the contents |
| `ScoreHeaps.ScoreHeap.Pop` | lib/tier/manager.go:240-240 | takes out an entry that scores at least as high as every other, keeps the rest, and keeps heap order |
| `TierManager.Admit` | lib/tier/manager.go:241-245 | one candidate: skipped when its tenant is full, selected and counted otherwise; the selection so far stays the greedy one |
| `TierManager.HeapLoopDone` | lib/tier/manager.go:239-246 | pops come in non-increasing score order, and what they selected is a greedy choice along an order of all the active bots |
| `TierManager.SortByScore` | lib/tier/manager.go:260-260 | a permutation in non-increasing score order, with ties left open |
| `TierManager.SpareLoop` | lib/tier/manager.go:261-271 | the loop over the spare bots selects exactly the greedy extension and promotes exactly the bots it adds |
| `TierManager.ScoreEntry` | lib/tier/manager.go:210-224 | decays the rate, sets the score, and classifies the bot by age |
| `TierManager.ReconcileEntry` | lib/tier/manager.go:277-302 | settles one bot's tier and next poll, and emits exactly its open, close and poll; what that means for tiers, due times and polls is `TierPolling.PassDemotes` and `TierPolling.PassPollsExactly` |
| `TierManager.Manager.ScoreAll` | lib/tier/manager.go:207-227 | rescores every bot, and lists exactly the fresh ones as candidates |
| `TierManager.Manager.SelectActive` | lib/tier/manager.go:236-246 | Init and repeated Pop select the greedy choice along some score order of the fresh bots |
| `TierManager.Manager.FillSpare` | lib/tier/manager.go:253-272 | fills spare slots greedily along some score order of all the other bots |
| `TierManager.Manager.Choose` | lib/tier/manager.go:207-272 | scores every bot, and both loops together make the selection of the model; a bot is wanted hot exactly when it is selected |
| `TierManager.Manager.Reconcile` | lib/tier/manager.go:274-304 | settles every bot once, in some order, and emits each one's actions |
| `TierManager.Manager.RebalanceLocked` | lib/tier/manager.go:205-305 | the whole pass, from the fields of the manager to the fields after it, is a pass of the model, for which `TierTheorems` and `TierPolling` say what sockets, tiers and polls come of it |
| `TierManager.Manager.Add` | lib/tier/manager.go:111-119 | takes the model's Add step: a new bot is cold, fresh and due; a known one is left alone |
| `TierManager.Manager.Remove` | lib/tier/manager.go:122-132 | takes the model's Remove step, and closes the socket exactly when the bot was hot |
| `TierManager.Manager.Touch` | lib/tier/manager.go:136-146 | takes the model's Touch step: marks the bot active, bumps its rate, and runs a pass |
| `TierManager.Manager.Rebalance` | lib/tier/manager.go:321-327 | takes the model's Rebalance step |
| `TierManager.Manager.ForceTier` | lib/tier/manager.go:330-336 | takes the model's ForceTier step |
| `TierManager.Manager.HotCount` | lib/tier/manager.go:177-187 | counts exactly the hot bots |
| `Utf16.EncodeConcat` | lib/ws/content.go:126-130 | encoding a text chunk by chunk is encoding the whole |
| `Utf16.DecodeEncode` | lib/ws/content.go:189-199 | UTF-16 as section 2.1 of RFC 2781 defines it loses nothing |
| `Utf16.Utf16Len` | lib/ws/content.go:189-199 | the length of the UTF-16 encoding |
| `Utf16.RuneExact` | lib/ws/content.go:189-199 | a character above U+FFFF is two units, a surrogate pair that adds up to it, and any other is one unit |
| `Markdown.MatchAtExact` | lib/ws/content.go:14-14 | each scanner matches at a position exactly the words of its pattern's language, with the length the regular expression gives |
| `Markdown.FindAllExact` | lib/ws/content.go:31-35 | all matches are words of the language, in order and apart, and no word starts outside them |
| `Markdown.FencesWhole` | lib/ws/content.go:145-161 | closed fences are disjoint regions of whole lines, in order |
| `FencedBlocks.FenceLineExact` | lib/ws/content.go:34-34 | a line is a fence line if and only if it is blanks and tabs, three backquotes, and anything |
| `FencedBlocks.LinesExact` | lib/ws/content.go:149-149 | the lines are exactly the pieces between newlines |
| `FencedBlocks.FencesExact` | lib/ws/content.go:145-161 | for every text, block i runs from the start of fence line 2i to the end of fence line 2i + 1, and there are half as many as such lines, rounded down |
| `MarkupTheorems.EntitiesExact` | lib/ws/content.go:65-122 | for every text, what is kept is exactly: the fenced blocks; the bolds with neither end in a block or in a counting inline code; the inline codes that start in no block and lie strictly inside no such bold; each with its body |
| `MarkupTheorems.ListsExist` | lib/ws/content.go:65-87 | every text has these lists of fence lines, blocks, code matches and bold matches; `MarkupTheorems.LeftmostIs` and `FencedBlocks.FencesExact` say that it has no others |
| `Entities.ParseWellLaid` | lib/ws/content.go:69-95 | fences touch nothing else, and an inline code and a bold are apart or the code lies strictly inside the bold |
| `Entities.EventsAre` | lib/ws/content.go:83-95 | the event list holds exactly one event per region, with the region's body |
| `Entities.EventsCompatible` | lib/ws/content.go:83-99 | two events are apart or nested, and start at different places |
| `Entities.DropKeeps` | lib/ws/content.go:113-122 | the filter on a start-ordered list keeps an event exactly when no earlier bold of the list contains it |
| `Entities.FilterExact` | lib/ws/content.go:99-122 | however the sort orders the events, the filter keeps exactly all closed fences, all unmasked bolds, and the inline codes outside every such bold |
| `Entities.KeptIs` | lib/ws/content.go:99-122 | a text has exactly one list of kept events, so the rendering does not depend on how the unstable sort breaks ties |
| `Rendering.SpansExact` | lib/ws/content.go:124-139 | for every text, spans are in range, sorted and apart, and the UTF-16 clean text cut at a span is the encoding of the event's body |
| `Rendering.RenderingLossless` | lib/ws/content.go:90-139 | for every text, putting ** back around the bold spans, in UTF-16 units, rebuilds the text, and the clean text is four characters shorter per bold |
| `Content.FenceRegions` | lib/ws/content.go:145-161 | the fence lines of the text, a language of its own, taken two by two in order; an odd one at the end is left alone |
| `Content.IsInside` | lib/ws/content.go:163-170 | whether a position lies in one of the regions |
| `Content.KeepUnmasked` | lib/ws/content.go:71-75 | the matches that do not start, nor for bold end, in a masked region |
| `Content.SortEvents` | lib/ws/content.go:99-99 | a permutation ordered by start |
| `Content.FilterOverlapping` | lib/ws/content.go:113-122 | drops every event that starts before the last kept one ended |
| `Content.Emit` | lib/ws/content.go:124-139 | no slice is inverted or out of range; the clean text and the spans are those of the kept events |
| `Content.MarkdownSpans` | lib/ws/content.go:65-140 | returns the clean text and the spans of the one list of entities that the text has, also when there is nothing to mark up; `MarkupTheorems.EntitiesExact` says which entities those are |
| `Links.UrlNotEmpty` | lib/ws/content.go:178-182 | trimming keeps at least the scheme, so the check for an empty URL never fires |
| `Links.UrlTrimmed` | lib/ws/content.go:176-182 | a trimmed URL does not end in sentence punctuation, and what was trimmed is nothing else |
| `Links.LinkSpans` | lib/ws/content.go:176-187 | one span per URL match, from the UTF-16 length before it and of the trimmed URL |
| `Links.LinksExact` | lib/ws/content.go:176-187 | each link span is in range and cuts out exactly its trimmed URL; link spans are in order and apart |
| `Links.BuildContent` | lib/ws/content.go:42-56 | the blob's text is the clean text; its spans show the kept entities' bodies and then the trimmed URLs of the clean text, one each |
| `Protowire.VarintInverts` | lib/ws/wire.go:65-70 | every 64-bit value survives its varint, whatever follows it |
| `Protowire.VarintBytes` | lib/ws/wire.go:65-70 | a varint is seven bits a byte, the least significant first, the high bit set on all bytes but the last, and none too many |
| `Protowire.TagInverts` | lib/ws/wire.go:65-81 | every field number and wire type survives its tag |
| `Protowire.BytesInverts` | lib/ws/wire.go:72-81 | every length-prefixed value survives |
| `Protowire.GroupStable` | lib/ws/decode.go:45-49 | skipping a well-formed group does not depend on what follows it, at any nesting depth |
| `WireGroups.ScalarsExact` | lib/ws/decode.go:45-49 | a field of wire type 0, 1, 2 or 5 is its tag and exactly its varint, eight bytes, length and bytes, or four bytes |
| `WireGroups.GroupsExact` | lib/ws/decode.go:45-49 | a group field is everything up to its own end tag, whatever is nested in it, if and only if no group in it is enclosed in more than 10000 others |
| `Protowire.FieldsConcat` | lib/ws/ack.go:63-68 | parsing a ++ b is parsing a and then b, when a is well formed |
| `Protowire.WriteInverts` | lib/ws/wire.go:65-81 | a written message parses to exactly its fields |
| `Decimal.ParseUintExact` | lib/ws/wire.go:60-63 | a decimal is read exactly when it is one and fits 64 bits; a range error is reported before a later bad character |
| `Decimal.ParseFormat` | lib/ws/decode.go:113-121 | an id printed as a decimal is read back as the same id |
| `Decimal.FormatShortest` | lib/ws/decode.go:113-121 | a printed id has no leading zero, unless it is 0 |
| `Decimal.IdOfFormatted` | lib/ws/wire.go:60-63 | a decimal id reaches the wire as its own value |
| `Decimal.IdOfNonNumber` | lib/ws/wire.go:58-63 | text that is no number becomes 0 if and only if it does not start with a number too long for 64 bits |
| `Decimal.NonNumberNotZero` | lib/ws/wire.go:58-63 | 18446744073709551616x is no number and yet becomes the largest id, against the comment on id |
| `Decimal.Int32Inverts` | lib/ws/wire.go:122-122 | an int32, negative ones included, survives its 32-bit varint |
| `Decode.NextField` | lib/ws/decode.go:25-50 | one field off the front is a tag and then a value by wire type, and fails with the parser's error |
| `Decode.WalkVarints` | lib/ws/decode.go:269-299 | visits exactly the varints and length-delimited fields of the longest well-formed prefix, in order |
| `Decode.WalkWire` | lib/ws/decode.go:244-266 | visits exactly the length-delimited values of one field in the longest well-formed prefix, in order |
| `Decode.ReadMention` | lib/ws/decode.go:155-165 | a mention from the last visit to each of its fields, of either wire type |
| `Decode.ReadMentions` | lib/ws/decode.go:147-173 | one mention per item, in order |
| `Decode.ReadAttachments` | lib/ws/decode.go:182-211 | one attachment per item, in order |
| `Decode.ReadReferences` | lib/ws/decode.go:215-241 | one reference per item, in order |
| `Decode.ProjectSnoc` | lib/ws/decode.go:77-129 | one more field changes exactly the attribute it carries |
| `Decode.DecodeFields` | lib/ws/decode.go:68-136 | returns the message of the full field list, whose attributes `DecodeMeaning.FieldsMean` spells out, and fails exactly when and as the full parse fails |
| `Decode.DecodeChannelMessage` | lib/ws/decode.go:23-52 | decodes the first channel message of the full field list, and `DecodeMeaning.FrameMeans` says to what; without one, fails exactly when the frame does not parse to its end |
| `DecodeMeaning.FieldsMean` | lib/ws/decode.go:77-136 | each attribute by its number: varints 1, 2, 3, 5 give clan, channel, message and sender id, 22 the mode, 24 the flag, bytes 6, 7, 8, 9, 12, 13 the texts, each from its last field or empty without one; 16, 17, 18 list the mentions, attachments and references, item by item with the numbers of their own attributes |
| `DecodeMeaning.FrameMeans` | lib/ws/decode.go:23-52 | a frame that decodes gives the message that its first length-delimited field 6 says |
| `DecodeTheorems.LastNumWins` | lib/ws/decode.go:105-127 | a varint attribute is the value of the last field that carries it |
| `DecodeTheorems.LastTextWins` | lib/ws/decode.go:77-104 | a text attribute is the value of the last field that carries it |
| `DecodeTheorems.UnreadInMessage` | lib/ws/decode.go:68-136 | well-formed fields that are not read can be inserted at any field boundary of a channel message without any effect |
| `DecodeTheorems.UnreadInFrame` | lib/ws/decode.go:44-51 | well-formed fields other than channel messages can be inserted at any field boundary of a frame without any effect |
| `DecodeTheorems.FrameFailsExactly` | lib/ws/decode.go:23-52 | the first channel message of a frame decides alone whether decoding fails and what it gives; without one, decoding fails exactly when the frame does not parse to its end |
| `DecodeTheorems.MentionIdExact` | lib/ws/decode.go:155-165 | a mention sent with its user id as bytes reads as user 0: the id that was written is read if and only if the last field 2 is a varint, or bytes that say 0 |
| `DecodeTheorems.TextIdReadsAsZero` | lib/ws/decode.go:155-165 | the mention item 12 01 35, whose user id is the text 5, is read as user 0 |
| `Acks.AckedId` | lib/ws/ack.go:44-55 | the last id in an acknowledgement, as a varint or as text |
| `Acks.DecodeAck` | lib/ws/ack.go:33-61 | accepts exactly the frames with a readable request id and a reply; the id, message id and error flag are those of the last fields that carry them |
| `AckMeaning.AckMeans` | lib/ws/ack.go:33-61 | a frame is a reply exactly when a field 1 is a varint or a decimal that fits, and there is a bytes field 7 or 12; the last such id, the last field 2 in any field 7 that has one, and whether there is a field 12 are what it says |
| `Acks.NeverBoth` | lib/ws/ack.go:33-61 | a frame with at most one of fields 6, 7 and 12 is never both a reply and a channel message |
| `Acks.WithCidFields` | lib/ws/ack.go:66-68 | the prefixed envelope's fields are the id, unless it is zero, and then the envelope's own |
| `Acks.WithCidExact` | lib/ws/ack.go:63-68 | a nonzero id in front of an envelope sets its request id, unless the envelope has one of its own, and changes nothing else that either decoder sees |
| `Envelopes.BuildMention` | lib/ws/wire.go:104-107 | the mention's fields 2, 7 and 8 |
| `Envelopes.BuildRef` | lib/ws/wire.go:114-119 | the reference's fields 2, 3, 6, 7 and 8 |
| `Envelopes.BuildSendEnvelopeRaw` | lib/ws/wire.go:97-130 | one field 8 around the fields of the message, in order, with zero and empty scalars left out |
| `Envelopes.BuildClanJoinEnvelope` | lib/ws/wire.go:133-136 | one field 3 around the clan id |
| `Envelopes.BuildTypingEnvelope` | lib/ws/wire.go:146-161 | one field 24; an empty display name falls back to the username |
| `Envelopes.BuildReactionEnvelope` | lib/ws/wire.go:172-189 | one field 26 around the reaction's fields |
| `Envelopes.BuildStickerEnvelope` | lib/ws/wire.go:197-213 | one field 8 whose one attachment is the sticker |
| `Envelopes.BuildUpdateEnvelope` | lib/ws/ack.go:76-88 | one field 9, with hide_editted always set |
| `Envelopes.BuildPingEnvelopeWithCid` | lib/ws/wire.go:225-228 | an empty field 22 behind the request id |
| `EnvelopeTheorems.ReadBack` | lib/ws/wire.go:65-81 | fields in range, in a message of 64-bit length, are read back as written, at every level of nesting |
| `EnvelopeTheorems.SendRoundTrip` | lib/ws/wire.go:95-130 | for all arguments a send envelope parses to one field 8, and that gives back ids, content, all mentions in order, the reference if any, the mode and both flags |
| `EnvelopeReadBack.ClanJoinRoundTrip` | lib/ws/wire.go:133-136 | a join gives back the clan id |
| `EnvelopeReadBack.TypingRoundTrip` | lib/ws/wire.go:146-161 | for all arguments a typing envelope parses to one field 24 that gives back ids, mode, flag and names, the username for an empty display name |
| `EnvelopeReadBack.ReactionRoundTrip` | lib/ws/wire.go:172-189 | for all arguments a reaction envelope parses to one field 26 that gives back the emoji, the action, all ids, the mode and the flag |
| `EnvelopeReadBack.StickerRoundTrip` | lib/ws/wire.go:197-213 | for all arguments a sticker envelope parses to one field 8 that gives back ids, mode and flag, and exactly one file, which gives back shortcode and url |
| `EnvelopeReadBack.UpdateRoundTrip` | lib/ws/ack.go:76-88 | for all arguments an edit parses to one field 9 that gives back ids, content, mode and flag, with hide_editted set |
| `EnvelopeReadBack.PingExact` | lib/ws/wire.go:225-228 | a ping is the request id in field 1, unless it is zero, and an empty field 22 |
| `EnvelopeTheorems.BuiltIsNeither` | lib/ws/wire.go:83-228 | no envelope built here, with or without a request id, decodes as a channel message or as a reply |
| `ConnModel.StepKeepsInv` | lib/ws/conn.go:194-238 | every step of requesters, pings and the reader keeps: table exact, ids in range, every reply in the hands of its own request |
| `ConnModel.OwnReplyOnly` | lib/ws/conn.go:194-220 | in every interleaving, a request that succeeds or is rejected ends with a reply that bears its own id and came in a frame; the table is exactly the registered unfinished requests |
| `ConnModel.FreshIds` | lib/ws/conn.go:195-195 | in every run, the next request or ping takes an id that no request and no ping has had, and no id has served both |
| `ConnModel.ReplyTouchesOnlyItsOwn` | lib/ws/conn.go:228-238 | handling a reply touches no request but the one with its id, so a late or duplicate reply never resolves a later request |
| `ConnModel.DoneIsFinal` | lib/ws/conn.go:203-219 | over every continuation, a finished request stays as it ended and out of the table |
| `ConnModel.ReaderNeverBlocks` | lib/ws/conn.go:93-112 | whatever requesters do while the reader has a frame in hand, at most four steps of its own, none of which waits, take it back to reading |
| `ConnModel.TimingCostsNothing` | lib/ws/conn.go:93-112 | for frames with one role each, onMessage sees the same messages in the same order however requests come and go |
| `ConnModel.TwoRolesExact` | lib/ws/conn.go:98-103 | a pending request changes what a frame hands over if and only if the frame is both a reply and a message for the bot |
| `ConnLiveness.ReplyArrives` | lib/ws/conn.go:93-102 | once a reply has been read for a request in the table with an empty channel, the reader puts it into that channel, whatever anyone does before the request itself finishes |
| `ConnLiveness.ReplyResolves` | lib/ws/conn.go:211-216 | a waiting request with a reply in its channel ends with that reply, rejected exactly by an error |
| `ConnLiveness.RequestGoesOn` | lib/ws/conn.go:208-219 | a request that was written waits; one that was not, or whose time is up, is over with that error |
| `ConnLiveness.RequestEnds` | lib/ws/conn.go:203-207 | a request ends with the outcome it was left with, and out of the table |
| `ConnLiveness.MessageIsHanded` | lib/ws/conn.go:98-111 | a channel message from somebody else is handed to onMessage, unless the frame is a reply and somebody waits |
| `ConnLiveness.NothingElseIsHanded` | lib/ws/conn.go:98-111 | nothing else is handed over: no message of the bot's own, no other frame, no reply while somebody waits |
| `ConnClient.Conn.Alloc` | lib/ws/conn.go:195-196 | takes the model's Alloc step |
| `ConnClient.Conn.Register` | lib/ws/conn.go:197-202 | takes the model's Register step |
| `ConnClient.Conn.Receive` | lib/ws/conn.go:212-216 | takes the model's Receive step, and rejects exactly an error reply |
| `ConnClient.Conn.Finish` | lib/ws/conn.go:203-207 | takes the model's Finish step |
| `ConnClient.Conn.Ping` | lib/ws/conn.go:263-265 | takes the model's Ping step |
| `ConnClient.Conn.HasPending` | lib/ws/conn.go:222-226 | takes the model's Check step |
| `ConnClient.Conn.Dispatch` | lib/ws/conn.go:98-111 | takes the model's Dispatch step: a reply when somebody waits, otherwise the channel message unless it is the bot's own |
| `ConnClient.Conn.Lookup` | lib/ws/conn.go:229-231 | takes the model's Lookup step |
| `ConnClient.Conn.Resolve` | lib/ws/conn.go:232-237 | takes the model's TrySend step, and never waits |
| `ConnClient.Conn.JoinClan` | lib/ws/conn.go:134-145 | sends at most one join per clan that was written, and remembers only that |
| `Dedup.AddKeeps` | lib/state/state.go:59-64 | the set stays the last ids recorded, all different; an id recorded again comes after dedupCap others |
| `Dedup.TrimKeeps` | lib/state/state.go:65-71 | trimming drops only what is beyond the newest dedupCap, and keeps the same facts |
| `Dedup.NewIdRemembered` | lib/state/state.go:52-73 | after a new id, the set holds it and is within its cap |
| `Dedup.DedupSet.AddNX` | lib/state/state.go:58-64 | insert if absent, and say so |
| `Dedup.DedupSet.TrimOldest` | lib/state/state.go:67-67 | removal by rank keeps exactly the newest dedupCap entries |
| `Dedup.DedupSet.Seen` | lib/state/state.go:52-73 | says whether the id was there and whether the question failed; a new one is recorded and the set trimmed, unless recording or trimming fails; the empty id is never recorded |
| `Delivery.StepKeepsInv` | lib/poller/poller.go:57-101 | every step of polls, frames, trims and failures keeps the delivery invariant |
| `Delivery.AtMostOnce` | lib/turbo/turbo.go:327-332 | in every interleaving of frames and polls, a second callback for a non-empty id comes only after dedupCap other ids, all different, were newly recorded in between, unless one of the two is for a socket frame that could not be looked up |
| `Delivery.NothingSkipped` | lib/poller/poller.go:71-96 | however polls overlap, fail or are tried again, and whatever frames could not be looked up, every message between the first page of a cursor's chain and the cursor is the bot's own or reaches the callback, unless a store call failed after recording its id; then it reaches the callback if and only if a poll handed it over or its id has a record that was not given up |
| `CursorChains.ChainExact` | lib/poller/poller.go:67-96 | every continuation leaves a cursor in the chain it is in if and only if no poll under way is a rival: one that found no cursor or another chain's, and can still set it |
| `CursorChains.NothingSkippedExact` | lib/poller/poller.go:67-96 | in any reachable state: nothing from a given message to the cursor is ever passed over if, and with ids of their own only if, nothing is now and no poll under way has or can get a page behind a message that was not handled |
| `CursorChains.ChainsExact` | lib/poller/poller.go:67-96 | the chains that a run from the start can lead to are exactly the first pages that its polls listed without a cursor |
| `CursorChains.NothingSkippedFromFirstPage` | lib/poller/poller.go:67-96 | in every run in which the polls of a channel take turns until it has a cursor, there is one first page, and every message from where it began to the cursor is the bot's own or reaches the callback, or a store call failed after recording its id |
| `CursorChains.TwoFirstPollsSkip` | lib/poller/poller.go:67-96 | two polls that both find no cursor can leave a message between their pages for ever |
| `CursorChains.RetriedFirstPollSkips` | lib/poller/poller.go:78-95 | so can a first poll that ends in an error after its page, and is tried again |
| `CursorChains.NeitherTakesTurns` | lib/poller/poller.go:67-96 | in neither of these two runs do the polls take turns |
| `CursorChains.FailedTrimSkips` | lib/state/state.go:65-71 | a message is lost when trimming fails right after its id was recorded, though every page begins at it |
| `CursorChains.FailedLookupRepeats` | lib/turbo/turbo.go:327-332 | a frame whose lookup fails can repeat a callback at once |
| `Poller.Bot.OnHotMessage` | lib/turbo/turbo.go:327-332 | calls back exactly when the id was new or empty or could not be looked up, and remembers it unless it could not be recorded; all of it is a run of the model |
| `Poller.Bot.TakeMessage` | lib/poller/poller.go:76-89 | one message of a page, with the callbacks before and after: skips the bot's own, drops what was seen, calls back for the rest, and ends the poll without a callback when the question fails |
| `Poller.Bot.TakePage` | lib/poller/poller.go:75-90 | takes a page in order up to the first message whose question to the store fails, and no further; that one may be recorded, but is not called back |
| `Poller.ChannelMoves` | lib/poller/poller.go:64-96 | the cursor of a channel moves to the end of a page that is not empty when every question about it is answered and the cursor can be set, and in every other case all cursors stay; the poll fails exactly when there was no turn, a question failed, or the cursor could not be set |
| `Poller.AdjoiningPages` | lib/poller/poller.go:67-95 | two polls of a channel in a row without an error list adjoining pages, so the second lists no message of the first |
| `Poller.PollMovesCursors` | lib/poller/poller.go:62-96 | a whole poll over different channels moves every cursor in that way up to the first channel with an error, where it stops, or up to the end, and no other cursor |
| `Poller.Bot.EndPage` | lib/poller/poller.go:91-95 | a page that was taken whole moves the cursor to its end when it is not empty and the cursor can be set, and fails exactly when that cannot be done |
| `Poller.Bot.PollChannel` | lib/poller/poller.go:64-96 | for every answer of the world: the page starts at the cursor, its new messages are called back in order, and the cursor moves exactly as `Poller.ChannelMoves` says |
| `Poller.Bot.PollAll` | lib/poller/poller.go:62-96 | for all answers of the world the result is that of the channels one by one, up to the first error; a listing that fails only skips its channel; the cursors move as `Poller.PollMovesCursors` says |
| `Poller.Bot.PollOnce` | lib/poller/poller.go:57-101 | a poll is nothing when the channels cannot be listed, and otherwise that of all channels; it is a run of the model, moves the cursors as `Poller.PollMovesCursors` says, counts its callbacks, and records activity exactly when it ended well and found something |
| `SocketModel.StepKeepsInv` | lib/turbo/turbo.go:353-437 | every step of dials, closes, dying sockets and pruning keeps the ownership invariant |
| `SocketModel.NoSocketLeaks` | lib/turbo/turbo.go:353-437 | in every interleaving, a socket not marked closed is its bot's one registered socket and pinged, or held by a goroutine about to register or close it, and never both |
| `SocketModel.OnlyCloseHotRemovesLive` | lib/turbo/turbo.go:408-433 | no step but CloseHot takes a live socket away from its bot |
| `SocketModel.LiveStays` | lib/turbo/turbo.go:353-437 | over every run without CloseHot(k), k keeps its live socket until that socket itself is closed |
| `SocketModel.ClosedUntilOpened` | lib/turbo/turbo.go:427-437 | after CloseHot(k), whatever dials are in flight, no socket is registered for k until OpenHot(k) |
| `SocketLiveness.OpenHotExact` | lib/turbo/turbo.go:354-364 | a dial starts exactly when the bot has no live socket and none on its way |
| `SocketLiveness.RegisterKeepsWanted` | lib/turbo/turbo.go:408-422 | in every state that keeps the invariant, an open dialed socket of a bot that is wanted and has no live one becomes that bot's socket, live and pinged |
| `SocketLiveness.RegisterRejects` | lib/turbo/turbo.go:408-419 | any other dialed socket is not registered, and is in line to be closed |
| `SocketLiveness.WantedGetsSocket` | lib/turbo/turbo.go:354-422 | from an OpenHot that starts a dial, through any interleaving without CloseHot of that bot, without an older dial of it, and in which dial and socket do not fail, Register leaves the bot with that socket, live and pinged |
| `SocketLiveness.DialedAgain` | lib/turbo/turbo.go:400-402 | after a failed dial, whatever else happens, the next OpenHot of that bot starts a new one exactly when it has no live socket |
| `SocketLiveness.CloseHotCloses` | lib/turbo/turbo.go:427-437 | once a CloseHot has run to its end, in any interleaving, the socket the bot had is closed and not pinged |
| `SocketLiveness.DeadSocketGoes` | lib/turbo/turbo.go:376-386 | once the onClose of a socket that died has run, it is nobody's registered socket; a live one in its place stays |
| `SocketEngine.Engine.OpenHot` | lib/turbo/turbo.go:354-364 | takes the model's OpenHot step, and starts a dial exactly when the bot has no live socket and none on its way |
| `SocketEngine.Engine.DialOk` | lib/turbo/turbo.go:392-393 | takes the model's DialOk step: a new socket, open and in the hands of its dial alone |
| `SocketEngine.Engine.DialFailed` | lib/turbo/turbo.go:400-402 | takes the model's DialFailed step, so that the bot can be dialed again (`SocketLiveness.DialedAgain`) |
| `SocketEngine.Engine.Register` | lib/turbo/turbo.go:408-422 | takes the model's Register step: keeps the socket exactly when it is still wanted and no live one is there (`SocketLiveness.RegisterKeepsWanted`, `SocketLiveness.RegisterRejects`) |
| `SocketEngine.Engine.CloseRejected` | lib/turbo/turbo.go:409-419 | takes the model's CloseRejected step |
| `SocketEngine.Engine.CloseHot` | lib/turbo/turbo.go:428-432 | takes the model's CloseHot step, and returns the bot's socket, if it had one |
| `SocketEngine.Engine.Unwheel` | lib/turbo/turbo.go:433-434 | takes the model's Unwheel step |
| `SocketEngine.Engine.CloseConn` | lib/turbo/turbo.go:435-435 | takes the model's CloseConn step |
| `SocketEngine.Engine.Die` | lib/ws/conn.go:87-88 | takes the model's Die step |
| `SocketEngine.Engine.OnClose` | lib/turbo/turbo.go:376-386 | takes the model's OnClose step: only a socket that is still registered counts as an unexpected death |
| `SocketEngine.Engine.VisitOne` | lib/ws/pingwheel.go:64-68 | one socket of a tick: pinged when open; pruned when marked closed, and that is the model's Prune step |
| `SocketEngine.Engine.Tick` | lib/ws/pingwheel.go:57-69 | a tick pings the open sockets of a snapshot, prunes exactly those marked closed, and is a run of Prune steps |

## Left out

- HTTP, WebSocket and Redis themselves, dialing, TLS, authentication, session caching and `SyncClans`: network plumbing; a dial is a step that succeeds or fails, a store command one that takes effect or fails before it does.
- TTL expiry: the delivery results are for entries that do not expire.
- Insertion scores that repeat or step back: the id set is ordered by the wall clock that `Seen` reads (`lib/state/state.go:57`), and at-most-once delivery rests on those scores being strictly increasing; the model keeps the set as a list in insertion order.
- A Redis command that reports an error after it took effect: in the classes a failing command leaves the store as it was, except that trimming fails after its id was recorded.
- JSON printing of the content blob and of mentions, attachments and references: they stay records, and an empty list stands for no JSON.
- Bytes that are not valid UTF-8 in message text: Go's rune iteration and regular expressions would see U+FFFD there.
- The regexp, sort, heap, strconv and protowire packages as code: their contracts are modelled, with ties and map order left open; `ScoreHeap` has container/heap's sift-down.
- float64 rounding: scores and rates are reals.
- Wrap-around of request ids at 2^64 and of message lengths beyond Go's int.
- Wall clocks and the runtime's heap gauge: time and memory are inputs of each operation; `Tick`, `MemLowMB` and the ticker loop in `Run` only decide when a pass happens.
- When the actions of a pass are applied: they run outside the manager's lock, so the results are about emission order; opens may come before closes within a pass.
- What comes between two sockets of one tick: `SocketEngine.Engine.Tick` visits them one after the other with nothing in between; each visit is one Prune step, and `SocketModel` covers all interleavings of those.
- Reconnect liveness: a socket that dies between its dial and its registration is registered dead and is not dialed again; `SocketLiveness.WantedGetsSocket` is for sockets that live until then.
- The rate limiter beyond its error, the worker semaphore, panic recovery, logging, `AddChannel` and the persisted tier: no property beyond the callback returning.
- `lib/rest`: its walkers repeat those of `lib/ws`.
- `TierOf`, `HasJoined`, `Len` and other accessors: they would add only easy members.
- TierRun.ReachableInv: does not cover `ForceTier` to Hot, which the engine never asks for; the manager would then count a socket that nobody opened.
- Poller.Bot.PollOnce: the class has no interference inside one poll; interleaving with other polls and frames is covered by `Delivery`, whose steps it takes.
- Delivery.NothingSkipped: takes from the lister that a new cursor covers exactly the returned page; the REST client that provides this is not part of this model.
