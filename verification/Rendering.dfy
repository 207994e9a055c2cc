/**
  From kept entities to clean text and UTF-16 spans, and back: the spans cut out
  exactly the entity bodies, and nothing of the message is lost.
 */
module Rendering {
  import opened Utf16
  import opened Markdown
  import opened Entities

  datatype SpanType = Entity(kind: Kind) | Link

  datatype MarkSpan = MarkSpan(s: nat, e: nat, of: SpanType)

  function Marker(kind: Kind): string {
    if kind.Bold? then "**" else ""
  }

  /** What the event spans is its body between its markers. */
  ghost predicate IsCut(text: string, ev: Event) {
    ev.s < ev.e <= |text| && text[ev.s..ev.e] == Marker(ev.kind) + ev.body + Marker(ev.kind)
  }

  /** Events from `pos` on, in order and apart. */
  ghost predicate Cuts(text: string, kept: seq<Event>, pos: int) {
    && 0 <= pos <= |text|
    && (forall ev <- kept :: pos <= ev.s && IsCut(text, ev))
    && InOrder(kept)
  }

  ghost predicate InOrder(kept: seq<Event>) {
    forall i, j :: 0 <= i < j < |kept| ==> kept[i].e <= kept[j].s
  }

  lemma CutsTail(text: string, kept: seq<Event>, pos: int)
    requires Cuts(text, kept, pos) && kept != []
    ensures pos <= kept[0].s < kept[0].e <= |text| && Cuts(text, kept[1..], kept[0].e)
  {
    assert kept[0] in kept;
    forall ev <- kept[1..] ensures kept[0].e <= ev.s && IsCut(text, ev) {
      var j :| 0 <= j < |kept[1..]| && kept[1..][j] == ev;
      assert kept[j + 1] == ev;
    }
  }

  // ----- what is emitted -----

  /** text[s..e]; a slice that Go would reject never comes up, since events are cuts. */
  function Between(text: string, s: int, e: int): string {
    if 0 <= s <= e <= |text| then text[s..e] else ""
  }

  /** The rest of the clean text once everything before `pos` is out. */
  function Assemble(text: string, kept: seq<Event>, pos: int): string {
    if kept == [] then Between(text, pos, |text|)
    else Between(text, pos, kept[0].s) + kept[0].body + Assemble(text, kept[1..], kept[0].e)
  }

  /** The spans of `kept`, when `out` code units have been emitted so far. */
  function SpansOf(text: string, kept: seq<Event>, pos: int, out: nat): (spans: seq<MarkSpan>)
    ensures |spans| == |kept|
  {
    if kept == [] then []
    else
      var start := out + |Encode(Between(text, pos, kept[0].s))|;
      var end := start + |Encode(kept[0].body)|;
      [MarkSpan(start, end, Entity(kept[0].kind))] + SpansOf(text, kept[1..], kept[0].e, end)
  }

  /** The units of everything from `pos` on, split where the first event is. */
  lemma AssembleUnits(text: string, kept: seq<Event>, pos: int)
    requires kept != []
    ensures Encode(Assemble(text, kept, pos))
         == Encode(Between(text, pos, kept[0].s)) + Encode(kept[0].body) + Encode(Assemble(text, kept[1..], kept[0].e))
  {
    var a, b, c := Between(text, pos, kept[0].s), kept[0].body, Assemble(text, kept[1..], kept[0].e);
    EncodeConcat(a + b, c);
    EncodeConcat(a, b);
  }

  // ----- spans cut out bodies -----

  /** `spans` lie in order and apart within `units[lo..]`. */
  ghost predicate SpansIn(units: seq<Unit>, spans: seq<MarkSpan>, lo: int) {
    && 0 <= lo <= |units|
    && (forall m <- spans :: lo <= m.s <= m.e <= |units|)
    && (forall i, j :: 0 <= i < j < |spans| ==> spans[i].e <= spans[j].s)
  }

  lemma SpansInCons(units: seq<Unit>, m: MarkSpan, rest: seq<MarkSpan>, lo: int)
    requires 0 <= lo <= m.s <= m.e <= |units| && SpansIn(units, rest, m.e)
    ensures SpansIn(units, [m] + rest, lo)
  {
    var spans := [m] + rest;
    forall i, j | 0 <= i < j < |spans| ensures spans[i].e <= spans[j].s {
      assert spans[j] == rest[j - 1] && rest[j - 1] in rest;
    }
  }

  lemma SpansInTail(units: seq<Unit>, spans: seq<MarkSpan>, lo: int)
    requires SpansIn(units, spans, lo) && spans != []
    ensures lo <= spans[0].s <= spans[0].e <= |units| && SpansIn(units, spans[1..], spans[0].e)
  {
    assert spans[0] in spans;
    forall m <- spans[1..] ensures spans[0].e <= m.s <= m.e <= |units| {
      var j :| 0 <= j < |spans[1..]| && spans[1..][j] == m;
      assert spans[j + 1] == m && m in spans;
    }
  }

  /** Span i of the clean text is the UTF-16 encoding of the body of entity i, and nothing else. */
  ghost predicate CutsBodies(units: seq<Unit>, spans: seq<MarkSpan>, kept: seq<Event>) {
    && |spans| == |kept|
    && forall i :: 0 <= i < |spans| ==>
         && spans[i].of == Entity(kept[i].kind)
         && spans[i].s <= spans[i].e <= |units|
         && units[spans[i].s..spans[i].e] == Encode(kept[i].body)
  }

  lemma Slices(a: seq<Unit>, b: seq<Unit>, c: seq<Unit>, d: seq<Unit>)
    ensures var u := a + (b + c + d);
            && u == (a + b + c) + d
            && u[|a|..|a| + |b|] == b
            && u[|a| + |b|..|a| + |b| + |c|] == c
  {}

  lemma CutsBodiesCons(units: seq<Unit>, m: MarkSpan, rest: seq<MarkSpan>, kept: seq<Event>)
    requires kept != [] && CutsBodies(units, rest, kept[1..])
    requires m.of == Entity(kept[0].kind) && m.s <= m.e <= |units| && units[m.s..m.e] == Encode(kept[0].body)
    ensures CutsBodies(units, [m] + rest, kept)
  {
    var spans := [m] + rest;
    forall i | 0 <= i < |spans|
      ensures spans[i].of == Entity(kept[i].kind) && spans[i].s <= spans[i].e <= |units|
      ensures units[spans[i].s..spans[i].e] == Encode(kept[i].body)
    {
      if i > 0 {
        assert spans[i] == rest[i - 1] && kept[i] == kept[1..][i - 1];
      }
    }
  }

  /** The first event splits the units and the spans in the same place. */
  lemma SplitAtFirst(text: string, kept: seq<Event>, pos: int, before: seq<Unit>)
    returns (gap: seq<Unit>, body: seq<Unit>, m: MarkSpan)
    requires kept != []
    ensures gap == Encode(Between(text, pos, kept[0].s)) && body == Encode(kept[0].body)
    ensures m == MarkSpan(|before| + |gap|, |before| + |gap| + |body|, Entity(kept[0].kind))
    ensures var units, next := before + Encode(Assemble(text, kept, pos)), before + gap + body;
            && units == next + Encode(Assemble(text, kept[1..], kept[0].e))
            && m.e <= |units| && units[|before|..m.s] == gap && units[m.s..m.e] == body
    ensures SpansOf(text, kept, pos, |before|) == [m] + SpansOf(text, kept[1..], kept[0].e, |before + gap + body|)
  {
    gap, body := Encode(Between(text, pos, kept[0].s)), Encode(kept[0].body);
    m := MarkSpan(|before| + |gap|, |before| + |gap| + |body|, Entity(kept[0].kind));
    var tail := Encode(Assemble(text, kept[1..], kept[0].e));
    assert Encode(Assemble(text, kept, pos)) == gap + body + tail by {
      AssembleUnits(text, kept, pos);
    }
    Slices(before, gap, body, tail);
  }

  lemma {:induction false} SpansCutBodies(text: string, kept: seq<Event>, pos: int, before: seq<Unit>)
    requires Cuts(text, kept, pos)
    ensures var units, spans := before + Encode(Assemble(text, kept, pos)), SpansOf(text, kept, pos, |before|);
            SpansIn(units, spans, |before|) && CutsBodies(units, spans, kept)
    decreases |kept|
  {
    if kept != [] {
      var units := before + Encode(Assemble(text, kept, pos));
      CutsTail(text, kept, pos);
      var gap, body, m := SplitAtFirst(text, kept, pos, before);
      var rest := SpansOf(text, kept[1..], kept[0].e, |before + gap + body|);
      SpansCutBodies(text, kept[1..], kept[0].e, before + gap + body);
      SpansInCons(units, m, rest, |before|);
      CutsBodiesCons(units, m, rest, kept);
    }
  }

  // ----- nothing is lost -----

  /** Put the markers of every bold span back. */
  function Reinsert(units: seq<Unit>, spans: seq<MarkSpan>, pos: int): seq<Unit>
    requires SpansIn(units, spans, pos)
    decreases spans
  {
    if spans == [] then units[pos..]
    else
      SpansInTail(units, spans, pos);
      var m := spans[0];
      var stars := if m.of == Entity(Bold) then Encode("**") else [];
      units[pos..m.s] + stars + units[m.s..m.e] + stars + Reinsert(units, spans[1..], m.e)
  }

  lemma EncodeConcat3(a: string, b: string, c: string)
    ensures Encode(a + b + c) == Encode(a) + Encode(b) + Encode(c)
  {
    EncodeConcat(a + b, c);
    EncodeConcat(a, b);
  }

  lemma Flatten(a: seq<Unit>, m: seq<Unit>, b: seq<Unit>, c: seq<Unit>)
    ensures a + (m + b + m) + c == a + m + b + m + c
  {}

  lemma EncodeMarked(a: string, m: string, b: string, c: string)
    ensures Encode(a + (m + b + m) + c) == Encode(a) + Encode(m) + Encode(b) + Encode(m) + Encode(c)
  {
    EncodeConcat3(a, m + b + m, c);
    EncodeConcat3(m, b, m);
    Flatten(Encode(a), Encode(m), Encode(b), Encode(c));
  }

  lemma SourceUnits(text: string, ev: Event, pos: int)
    requires 0 <= pos <= ev.s && IsCut(text, ev)
    ensures var stars := Stars(ev.kind);
            Encode(text[pos..]) == Encode(Between(text, pos, ev.s)) + stars + Encode(ev.body) + stars
                + Encode(text[ev.e..])
  {
    var mark := Marker(ev.kind);
    assert text[pos..] == text[pos..ev.s] + text[ev.s..ev.e] + text[ev.e..];
    EncodeMarked(text[pos..ev.s], mark, ev.body, text[ev.e..]);
  }

  lemma ReinsertCons(units: seq<Unit>, m: MarkSpan, rest: seq<MarkSpan>, pos: int)
    requires 0 <= pos <= m.s <= m.e <= |units| && SpansIn(units, rest, m.e)
    ensures SpansIn(units, [m] + rest, pos)
    ensures var stars := if m.of == Entity(Bold) then Encode("**") else [];
            Reinsert(units, [m] + rest, pos) == units[pos..m.s] + stars + units[m.s..m.e] + stars
                + Reinsert(units, rest, m.e)
  {
    SpansInCons(units, m, rest, pos);
    assert ([m] + rest)[1..] == rest;
  }

  function Stars(kind: Kind): seq<Unit> {
    Encode(Marker(kind))
  }

  /** Putting the first span's markers back, once the rest is known. */
  lemma Stitch(units: seq<Unit>, before: seq<Unit>, gap: seq<Unit>, body: seq<Unit>, kind: Kind, m: MarkSpan,
               rest: seq<MarkSpan>, tail: seq<Unit>)
    requires m == MarkSpan(|before| + |gap|, |before| + |gap| + |body|, Entity(kind)) && m.e <= |units|
    requires units[|before|..m.s] == gap && units[m.s..m.e] == body
    requires SpansIn(units, rest, m.e) && Reinsert(units, rest, m.e) == tail
    ensures SpansIn(units, [m] + rest, |before|)
    ensures Reinsert(units, [m] + rest, |before|) == gap + Stars(kind) + body + Stars(kind) + tail
  {
    ReinsertCons(units, m, rest, |before|);
  }

  lemma NothingToReinsert(text: string, pos: nat, before: seq<Unit>)
    requires pos <= |text|
    ensures var units := before + Encode(Assemble(text, [], pos));
            SpansIn(units, [], |before|) && Reinsert(units, [], |before|) == Encode(text[pos..])
  {
    assert Between(text, pos, |text|) == text[pos..];
  }

  lemma {:induction false} ReinsertRestores(text: string, kept: seq<Event>, pos: int, before: seq<Unit>)
    requires Cuts(text, kept, pos)
    ensures var units, spans := before + Encode(Assemble(text, kept, pos)), SpansOf(text, kept, pos, |before|);
            SpansIn(units, spans, |before|) && Reinsert(units, spans, |before|) == Encode(text[pos..])
    decreases |kept|
  {
    if kept == [] {
      NothingToReinsert(text, pos, before);
    } else {
      var ev, end := kept[0], kept[0].e;
      CutsTail(text, kept, pos);
      var gap, body, m := SplitAtFirst(text, kept, pos, before);
      ReinsertRestores(text, kept[1..], end, before + gap + body);
      Stitch(before + Encode(Assemble(text, kept, pos)), before, gap, body, ev.kind, m,
             SpansOf(text, kept[1..], end, |before + gap + body|), Encode(text[end..]));
      assert ev in kept;
      SourceUnits(text, ev, pos);
    }
  }

  function BoldCount(kept: seq<Event>): nat {
    if kept == [] then 0 else (if kept[0].kind.Bold? then 1 else 0) + BoldCount(kept[1..])
  }

  lemma {:induction false} AssembleLength(text: string, kept: seq<Event>, pos: int)
    requires Cuts(text, kept, pos)
    ensures |Assemble(text, kept, pos)| + 4 * BoldCount(kept) == |text| - pos
    decreases |kept|
  {
    if kept != [] {
      CutsTail(text, kept, pos);
      AssembleLength(text, kept[1..], kept[0].e);
      assert kept[0] in kept;
      assert |text[kept[0].s..kept[0].e]| == |kept[0].body| + 2 * |Marker(kept[0].kind)|;
    }
  }

  // ----- for every message -----

  lemma KeptCuts(text: string, kept: seq<Event>)
    requires IsKept(text, Parse(text), kept)
    ensures Cuts(text, kept, 0)
  {
    ParseWellLaid(text);
    var m := Parse(text);
    forall ev <- kept ensures IsCut(text, ev) {
      assert IsEvent(text, m, ev);
      EventIsCut(text, m, ev);
    }
  }

  lemma EventIsCut(text: string, m: Markup, ev: Event)
    requires WellLaid(text, m) && IsEvent(text, m, ev)
    ensures IsCut(text, ev)
  {
    if ev.kind.Bold? {
      assert Region(ev.s, ev.e) in m.bolds;
      assert text[ev.s..ev.e] == text[ev.s..ev.s + 2] + text[ev.s + 2..ev.e - 2] + text[ev.e - 2..ev.e - 2 + 2];
    }
  }

  /** The clean text of a message. */
  ghost function Clean(text: string): string {
    Assemble(text, Kept(text), 0)
  }

  /** Its entity spans. */
  ghost function Spans(text: string): seq<MarkSpan> {
    SpansOf(text, Kept(text), 0, 0)
  }

  /**
    Rendering loses nothing.  For every text, putting `**` back around the bold
    spans of the clean text, counted in UTF-16 units as a client counts them,
    gives the original; and the clean text is four characters shorter per bold.
   */
  lemma RenderingLossless(text: string)
    ensures SpansIn(Encode(Clean(text)), Spans(text), 0)
    ensures Decode(Reinsert(Encode(Clean(text)), Spans(text), 0)) == text
    ensures |Clean(text)| + 4 * BoldCount(Kept(text)) == |text|
  {
    var kept := Kept(text);
    KeptCuts(text, kept);
    ReinsertRestores(text, kept, 0, []);
    AssembleLength(text, kept, 0);
    assert [] + Encode(Clean(text)) == Encode(Clean(text)) && text[0..] == text;
    DecodeEncode(text);
  }

  /** Every span is in range and apart from the others, and cuts out exactly its entity's body. */
  lemma SpansExact(text: string)
    ensures SpansIn(Encode(Clean(text)), Spans(text), 0)
    ensures CutsBodies(Encode(Clean(text)), Spans(text), Kept(text))
  {
    KeptCuts(text, Kept(text));
    SpansCutBodies(text, Kept(text), 0, []);
    assert [] + Encode(Clean(text)) == Encode(Clean(text));
  }
}
