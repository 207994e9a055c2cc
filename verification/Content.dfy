/**
  The renderer as loops, and link spans.  Each method is proved against the
  scanners, the filter and the emit functions of the other content modules.
 */
module Content {
  import opened Utf16
  import opened Markdown
  import opened FencedBlocks
  import opened Entities
  import opened Rendering

  // ----- fenced blocks -----

  lemma {:induction false} LinesConsecutive(text: string, from: nat, i: nat)
    requires from <= |text| && i < |Lines(text, from)|
    ensures Lines(text, from)[0].s == from
    ensures i + 1 < |Lines(text, from)| ==> Lines(text, from)[i + 1].s == Lines(text, from)[i].e + 1
    decreases |text| - from
  {
    var j := SkipTo(text, from, "\n");
    if j < |text| {
      var rest := Lines(text, j + 1);
      assert Lines(text, from) == [Region(from, j)] + rest;
      if i == 0 {
        LinesConsecutive(text, j + 1, 0);
      } else {
        LinesConsecutive(text, j + 1, i - 1);
      }
    }
  }

  lemma FenceLinesCons(text: string, x: Region, rest: seq<Region>, own: seq<Region>)
    requires own == if IsFenceLine(text, x) then [x] else []
    ensures FenceLines(text, [x] + rest) == own + FenceLines(text, rest)
  {
    assert ([x] + rest)[1..] == rest;
  }

  lemma {:induction false} FenceLinesSnoc(text: string, lines: seq<Region>, x: Region)
    ensures FenceLines(text, lines + [x]) == FenceLines(text, lines) + if IsFenceLine(text, x) then [x] else []
    decreases |lines|
  {
    if lines == [] {
      assert lines + [x] == [x] + [];
      FenceLinesCons(text, x, [], if IsFenceLine(text, x) then [x] else []);
    } else {
      var first, rest := lines[0], lines[1..];
      var own := if IsFenceLine(text, first) then [first] else [];
      assert lines == [first] + rest && lines + [x] == [first] + (rest + [x]);
      FenceLinesCons(text, first, rest, own);
      FenceLinesCons(text, first, rest + [x], own);
      FenceLinesSnoc(text, rest, x);
    }
  }

  lemma {:induction false} PairsSnoc(lines: seq<Region>, x: Region)
    ensures Pairs(lines + [x])
         == Pairs(lines) + if |lines| % 2 == 1 then [Region(lines[|lines| - 1].s, x.e)] else []
  {
    if |lines| >= 2 {
      assert (lines + [x])[2..] == lines[2..] + [x];
      PairsSnoc(lines[2..], x);
    }
  }

  /** After the lines `seen`: the closed blocks, and where an open one starts (-1 for none). */
  ghost predicate PairedSoFar(text: string, seen: seq<Region>, open: int, regions: seq<Region>) {
    var fl := FenceLines(text, seen);
    regions == Pairs(fl) && open == if |fl| % 2 == 1 then fl[|fl| - 1].s else -1
  }

  lemma PairOneMore(text: string, seen: seq<Region>, line: Region, open: int, regions: seq<Region>)
    requires PairedSoFar(text, seen, open, regions)
    ensures open >= -1
    ensures !IsFenceLine(text, line) ==> PairedSoFar(text, seen + [line], open, regions)
    ensures IsFenceLine(text, line) && open < 0 ==> PairedSoFar(text, seen + [line], line.s, regions)
    ensures IsFenceLine(text, line) && open >= 0
            ==> PairedSoFar(text, seen + [line], -1, regions + [Region(open, line.e)])
  {
    var fl := FenceLines(text, seen);
    FenceLinesSnoc(text, seen, line);
    PairsSnoc(fl, line);
    assert fl + [] == fl && regions + [] == regions;
  }

  lemma PairedAll(text: string, open: int, regions: seq<Region>)
    requires PairedSoFar(text, Lines(text, 0), open, regions)
    ensures regions == Fences(text) && AreBlocks(text, regions)
  {
    FencesAreBlocks(text);
  }

  /** Regions of closed fenced blocks; an unclosed fence is left alone. */
  method FenceRegions(text: string) returns (regions: seq<Region>)
    ensures regions == Fences(text)
    ensures AreBlocks(text, regions)
  {
    var lines := Lines(text, 0);
    LinesWhole(text, 0);
    regions := [];
    var offset, open := 0, -1;
    LinesConsecutive(text, 0, 0);
    for i := 0 to |lines|
      invariant i < |lines| ==> offset == lines[i].s
      invariant PairedSoFar(text, lines[..i], open, regions)
    {
      var line := lines[i];
      assert line in lines && lines[..i + 1] == lines[..i] + [line];
      LinesConsecutive(text, 0, i);
      open, regions := PairLine(text, lines[..i], line, offset, open, regions);
      offset := offset + (line.e - line.s) + 1;
    }
    assert lines[..|lines|] == lines;
    PairedAll(text, open, regions);
  }

  /** One line of the loop above: it opens a block, closes one, or does neither. */
  method PairLine(text: string, ghost seen: seq<Region>, line: Region, offset: nat, open: int, regions: seq<Region>)
    returns (open': int, regions': seq<Region>)
    requires PairedSoFar(text, seen, open, regions) && line.s == offset && line.e <= |text| && line.s <= line.e
    ensures PairedSoFar(text, seen + [line], open', regions')
  {
    PairOneMore(text, seen, line, open, regions);
    open', regions' := open, regions;
    if IsFenceLine(text, line) {
      if open < 0 {
        open' := offset;
      } else {
        regions' := regions + [Region(open, offset + (line.e - line.s))];
        open' := -1;
      }
    }
  }

  method IsInside(pos: int, regions: seq<Region>) returns (b: bool)
    ensures b == Inside(pos, regions)
  {
    for i := 0 to |regions|
      invariant forall r <- regions[..i] :: !(r.s <= pos < r.e)
    {
      if regions[i].s <= pos < regions[i].e {
        return true;
      }
    }
    assert regions[..|regions|] == regions;
    return false;
  }

  lemma {:induction false} UnmaskedSnoc(rs: seq<Region>, x: Region, mask: seq<Region>, bothEnds: bool)
    ensures Unmasked(rs + [x], mask, bothEnds)
         == Unmasked(rs, mask, bothEnds)
            + if Inside(x.s, mask) || (bothEnds && Inside(x.e - 1, mask)) then [] else [x]
  {
    if rs == [] {
      assert rs + [x] == [x];
    } else {
      assert (rs + [x])[0] == rs[0] && (rs + [x])[1..] == rs[1..] + [x];
      UnmaskedSnoc(rs[1..], x, mask, bothEnds);
    }
  }

  /** The matches that do not start (nor, for bold, end) in a masked region. */
  method KeepUnmasked(locs: seq<Region>, mask: seq<Region>, bothEnds: bool) returns (r: seq<Region>)
    ensures r == Unmasked(locs, mask, bothEnds)
  {
    r := [];
    for i := 0 to |locs|
      invariant r == Unmasked(locs[..i], mask, bothEnds)
    {
      assert locs[..i + 1] == locs[..i] + [locs[i]];
      UnmaskedSnoc(locs[..i], locs[i], mask, bothEnds);
      var starts := IsInside(locs[i].s, mask);
      var ends := IsInside(locs[i].e - 1, mask);
      if !(starts || (bothEnds && ends)) {
        r := r + [locs[i]];
      }
    }
    assert locs[..|locs|] == locs;
  }

  // ----- ordering and filtering events -----

  lemma InsertedAt(r: seq<Event>, ev: Event, j: nat)
    requires j <= |r|
    ensures multiset(r[..j] + [ev] + r[j..]) == multiset(r) + multiset{ev}
  {
    assert r == r[..j] + r[j..];
  }

  method InsertByStart(r: seq<Event>, ev: Event) returns (r': seq<Event>)
    requires SortedByStart(r)
    ensures multiset(r') == multiset(r) + multiset{ev} && SortedByStart(r')
  {
    var j := 0;
    while j < |r| && r[j].s <= ev.s
      invariant 0 <= j <= |r| && forall l :: 0 <= l < j ==> r[l].s <= ev.s
    {
      j := j + 1;
    }
    InsertedAt(r, ev, j);
    r' := r[..j] + [ev] + r[j..];
  }

  /** Some order by start; the contract leaves ties open, as an unstable sort does. */
  method SortEvents(events: seq<Event>) returns (r: seq<Event>)
    ensures multiset(r) == multiset(events) && SortedByStart(r)
  {
    r := [];
    for i := 0 to |events|
      invariant multiset(r) == multiset(events[..i]) && SortedByStart(r)
    {
      r := InsertByStart(r, events[i]);
      assert events[..i + 1] == events[..i] + [events[i]];
    }
    assert events[..|events|] == events;
  }

  method FilterOverlapping(events: seq<Event>) returns (kept: seq<Event>)
    ensures kept == DropOverlapping(events, -1)
  {
    kept := [];
    var end: int := -1;
    var i := 0;
    while i < |events|
      invariant 0 <= i <= |events|
      invariant DropOverlapping(events, -1) == kept + DropOverlapping(events[i..], end)
    {
      var ev := events[i];
      assert events[i..][0] == ev && events[i..][1..] == events[i + 1..];
      i := i + 1;
      if ev.s < end {
        continue;
      }
      assert kept + ([ev] + DropOverlapping(events[i..], ev.e)) == kept + [ev] + DropOverlapping(events[i..], ev.e);
      kept := kept + [ev];
      end := ev.e;
    }
    assert kept + [] == kept;
  }

  // ----- emitting -----

  /** What the emit loop has written so far. */
  datatype Emission = Emission(clean: string, spans: seq<MarkSpan>, pos: nat, out: nat) {
    /** The emission after one more event. */
    function Next(text: string, ev: Event): Emission {
      var start := out + |Encode(Between(text, pos, ev.s))|;
      var end := start + |Encode(ev.body)|;
      Emission(clean + Between(text, pos, ev.s) + ev.body, spans + [MarkSpan(start, end, Entity(ev.kind))], ev.e, end)
    }

    /** Finishing with the events `rest` gives the whole result. */
    ghost predicate LeadsTo(text: string, rest: seq<Event>, whole: string, all: seq<MarkSpan>) {
      && Cuts(text, rest, pos)
      && clean + Assemble(text, rest, pos) == whole
      && spans + SpansOf(text, rest, pos, out) == all
    }
  }

  lemma RegroupFour<T>(a: seq<T>, b: seq<T>, c: seq<T>, d: seq<T>)
    ensures a + (b + c + d) == a + b + c + d
  {}

  lemma Prepend<T>(a: seq<T>, x: T, b: seq<T>)
    ensures a + ([x] + b) == a + [x] + b
  {}

  lemma TextGoesOn(text: string, rest: seq<Event>, e: Emission)
    requires rest != []
    ensures e.Next(text, rest[0]).clean + Assemble(text, rest[1..], rest[0].e) == e.clean + Assemble(text, rest, e.pos)
  {
    RegroupFour(e.clean, Between(text, e.pos, rest[0].s), rest[0].body, Assemble(text, rest[1..], rest[0].e));
  }

  lemma SpansGoOn(text: string, rest: seq<Event>, e: Emission)
    requires rest != []
    ensures var next := e.Next(text, rest[0]);
            next.spans + SpansOf(text, rest[1..], next.pos, next.out) == e.spans + SpansOf(text, rest, e.pos, e.out)
  {
    var next := e.Next(text, rest[0]);
    Prepend(e.spans, MarkSpan(e.out + |Encode(Between(text, e.pos, rest[0].s))|, next.out, Entity(rest[0].kind)),
            SpansOf(text, rest[1..], next.pos, next.out));
  }

  lemma EmitOneMore(text: string, rest: seq<Event>, e: Emission, whole: string, all: seq<MarkSpan>)
    requires e.LeadsTo(text, rest, whole, all) && rest != []
    ensures e.pos <= rest[0].s < rest[0].e <= |text|
    ensures e.Next(text, rest[0]).LeadsTo(text, rest[1..], whole, all)
  {
    CutsTail(text, rest, e.pos);
    TextGoesOn(text, rest, e);
    SpansGoOn(text, rest, e);
  }

  lemma EmitDone(text: string, e: Emission, whole: string, all: seq<MarkSpan>)
    requires e.LeadsTo(text, [], whole, all)
    ensures e.pos <= |text| && e.clean + text[e.pos..] == whole && e.spans == all
  {
    assert e.spans + [] == e.spans;
  }

  /** Write one event: the text since the last one, then its body, counting UTF-16 units. */
  method EmitEvent(text: string, e: Emission, ev: Event) returns (next: Emission)
    requires e.pos <= ev.s <= |text|
    ensures next == e.Next(text, ev)
  {
    var b, outU16 := e.clean + text[e.pos..ev.s], e.out;
    var gapLen := Utf16Len(text[e.pos..ev.s]);
    outU16 := outU16 + gapLen;
    var start := outU16;
    b := b + ev.body;
    var bodyLen := Utf16Len(ev.body);
    outU16 := outU16 + bodyLen;
    next := Emission(b, e.spans + [MarkSpan(start, outU16, Entity(ev.kind))], ev.e, outU16);
  }

  method Emit(text: string, kept: seq<Event>) returns (clean: string, spans: seq<MarkSpan>)
    requires Cuts(text, kept, 0)
    ensures clean == Assemble(text, kept, 0) && spans == SpansOf(text, kept, 0, 0)
  {
    ghost var whole, all := Assemble(text, kept, 0), SpansOf(text, kept, 0, 0);
    var e := Emission("", [], 0, 0);
    assert kept[0..] == kept;
    for i := 0 to |kept|
      invariant e.LeadsTo(text, kept[i..], whole, all)
    {
      assert kept[i..][0] == kept[i] && kept[i..][1..] == kept[i + 1..];
      EmitOneMore(text, kept[i..], e, whole, all);
      e := EmitEvent(text, e, kept[i]);
    }
    EmitDone(text, e, whole, all);
    clean, spans := e.clean + text[e.pos..], e.spans;
  }

  /** The events of a laid-out message, ordered, filtered and written out. */
  method RenderEvents(text: string, m: Markup) returns (clean: string, spans: seq<MarkSpan>)
    requires m == Parse(text) && WellLaid(text, m)
    ensures clean == Clean(text) && spans == Spans(text)
  {
    var sorted := SortEvents(Events(text, m));
    FilterExact(text, m, sorted);
    var kept := FilterOverlapping(sorted);
    KeptIs(text, kept);
    KeptCuts(text, kept);
    clean, spans := Emit(text, kept);
  }

  lemma NothingToRender(text: string)
    requires WellLaid(text, Parse(text)) && (text == "" || Events(text, Parse(text)) == [])
    ensures Clean(text) == text && Spans(text) == []
  {
    EventsAre(text, Parse(text));
    assert IsKept(text, Parse(text), []);
    KeptIs(text, []);
  }

  /** The clean text and the entity spans of a message. */
  method MarkdownSpans(text: string) returns (clean: string, spans: seq<MarkSpan>)
    ensures clean == Clean(text) && spans == Spans(text)
  {
    ParseWellLaid(text);
    if text == "" {
      NothingToRender(text);
      return text, [];
    }
    var fences := FenceRegions(text);
    var inline := KeepUnmasked(FindAll(CodePattern, text, 0), fences, false);
    var bolds := KeepUnmasked(FindAll(BoldPattern, text, 0), fences + inline, true);
    var m := Markup(fences, inline, bolds);
    if Events(text, m) == [] {
      NothingToRender(text);
      return text, [];
    }
    clean, spans := RenderEvents(text, m);
  }
}
