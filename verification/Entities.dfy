/**
  Which entities a message carries: how fences, inline code and bold overlap,
  and exactly what the overlap filter keeps.
 */
module Entities {
  import opened Markdown
  import opened Sequences

  datatype Kind = Triple | Single | Bold

  /** The marked-up regions of a text, by kind. */
  datatype Markup = Markup(fences: seq<Region>, codes: seq<Region>, bolds: seq<Region>) {
    function Of(kind: Kind): seq<Region> {
      match kind
      case Triple => fences
      case Single => codes
      case Bold => bolds
    }
  }

  /** Inline code must start outside fences; bold must start and end outside both. */
  function Parse(text: string): Markup {
    var fences := Fences(text);
    var codes := Unmasked(FindAll(CodePattern, text, 0), fences, false);
    Markup(fences, codes, Unmasked(FindAll(BoldPattern, text, 0), fences + codes, true))
  }

  function Unmasked(rs: seq<Region>, mask: seq<Region>, bothEnds: bool): (r: seq<Region>)
    ensures forall x :: x in r <==> x in rs && !Inside(x.s, mask) && !(bothEnds && Inside(x.e - 1, mask))
  {
    if rs == [] then []
    else if Inside(rs[0].s, mask) || (bothEnds && Inside(rs[0].e - 1, mask)) then Unmasked(rs[1..], mask, bothEnds)
    else [rs[0]] + Unmasked(rs[1..], mask, bothEnds)
  }

  lemma ApartCons(r: Region, rest: seq<Region>, lo: int, hi: int)
    requires Apart(rest, lo, hi) && lo <= r.s < r.e <= hi && forall x <- rest :: r.e <= x.s
    ensures Apart([r] + rest, lo, hi)
  {}

  lemma {:induction false} UnmaskedApart(rs: seq<Region>, mask: seq<Region>, bothEnds: bool, lo: int, hi: int)
    requires Apart(rs, lo, hi)
    ensures Apart(Unmasked(rs, mask, bothEnds), lo, hi)
  {
    if rs != [] {
      UnmaskedApart(rs[1..], mask, bothEnds, lo, hi);
      ApartCons(rs[0], Unmasked(rs[1..], mask, bothEnds), lo, hi);
    }
  }

  // ----- how regions overlap -----

  predicate Disjoint(a: Region, b: Region) {
    a.e <= b.s || b.e <= a.s
  }

  predicate Within(inner: Region, outer: Region) {
    outer.s < inner.s && inner.e < outer.e
  }

  /** Fences touch nothing else; an inline code and a bold are apart, or the code lies inside the bold. */
  ghost predicate WellLaid(text: string, m: Markup) {
    && Apart(m.fences, 0, |text|) && Apart(m.codes, 0, |text|) && Apart(m.bolds, 0, |text|)
    && (forall f <- m.fences, c <- m.codes :: Disjoint(f, c))
    && (forall f <- m.fences, b <- m.bolds :: Disjoint(f, b))
    && (forall c <- m.codes, b <- m.bolds :: Disjoint(b, c) || Within(c, b))
    && (forall b <- m.bolds :: b.s + 4 < b.e && At(text, b.s, "**") && At(text, b.e - 2, "**"))
  }

  ghost predicate NoNewline(text: string, r: Region) {
    r.s < r.e <= |text| && forall k :: r.s <= k < r.e ==> text[k] != '\n'
  }

  lemma MatchNoNewline(p: Pattern, text: string, r: Region)
    requires !p.UrlPattern? && IsMatch(p, text, r.s, r.e)
    ensures NoNewline(text, r)
  {
    if p.BoldPattern? {
      assert text[r.s] == text[r.s..r.s + 2][0] && text[r.s + 1] == text[r.s..r.s + 2][1];
      assert text[r.e - 2] == text[r.e - 2..r.e - 2 + 2][0] && text[r.e - 1] == text[r.e - 2..r.e - 2 + 2][1];
      forall k | r.s <= k < r.e ensures text[k] != '\n' {
        assert k == r.s || k == r.s + 1 || r.s + 2 <= k < r.e - 2 || k == r.e - 2 || k == r.e - 1;
      }
    } else {
      forall k | r.s <= k < r.e ensures text[k] != '\n' {
        assert k == r.s || r.s + 1 <= k < r.e - 1 || k == r.e - 1;
      }
    }
  }

  lemma LineBreakOutside(text: string, r: Region, k: nat)
    requires NoNewline(text, r) && k < |text| && text[k] == '\n'
    ensures !(r.s <= k < r.e)
  {}

  /** A one-line region that does not start in a whole-line region does not touch it. */
  lemma OneLineMissesFence(text: string, r: Region, fence: Region)
    requires NoNewline(text, r) && LineStart(text, fence.s)
    requires !(fence.s <= r.s < fence.e)
    ensures Disjoint(fence, r)
  {
    if fence.s > 0 {
      LineBreakOutside(text, r, fence.s - 1);
    }
  }

  /** If neither end of `a` lies in `b`, they are apart or `b` lies strictly inside `a`. */
  lemma EndsOutside(a: Region, b: Region)
    requires a.s < a.e && b.s < b.e
    requires !(b.s <= a.s < b.e) && !(b.s <= a.e - 1 < b.e)
    ensures Disjoint(a, b) || Within(b, a)
  {}

  lemma MatchesOf(p: Pattern, text: string)
    requires !p.UrlPattern?
    ensures Apart(FindAll(p, text, 0), 0, |text|)
    ensures forall r <- FindAll(p, text, 0) :: NoNewline(text, r) && IsMatch(p, text, r.s, r.e)
  {
    FindAllExact(p, text);
    forall r <- FindAll(p, text, 0) ensures NoNewline(text, r) {
      MatchNoNewline(p, text, r);
    }
  }

  lemma NotInside(pos: int, mask: seq<Region>, r: Region)
    requires !Inside(pos, mask) && r in mask
    ensures !(r.s <= pos < r.e)
  {}

  lemma ParseWellLaid(text: string)
    ensures WellLaid(text, Parse(text))
  {
    var fences, codeRE, boldRE := Fences(text), FindAll(CodePattern, text, 0), FindAll(BoldPattern, text, 0);
    var codes := Unmasked(codeRE, fences, false);
    var bolds := Unmasked(boldRE, fences + codes, true);
    FencesWhole(text);
    MatchesOf(CodePattern, text);
    MatchesOf(BoldPattern, text);
    UnmaskedApart(codeRE, fences, false, 0, |text|);
    UnmaskedApart(boldRE, fences + codes, true, 0, |text|);
    forall f <- fences, c <- codes ensures Disjoint(f, c) {
      NotInside(c.s, fences, f);
      OneLineMissesFence(text, c, f);
    }
    forall f <- fences, b <- bolds ensures Disjoint(f, b) {
      NotInside(b.s, fences + codes, f);
      OneLineMissesFence(text, b, f);
    }
    forall c <- codes, b <- bolds ensures Disjoint(b, c) || Within(c, b) {
      NotInside(b.s, fences + codes, c);
      NotInside(b.e - 1, fences + codes, c);
      EndsOutside(b, c);
    }
  }

  // ----- events -----

  /** One entity: the region of the source it spans, and the text it leaves behind. */
  datatype Event = Event(s: nat, e: nat, kind: Kind, body: string)

  predicate Spannable(text: string, r: Region, kind: Kind) {
    r.s <= r.e <= |text| && (kind.Bold? ==> r.s + 4 <= r.e)
  }

  /** Fences and inline code keep their markers; bold loses its four asterisks. */
  function EventOf(text: string, r: Region, kind: Kind): Event
    requires Spannable(text, r, kind)
  {
    Event(r.s, r.e, kind, if kind.Bold? then text[r.s + 2..r.e - 2] else text[r.s..r.e])
  }

  function ToEvents(text: string, rs: seq<Region>, kind: Kind): (es: seq<Event>)
    requires forall r <- rs :: Spannable(text, r, kind)
    ensures |es| == |rs| && forall i :: 0 <= i < |rs| ==> es[i] == EventOf(text, rs[i], kind)
  {
    if rs == [] then [] else [EventOf(text, rs[0], kind)] + ToEvents(text, rs[1..], kind)
  }

  /** Every candidate entity, in the order the renderer lists them. */
  function Events(text: string, m: Markup): seq<Event>
    requires WellLaid(text, m)
  {
    ToEvents(text, m.fences, Triple) + ToEvents(text, m.codes, Single) + ToEvents(text, m.bolds, Bold)
  }

  /** The event over one of the regions of `m`. */
  ghost predicate IsEvent(text: string, m: Markup, ev: Event) {
    var r := Region(ev.s, ev.e);
    r in m.Of(ev.kind) && r.s < r.e && Spannable(text, r, ev.kind) && ev == EventOf(text, r, ev.kind)
  }

  lemma ToEventsDistinct(text: string, rs: seq<Region>, kind: Kind)
    requires forall r <- rs :: Spannable(text, r, kind)
    requires Apart(rs, 0, |text|)
    ensures Distinct(ToEvents(text, rs, kind))
  {
    var es := ToEvents(text, rs, kind);
    forall i, j | 0 <= i < j < |es| ensures es[i] != es[j] {
      assert es[i].s == rs[i].s && es[j].s == rs[j].s;
    }
  }

  lemma ListedEvent(text: string, rs: seq<Region>, kind: Kind, ev: Event)
    requires forall r <- rs :: Spannable(text, r, kind)
    requires ev in ToEvents(text, rs, kind)
    ensures var r := Region(ev.s, ev.e); r in rs && ev == EventOf(text, r, kind)
  {
    var es := ToEvents(text, rs, kind);
    var i :| 0 <= i < |es| && es[i] == ev;
    assert rs[i] == Region(ev.s, ev.e);
  }

  lemma EventListed(text: string, rs: seq<Region>, kind: Kind, r: Region)
    requires forall r <- rs :: Spannable(text, r, kind)
    requires r in rs
    ensures EventOf(text, r, kind) in ToEvents(text, rs, kind)
  {
    var i :| 0 <= i < |rs| && rs[i] == r;
    assert ToEvents(text, rs, kind)[i] == EventOf(text, r, kind);
  }

  lemma ToEventsAre(text: string, m: Markup, kind: Kind, ev: Event)
    requires forall r <- m.Of(kind) :: Spannable(text, r, kind)
    requires Apart(m.Of(kind), 0, |text|)
    ensures ev in ToEvents(text, m.Of(kind), kind) <==> IsEvent(text, m, ev) && ev.kind == kind
  {
    if ev in ToEvents(text, m.Of(kind), kind) {
      ListedEvent(text, m.Of(kind), kind, ev);
    }
    if IsEvent(text, m, ev) && ev.kind == kind {
      EventListed(text, m.Of(kind), kind, Region(ev.s, ev.e));
    }
  }

  lemma EventsAre(text: string, m: Markup)
    requires WellLaid(text, m)
    ensures (forall ev :: ev in Events(text, m) <==> IsEvent(text, m, ev)) && Distinct(Events(text, m))
  {
    ToEventsDistinct(text, m.fences, Triple);
    ToEventsDistinct(text, m.codes, Single);
    ToEventsDistinct(text, m.bolds, Bold);
    forall ev ensures ev in Events(text, m) <==> IsEvent(text, m, ev) {
      ToEventsAre(text, m, Triple, ev);
      ToEventsAre(text, m, Single, ev);
      ToEventsAre(text, m, Bold, ev);
    }
    var a, b, c := ToEvents(text, m.fences, Triple), ToEvents(text, m.codes, Single), ToEvents(text, m.bolds, Bold);
    DistinctConcat(a, b);
    DistinctConcat(a + b, c);
  }

  /** A bold that swallows an inline code whole. */
  predicate Nested(outer: Event, inner: Event) {
    outer.kind.Bold? && inner.kind.Single? && outer.s < inner.s && inner.e < outer.e
  }

  ghost predicate Compatible(a: Event, b: Event) {
    a.e <= b.s || b.e <= a.s || Nested(a, b) || Nested(b, a)
  }

  lemma ApartMembers(rs: seq<Region>, hi: int, a: Region, b: Region)
    requires Apart(rs, 0, hi) && a in rs && b in rs && a != b
    ensures Disjoint(a, b)
  {
    var i :| 0 <= i < |rs| && rs[i] == a;
    var j :| 0 <= j < |rs| && rs[j] == b;
  }

  /** Any two events are apart, unless one is an inline code inside a bold; so they start at different places. */
  lemma EventsCompatible(text: string, m: Markup, a: Event, b: Event)
    requires WellLaid(text, m) && IsEvent(text, m, a) && IsEvent(text, m, b) && a != b
    ensures Compatible(a, b) && a.s != b.s
  {
    if a.kind == b.kind {
      ApartMembers(m.Of(a.kind), |text|, Region(a.s, a.e), Region(b.s, b.e));
    }
  }

  // ----- the overlap filter -----

  /** Drop every event that starts before the last kept one ended. */
  function DropOverlapping(events: seq<Event>, end: int): seq<Event> {
    if events == [] then []
    else if events[0].s < end then DropOverlapping(events[1..], end)
    else [events[0]] + DropOverlapping(events[1..], events[0].e)
  }

  predicate StrictlyByStart(events: seq<Event>) {
    forall i, j :: 0 <= i < j < |events| ==> events[i].s < events[j].s
  }

  ghost predicate AllCompatible(events: seq<Event>) {
    && (forall a <- events :: a.s < a.e)
    && (forall i, j :: 0 <= i < j < |events| ==> Compatible(events[i], events[j]))
  }

  ghost predicate SwallowedBy(gs: set<Event>, x: Event) {
    exists g <- gs :: Nested(g, x)
  }

  /** `end` hides exactly the events of `rest` that lie inside one of `gone`. */
  ghost predicate Hides(gone: set<Event>, rest: seq<Event>, end: int) {
    forall x <- rest :: x.s < end <==> SwallowedBy(gone, x)
  }

  ghost function SetOf(events: seq<Event>): set<Event> {
    set e | e in events
  }

  /** Seen from the first event of a start-ordered list. */
  lemma FirstEvent(events: seq<Event>)
    requires events != [] && StrictlyByStart(events) && AllCompatible(events)
    ensures var ev, rest := events[0], events[1..];
            && SetOf(events) == {ev} + SetOf(rest)
            && (forall x <- rest :: ev.s < x.s && (x.s < ev.e <==> Nested(ev, x)) && !Nested(x, ev))
  {
    var ev, rest := events[0], events[1..];
    forall x <- rest ensures ev.s < x.s && (x.s < ev.e <==> Nested(ev, x)) && !Nested(x, ev) {
      var j :| 0 <= j < |rest| && rest[j] == x;
      assert events[j + 1] == x;
    }
    assert forall x :: x in events <==> x == ev || x in rest;
  }

  lemma TailEvents(events: seq<Event>)
    requires events != [] && StrictlyByStart(events) && AllCompatible(events)
    ensures StrictlyByStart(events[1..]) && AllCompatible(events[1..])
  {}

  lemma HidesNext(gone: set<Event>, ev: Event, rest: seq<Event>, end: int)
    requires Hides(gone, [ev] + rest, end)
    requires forall x <- rest :: ev.s < x.s && (x.s < ev.e <==> Nested(ev, x))
    ensures ev.s >= end ==> Hides(gone + {ev}, rest, ev.e)
    ensures ev.s < end && !ev.kind.Bold? ==> Hides(gone, rest, end)
  {
    assert forall x <- rest :: x in [ev] + rest;
    forall x <- rest ensures SwallowedBy(gone + {ev}, x) <==> SwallowedBy(gone, x) || Nested(ev, x) {
      if SwallowedBy(gone, x) {
        var g :| g in gone && Nested(g, x);
        assert g in gone + {ev};
      }
      if Nested(ev, x) {
        assert ev in gone + {ev};
      }
    }
  }

  lemma SwallowedUnion(a: set<Event>, ev: Event, b: set<Event>, x: Event)
    ensures SwallowedBy(a + ({ev} + b), x) <==> SwallowedBy(a + {ev} + b, x)
    ensures SwallowedBy(a + ({ev} + b), x) <==> SwallowedBy(a + b, x) || Nested(ev, x)
  {
    assert a + ({ev} + b) == a + {ev} + b;
    if Nested(ev, x) {
      assert ev in a + {ev} + b;
    }
    if SwallowedBy(a + b, x) {
      var g :| g in a + b && Nested(g, x);
      assert g in a + {ev} + b;
    }
  }

  /**
    The filter on a start-ordered list keeps an event unless a bold of the list
    swallows it, whatever was seen before.
   */
  lemma {:induction false} DropKeeps(gone: set<Event>, events: seq<Event>, end: int, x: Event)
    requires StrictlyByStart(events) && AllCompatible(events) && Hides(gone, events, end)
    ensures x in DropOverlapping(events, end) <==> x in events && !SwallowedBy(gone + SetOf(events), x)
    decreases |events|
  {
    if events != [] {
      var ev, rest := events[0], events[1..];
      assert events == [ev] + rest;
      FirstEvent(events);
      TailEvents(events);
      HidesNext(gone, ev, rest, end);
      SwallowedUnion(gone, ev, SetOf(rest), x);
      if ev.s < end {
        DropKeeps(gone, rest, end, x);
        assert SwallowedBy(gone, ev);
        SwallowedMore(gone, SetOf(rest), ev);
      } else {
        DropKeeps(gone + {ev}, rest, ev.e, x);
        assert !SwallowedBy(gone, ev);
        assert x == ev ==> !SwallowedBy(gone + SetOf(events), x);
      }
    }
  }

  lemma SwallowedMore(a: set<Event>, b: set<Event>, x: Event)
    requires SwallowedBy(a, x)
    ensures SwallowedBy(a + b, x)
  {
    var g :| g in a && Nested(g, x);
    assert g in a + b;
  }

  lemma {:induction false} DropOrdered(events: seq<Event>, end: int)
    requires StrictlyByStart(events) && forall a <- events :: a.s < a.e
    ensures var kept := DropOverlapping(events, end);
            && (forall x <- kept :: x in events && x.s >= end)
            && (forall i, j :: 0 <= i < j < |kept| ==> kept[i].e <= kept[j].s)
    decreases |events|
  {
    if events != [] {
      DropOrdered(events[1..], if events[0].s < end then end else events[0].e);
    }
  }

  // ----- what is kept -----

  /** Every fence, every bold, and every inline code that no bold swallows. */
  ghost predicate KeptEvent(text: string, m: Markup, ev: Event) {
    IsEvent(text, m, ev) && (ev.kind.Single? ==> forall b <- m.bolds :: !Within(Region(ev.s, ev.e), b))
  }

  /** The entities of `text`, in order and apart. */
  ghost predicate IsKept(text: string, m: Markup, kept: seq<Event>) {
    && (forall ev :: ev in kept <==> KeptEvent(text, m, ev))
    && (forall i, j :: 0 <= i < j < |kept| ==> kept[i].e <= kept[j].s)
  }

  predicate SortedByStart(events: seq<Event>) {
    forall i, j :: 0 <= i < j < |events| ==> events[i].s <= events[j].s
  }

  lemma SwallowedByBold(text: string, m: Markup, events: seq<Event>, x: Event)
    requires WellLaid(text, m) && (forall ev :: ev in events <==> IsEvent(text, m, ev)) && IsEvent(text, m, x)
    ensures SwallowedBy(SetOf(events), x) <==> x.kind.Single? && exists b <- m.bolds :: Within(Region(x.s, x.e), b)
  {
    if SwallowedBy(SetOf(events), x) {
      var g :| g in events && Nested(g, x);
      assert Region(g.s, g.e) in m.bolds && Within(Region(x.s, x.e), Region(g.s, g.e));
    }
    if x.kind.Single? && exists b <- m.bolds :: Within(Region(x.s, x.e), b) {
      var b :| b in m.bolds && Within(Region(x.s, x.e), b);
      assert Apart(m.bolds, 0, |text|);
      var g := EventOf(text, b, Bold);
      assert IsEvent(text, m, g) && Nested(g, x);
    }
  }

  lemma SortedIsStrict(text: string, m: Markup, sorted: seq<Event>)
    requires WellLaid(text, m) && SortedByStart(sorted) && Distinct(sorted)
    requires forall ev <- sorted :: IsEvent(text, m, ev)
    ensures StrictlyByStart(sorted) && AllCompatible(sorted)
  {
    forall i, j | 0 <= i < j < |sorted| ensures sorted[i].s < sorted[j].s && Compatible(sorted[i], sorted[j]) {
      EventsCompatible(text, m, sorted[i], sorted[j]);
    }
  }

  /**
    However the unstable sort orders the events, the filter keeps exactly the
    fences, the bolds, and the inline codes outside every bold.
   */
  lemma FilterExact(text: string, m: Markup, sorted: seq<Event>)
    requires WellLaid(text, m) && SortedByStart(sorted) && multiset(sorted) == multiset(Events(text, m))
    ensures IsKept(text, m, DropOverlapping(sorted, -1))
  {
    EventsAre(text, m);
    PermutationDistinct(Events(text, m), sorted);
    SortedIsStrict(text, m, sorted);
    DropOrdered(sorted, -1);
    var kept := DropOverlapping(sorted, -1);
    forall ev ensures ev in kept <==> KeptEvent(text, m, ev) {
      DropKeeps({}, sorted, -1, ev);
      assert {} + SetOf(sorted) == SetOf(sorted);
      if IsEvent(text, m, ev) {
        SwallowedByBold(text, m, sorted, ev);
      }
    }
  }

  lemma SomeMember<T>(s: seq<T>)
    ensures s == [] || exists x :: x in s
  {
    if s != [] {
      assert s[0] in s;
    }
  }

  /** Two lists ordered by start with the same events are the same list. */
  lemma {:induction false} KeptUnique(a: seq<Event>, b: seq<Event>)
    requires StrictlyByStart(a) && StrictlyByStart(b) && forall ev :: ev in a <==> ev in b
    ensures a == b
    decreases |a|
  {
    SomeMember(a);
    SomeMember(b);
    if a != [] {
      assert a[0] in b && b[0] in a;
      assert a[0] == b[0];
      forall ev ensures ev in a[1..] <==> ev in b[1..] {
        assert ev in a <==> ev == a[0] || ev in a[1..];
        assert ev in b <==> ev == b[0] || ev in b[1..];
      }
      KeptUnique(a[1..], b[1..]);
      assert a == [a[0]] + a[1..] && b == [b[0]] + b[1..];
    }
  }

  // ----- the entities of a text -----

  lemma SortedCons(first: Event, rest: seq<Event>)
    requires SortedByStart(rest) && forall x <- rest :: first.s <= x.s
    ensures SortedByStart([first] + rest)
  {}

  lemma SameMembers(r: seq<Event>, ev: Event, r': seq<Event>)
    requires multiset(r') == multiset(r) + multiset{ev}
    ensures forall x <- r' :: x in r || x == ev
  {
    forall x <- r' ensures x in r || x == ev {
      assert x in multiset(r');
    }
  }

  lemma {:induction false} InsertInOrder(r: seq<Event>, ev: Event) returns (r': seq<Event>)
    requires SortedByStart(r)
    ensures SortedByStart(r') && multiset(r') == multiset(r) + multiset{ev}
    decreases |r|
  {
    if r == [] || ev.s <= r[0].s {
      SortedCons(ev, r);
      r' := [ev] + r;
    } else {
      assert r == [r[0]] + r[1..];
      var rest := InsertInOrder(r[1..], ev);
      SameMembers(r[1..], ev, rest);
      SortedCons(r[0], rest);
      r' := [r[0]] + rest;
    }
  }

  lemma {:induction false} SortedExists(events: seq<Event>) returns (sorted: seq<Event>)
    ensures SortedByStart(sorted) && multiset(sorted) == multiset(events)
    decreases |events|
  {
    if events == [] {
      sorted := [];
    } else {
      var front, last := events[..|events| - 1], events[|events| - 1];
      assert events == front + [last];
      var rest := SortedExists(front);
      sorted := InsertInOrder(rest, last);
    }
  }

  lemma KeptExists(text: string)
    ensures exists kept :: IsKept(text, Parse(text), kept)
  {
    ParseWellLaid(text);
    var sorted := SortedExists(Events(text, Parse(text)));
    FilterExact(text, Parse(text), sorted);
  }

  /** The entities of a text: every fence, every bold, and every inline code outside the bolds, in order. */
  ghost function Kept(text: string): (kept: seq<Event>)
    ensures IsKept(text, Parse(text), kept)
  {
    KeptExists(text);
    var kept :| IsKept(text, Parse(text), kept);
    kept
  }

  lemma KeptIsStrict(text: string, m: Markup, kept: seq<Event>)
    requires IsKept(text, m, kept)
    ensures StrictlyByStart(kept)
  {
    forall i, j | 0 <= i < j < |kept| ensures kept[i].s < kept[j].s {
      assert kept[i] in kept;
    }
  }

  /** There are no two such lists, so the rendering does not depend on the sort. */
  lemma KeptIs(text: string, kept: seq<Event>)
    requires IsKept(text, Parse(text), kept)
    ensures kept == Kept(text)
  {
    KeptIsStrict(text, Parse(text), kept);
    KeptIsStrict(text, Parse(text), Kept(text));
    KeptUnique(kept, Kept(text));
  }
}
