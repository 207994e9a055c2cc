/**
  Which entities a text has, from the languages of its markup alone: fence lines,
  inline code, bold, and which of them hides which.
 */
module MarkupTheorems {
  import opened Markdown
  import opened FencedBlocks
  import opened Entities

  /** All leftmost matches of a pattern: words of its language in order and apart, and no word starts outside them. */
  ghost predicate Leftmost(p: Pattern, text: string, rs: seq<Region>) {
    && Apart(rs, 0, |text|)
    && (forall r <- rs :: IsMatch(p, text, r.s, r.e))
    && (forall s: nat, e: nat :: IsMatch(p, text, s, e) ==> Inside(s, rs))
  }

  lemma OneEnd(p: Pattern, text: string, s: nat, e: nat, f: nat)
    requires IsMatch(p, text, s, e) && IsMatch(p, text, s, f)
    ensures e == f
  {
    MatchAtExact(p, text, s, e);
    MatchAtExact(p, text, s, f);
  }

  lemma {:induction false} InBoth(p: Pattern, text: string, rs: seq<Region>, qs: seq<Region>, r: Region)
    requires Leftmost(p, text, rs) && Leftmost(p, text, qs) && r in rs
    ensures r in qs
    decreases r.s
  {
    assert IsMatch(p, text, r.s, r.e);
    var q :| q in qs && q.s <= r.s < q.e;
    if q.s < r.s {
      InBoth(p, text, qs, rs, q);
      ApartMembers(rs, |text|, q, r);
    } else {
      OneEnd(p, text, r.s, r.e, q.e);
    }
  }

  /** A pattern has one list of leftmost matches. */
  lemma LeftmostIs(p: Pattern, text: string, rs: seq<Region>)
    requires Leftmost(p, text, rs)
    ensures rs == FindAll(p, text, 0)
  {
    var found := FindAll(p, text, 0);
    FindAllExact(p, text);
    forall r ensures r in rs <==> r in found {
      if r in rs {
        InBoth(p, text, rs, found, r);
      }
      if r in found {
        InBoth(p, text, found, rs, r);
      }
    }
    SameLists(rs, found);
  }

  /** A bold counts when neither end lies in a fenced block or in an inline code that does not itself start in one. */
  ghost predicate BoldCounts(blocks: seq<Region>, codes: seq<Region>, b: Region) {
    && !Inside(b.s, blocks) && !Inside(b.e - 1, blocks)
    && forall c <- codes :: !Inside(c.s, blocks) ==> !(c.s <= b.s < c.e) && !(c.s <= b.e - 1 < c.e)
  }

  /** The entities of a text with these fenced blocks, code matches and bold matches. */
  ghost predicate IsEntity(text: string, blocks: seq<Region>, codes: seq<Region>, bolds: seq<Region>, ev: Event) {
    var r := Region(ev.s, ev.e);
    r.s <= r.e <= |text| &&
    match ev.kind
    case Triple => r in blocks && ev.body == text[r.s..r.e]
    case Single =>
      && r in codes && !Inside(r.s, blocks) && ev.body == text[r.s..r.e]
      && forall b <- bolds :: BoldCounts(blocks, codes, b) ==> !(b.s < r.s && r.e < b.e)
    case Bold =>
      r in bolds && BoldCounts(blocks, codes, r) && r.s + 4 <= r.e && ev.body == text[r.s + 2..r.e - 2]
  }

  lemma CodesOf(text: string, blocks: seq<Region>, codes: seq<Region>, r: Region)
    requires blocks == Fences(text) && codes == FindAll(CodePattern, text, 0)
    ensures r in Parse(text).codes <==> r in codes && !Inside(r.s, blocks)
  {}

  lemma InsideJoin(pos: int, a: seq<Region>, b: seq<Region>)
    ensures Inside(pos, a + b) <==> Inside(pos, a) || Inside(pos, b)
  {
    if Inside(pos, a) {
      var r :| r in a && r.s <= pos < r.e;
      assert r in a + b;
    }
    if Inside(pos, b) {
      var r :| r in b && r.s <= pos < r.e;
      assert r in a + b;
    }
  }

  lemma BoldsOf(text: string, blocks: seq<Region>, codes: seq<Region>, bolds: seq<Region>, r: Region)
    requires blocks == Fences(text) && codes == FindAll(CodePattern, text, 0) && bolds == FindAll(BoldPattern, text, 0)
    ensures r in Parse(text).bolds <==> r in bolds && BoldCounts(blocks, codes, r)
  {
    var inline := Parse(text).codes;
    InsideJoin(r.s, blocks, inline);
    InsideJoin(r.e - 1, blocks, inline);
    assert Inside(r.s, inline) <==> exists c <- codes :: !Inside(c.s, blocks) && c.s <= r.s < c.e;
    assert Inside(r.e - 1, inline) <==> exists c <- codes :: !Inside(c.s, blocks) && c.s <= r.e - 1 < c.e;
  }

  lemma InRange(rs: seq<Region>, hi: int, r: Region)
    requires Apart(rs, 0, hi) && r in rs
    ensures r.s < r.e <= hi
  {}

  /** `m` is the markup that the fenced blocks and the matches amount to. */
  ghost predicate Amounts(m: Markup, blocks: seq<Region>, codes: seq<Region>, bolds: seq<Region>) {
    && m.fences == blocks
    && (forall r :: r in m.codes <==> r in codes && !Inside(r.s, blocks))
    && (forall r :: r in m.bolds <==> r in bolds && BoldCounts(blocks, codes, r))
  }

  lemma KeptIsEntity(text: string, m: Markup, blocks: seq<Region>, codes: seq<Region>, bolds: seq<Region>, ev: Event)
    requires WellLaid(text, m) && Amounts(m, blocks, codes, bolds)
    ensures KeptEvent(text, m, ev) <==> IsEntity(text, blocks, codes, bolds, ev)
  {
    var r := Region(ev.s, ev.e);
    if r in m.Of(ev.kind) {
      InRange(m.Of(ev.kind), |text|, r);
    }
    match ev.kind
    case Triple =>
    case Single =>
      assert (forall b <- m.bolds :: !Within(r, b))
        <==> forall b <- bolds :: BoldCounts(blocks, codes, b) ==> !(b.s < r.s && r.e < b.e);
    case Bold =>
  }

  /** What is kept of a text is exactly its entities. */
  lemma EntitiesExact(text: string, lines: seq<Region>, blocks: seq<Region>, codes: seq<Region>, bolds: seq<Region>,
                      ev: Event)
    requires ListsFences(text, lines) && TwoByTwo(lines, blocks)
    requires Leftmost(CodePattern, text, codes) && Leftmost(BoldPattern, text, bolds)
    ensures ev in Kept(text) <==> IsEntity(text, blocks, codes, bolds, ev)
  {
    MarkupIs(text, lines, blocks, codes, bolds);
    ParseWellLaid(text);
    KeptIsEntity(text, Parse(text), blocks, codes, bolds, ev);
  }

  lemma MarkupIs(text: string, lines: seq<Region>, blocks: seq<Region>, codes: seq<Region>, bolds: seq<Region>)
    requires ListsFences(text, lines) && TwoByTwo(lines, blocks)
    requires Leftmost(CodePattern, text, codes) && Leftmost(BoldPattern, text, bolds)
    ensures Amounts(Parse(text), blocks, codes, bolds)
  {
    FencesExact(text, lines);
    assert blocks == Fences(text);
    LeftmostIs(CodePattern, text, codes);
    LeftmostIs(BoldPattern, text, bolds);
    forall r ensures r in Parse(text).codes <==> r in codes && !Inside(r.s, blocks) {
      CodesOf(text, blocks, codes, r);
    }
    forall r ensures r in Parse(text).bolds <==> r in bolds && BoldCounts(blocks, codes, r) {
      BoldsOf(text, blocks, codes, bolds, r);
    }
  }

  /** Every text has these lists, and no others. */
  lemma ListsExist(text: string)
    returns (lines: seq<Region>, blocks: seq<Region>, codes: seq<Region>, bolds: seq<Region>)
    ensures ListsFences(text, lines) && TwoByTwo(lines, blocks)
    ensures Leftmost(CodePattern, text, codes) && Leftmost(BoldPattern, text, bolds)
  {
    lines, blocks := FenceLines(text, Lines(text, 0)), Fences(text);
    codes, bolds := FindAll(CodePattern, text, 0), FindAll(BoldPattern, text, 0);
    FoundLines(text);
    FencesExact(text, lines);
    FindAllExact(CodePattern, text);
    FindAllExact(BoldPattern, text);
  }
}
