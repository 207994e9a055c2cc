/**
  Which parts of a text are fenced blocks, without the scanner: fence lines are
  a language, and closed blocks are the fence lines taken two by two.
 */
module FencedBlocks {
  import opened Markdown

  /** `[ \t]*` followed by three backquotes, at the start of the word. */
  ghost predicate FenceWord(w: string) {
    exists u: nat :: FenceAfter(w, u)
  }

  /** The three backquotes come after u blanks. */
  ghost predicate FenceAfter(w: string, u: nat) {
    u + 3 <= |w| && (forall k :: 0 <= k < u ==> w[k] == ' ' || w[k] == '\t') && w[u..u + 3] == "```"
  }

  /** text[s..e] is one of the pieces that newlines split the text into. */
  ghost predicate IsLine(text: string, s: nat, e: nat) {
    s <= e <= |text| && LineStart(text, s) && LineEnd(text, e) && forall k :: s <= k < e ==> text[k] != '\n'
  }

  ghost predicate IsFence(text: string, r: Region) {
    IsLine(text, r.s, r.e) && FenceWord(text[r.s..r.e])
  }

  /** All fence lines of the text, in order. */
  ghost predicate ListsFences(text: string, ls: seq<Region>) {
    && (forall r :: r in ls <==> IsFence(text, r))
    && forall i, j :: 0 <= i < j < |ls| ==> ls[i].e < ls[j].s
  }

  /** Block i runs from the start of fence line 2i to the end of the next one; a last one without partner is none. */
  ghost predicate TwoByTwo(ls: seq<Region>, blocks: seq<Region>) {
    && |blocks| == |ls| / 2
    && forall i :: 0 <= i < |blocks| ==> blocks[i] == Region(ls[2 * i].s, ls[2 * i + 1].e)
  }

  /** `blocks` are the fence lines of the text, taken two by two. */
  ghost predicate AreBlocks(text: string, blocks: seq<Region>) {
    exists ls :: ListsFences(text, ls) && TwoByTwo(ls, blocks)
  }

  // ----- the scanner against the language -----

  lemma FenceLineExact(text: string, line: Region)
    requires line.s <= line.e <= |text|
    ensures IsFenceLine(text, line) <==> FenceWord(text[line.s..line.e])
  {
    var w := text[line.s..line.e];
    var n := SkipBlanks(w, 0);
    if FenceWord(w) {
      var u: nat :| FenceAfter(w, u);
      assert w[u] == w[u..u + 3][0] == '`';
      assert n == u;
    }
    if IsFenceLine(text, line) {
      assert FenceAfter(w, n);
    }
  }

  lemma {:induction false} LinesExact(text: string, from: nat, r: Region)
    requires from <= |text| && LineStart(text, from)
    ensures r in Lines(text, from) <==> from <= r.s && IsLine(text, r.s, r.e)
    decreases |text| - from
  {
    var j := SkipTo(text, from, "\n");
    var first := Region(from, j);
    assert IsLine(text, from, j);
    if r.s == from && IsLine(text, r.s, r.e) {
      assert r.e == j;
    }
    if from < r.s && IsLine(text, r.s, r.e) {
      assert text[r.s - 1] == '\n' && r.s - 1 >= j;
    }
    if j < |text| {
      LinesExact(text, j + 1, r);
      assert r in Lines(text, from) <==> r == first || r in Lines(text, j + 1);
    }
  }

  lemma {:induction false} FenceLinesAre(text: string, lines: seq<Region>, r: Region)
    ensures r in FenceLines(text, lines) <==> r in lines && IsFenceLine(text, r)
  {
    if lines != [] {
      FenceLinesAre(text, lines[1..], r);
      assert r in lines <==> r == lines[0] || r in lines[1..];
    }
  }

  lemma FoundLines(text: string)
    ensures ListsFences(text, FenceLines(text, Lines(text, 0)))
  {
    var lines := Lines(text, 0);
    forall r ensures r in FenceLines(text, lines) <==> IsFence(text, r) {
      FenceLinesAre(text, lines, r);
      LinesExact(text, 0, r);
      if IsLine(text, r.s, r.e) {
        FenceLineExact(text, r);
      }
    }
    LinesWhole(text, 0);
    FenceLinesWhole(text, lines);
  }

  lemma FirstMember(s: seq<Region>)
    ensures s == [] || s[0] in s
  {}

  /** Two lists of the same regions in order are the same list. */
  lemma {:induction false} SameLists(a: seq<Region>, b: seq<Region>)
    requires forall r :: r in a <==> r in b
    requires forall i, j :: 0 <= i < j < |a| ==> a[i].s < a[j].s
    requires forall i, j :: 0 <= i < j < |b| ==> b[i].s < b[j].s
    ensures a == b
    decreases |a|
  {
    FirstMember(a);
    FirstMember(b);
    if a != [] {
      assert a[0] in b && b[0] in a;
      assert a[0] == b[0];
      forall r ensures r in a[1..] <==> r in b[1..] {
        assert r in a <==> r == a[0] || r in a[1..];
        assert r in b <==> r == b[0] || r in b[1..];
      }
      SameLists(a[1..], b[1..]);
      assert a == [a[0]] + a[1..] && b == [b[0]] + b[1..];
    }
  }

  lemma ByStart(text: string, ls: seq<Region>)
    requires ListsFences(text, ls)
    ensures forall i, j :: 0 <= i < j < |ls| ==> ls[i].s < ls[j].s
  {
    forall i, j | 0 <= i < j < |ls| ensures ls[i].s < ls[j].s {
      assert ls[i] in ls;
    }
  }

  lemma {:induction false} PairsTwoByTwo(ls: seq<Region>)
    ensures TwoByTwo(ls, Pairs(ls))
  {
    if |ls| >= 2 {
      PairsTwoByTwo(ls[2..]);
      var rest := Pairs(ls[2..]);
      assert Pairs(ls) == [Region(ls[0].s, ls[1].e)] + rest;
      forall i | 0 <= i < |Pairs(ls)| ensures Pairs(ls)[i] == Region(ls[2 * i].s, ls[2 * i + 1].e) {
        if i > 0 {
          assert Pairs(ls)[i] == rest[i - 1];
          assert ls[2..][2 * (i - 1)] == ls[2 * i] && ls[2..][2 * i - 1] == ls[2 * i + 1];
        }
      }
    }
  }

  /** Every text has exactly one list of fence lines, and its fenced blocks are those taken two by two. */
  lemma FencesExact(text: string, ls: seq<Region>)
    requires ListsFences(text, ls)
    ensures TwoByTwo(ls, Fences(text))
  {
    var found := FenceLines(text, Lines(text, 0));
    FoundLines(text);
    ByStart(text, found);
    ByStart(text, ls);
    SameLists(found, ls);
    PairsTwoByTwo(found);
  }

  lemma FencesAreBlocks(text: string)
    ensures AreBlocks(text, Fences(text))
  {
    FoundLines(text);
    FencesExact(text, FenceLines(text, Lines(text, 0)));
  }
}
