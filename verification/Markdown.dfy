/**
  Finding the markup in a message: the three regular expressions as leftmost
  scanners, fenced blocks, and which entities survive the overlap filter.  All
  markers are ASCII, so every cut falls on a character boundary.
 */
module Markdown {
  import opened Wrappers

  datatype Region = Region(s: nat, e: nat)

  // ----- patterns -----

  /** `\*\*([^*\n]+?)\*\*`, "`[^`\n]+`" and `https?://[^\s<>\[\]()]+`. */
  datatype Pattern = BoldPattern | CodePattern | UrlPattern

  const URL_STOPS := "\t\n\U{0C}\r <>[]()"

  /** The first position from `i` on that holds a character of `stops`, or the end. */
  function SkipTo(text: string, i: nat, stops: string): (j: nat)
    requires i <= |text|
    ensures i <= j <= |text|
    ensures forall k :: i <= k < j ==> text[k] !in stops
    ensures j < |text| ==> text[j] in stops
    decreases |text| - i
  {
    if i == |text| || text[i] in stops then i else SkipTo(text, i + 1, stops)
  }

  predicate At(text: string, i: int, word: string) {
    0 <= i <= |text| - |word| && text[i..i + |word|] == word
  }

  /** Where the part after "http://" or "https://" starts; `i` itself when neither is there. */
  function HostStart(text: string, i: nat): (host: nat)
    ensures host > i ==> host <= |text|
  {
    if At(text, i, "https://") then i + 8 else if At(text, i, "http://") then i + 7 else i
  }

  /** Where a match that starts at `i` ends. */
  function MatchAt(p: Pattern, text: string, i: nat): (r: Option<nat>)
    requires i < |text|
    ensures r.Some? ==> i < r.value <= |text|
  {
    match p
    case BoldPattern =>
      if At(text, i, "**") then
        var j := SkipTo(text, i + 2, "*\n");
        if j > i + 2 && At(text, j, "**") then Some(j + 2) else None
      else None
    case CodePattern =>
      if text[i] == '`' then
        var j := SkipTo(text, i + 1, "`\n");
        if j > i + 1 && At(text, j, "`") then Some(j + 1) else None
      else None
    case UrlPattern =>
      var host := HostStart(text, i);
      if host > i && SkipTo(text, host, URL_STOPS) > host then Some(SkipTo(text, host, URL_STOPS)) else None
  }

  /** All matches from `from` on, leftmost first, none overlapping. */
  function FindAll(p: Pattern, text: string, from: nat): seq<Region>
    decreases |text| - from
  {
    if from >= |text| then []
    else match MatchAt(p, text, from)
         case Some(e) => [Region(from, e)] + FindAll(p, text, e)
         case None => FindAll(p, text, from + 1)
  }

  /** The language of each pattern: what text[s..e] must look like. */
  ghost predicate IsMatch(p: Pattern, text: string, s: int, e: int) {
    0 <= s < e <= |text| &&
    match p
    case BoldPattern =>
      && s + 5 <= e && At(text, s, "**") && At(text, e - 2, "**")
      && forall k :: s + 2 <= k < e - 2 ==> text[k] != '*' && text[k] != '\n'
    case CodePattern =>
      && s + 3 <= e && text[s] == '`' && text[e - 1] == '`'
      && forall k :: s + 1 <= k < e - 1 ==> text[k] != '`' && text[k] != '\n'
    case UrlPattern =>
      var host := HostStart(text, s);
      && s < host < e && (forall k :: host <= k < e ==> text[k] !in URL_STOPS)
      && (e == |text| || text[e] in URL_STOPS)
  }

  lemma SkipToIs(text: string, i: nat, stops: string, j: nat)
    requires i <= j <= |text| && (forall k :: i <= k < j ==> text[k] !in stops) && (j < |text| ==> text[j] in stops)
    ensures SkipTo(text, i, stops) == j
  {}

  /** The scanner finds exactly the words of the pattern's language. */
  lemma MatchAtExact(p: Pattern, text: string, s: nat, e: nat)
    requires s < |text|
    ensures MatchAt(p, text, s) == Some(e) <==> IsMatch(p, text, s, e)
  {
    if IsMatch(p, text, s, e) {
      match p
      case BoldPattern =>
        assert text[e - 2] == text[e - 2..e - 2 + 2][0];
        SkipToIs(text, s + 2, "*\n", e - 2);
      case CodePattern =>
        SkipToIs(text, s + 1, "`\n", e - 1);
      case UrlPattern =>
        SkipToIs(text, HostStart(text, s), URL_STOPS, e);
    }
    if MatchAt(p, text, s) == Some(e) {
      match p
      case BoldPattern => assert text[SkipTo(text, s + 2, "*\n")] in "*\n";
      case CodePattern => assert text[SkipTo(text, s + 1, "`\n")] in "`\n";
      case UrlPattern =>
    }
  }

  /** In order, apart, and each inside `text[lo..hi]`. */
  ghost predicate Apart(rs: seq<Region>, lo: int, hi: int) {
    && (forall i :: 0 <= i < |rs| ==> lo <= rs[i].s < rs[i].e <= hi)
    && (forall i, j :: 0 <= i < j < |rs| ==> rs[i].e <= rs[j].s)
  }

  predicate Inside(pos: int, rs: seq<Region>) {
    exists r <- rs :: r.s <= pos < r.e
  }

  lemma {:induction false} FindAllApart(p: Pattern, text: string, from: nat)
    ensures Apart(FindAll(p, text, from), from, |text|)
    decreases |text| - from
  {
    if from < |text| {
      match MatchAt(p, text, from)
      case Some(e) => FindAllApart(p, text, e);
      case None => FindAllApart(p, text, from + 1);
    }
  }

  lemma {:induction false} FindAllSound(p: Pattern, text: string, from: nat, r: Region)
    requires r in FindAll(p, text, from)
    ensures r.s >= from && r.s < |text| && MatchAt(p, text, r.s) == Some(r.e)
    decreases |text| - from
  {
    match MatchAt(p, text, from)
    case Some(e) =>
      assert FindAll(p, text, from) == [Region(from, e)] + FindAll(p, text, e);
      if r != Region(from, e) {
        assert r in FindAll(p, text, e);
        FindAllSound(p, text, e, r);
      }
    case None => FindAllSound(p, text, from + 1, r);
  }

  lemma {:induction false} FindAllMaximal(p: Pattern, text: string, from: nat, s: nat)
    requires from <= s < |text| && MatchAt(p, text, s).Some?
    ensures Inside(s, FindAll(p, text, from))
    decreases |text| - from
  {
    var rs := FindAll(p, text, from);
    match MatchAt(p, text, from)
    case Some(e) =>
      assert rs[0] == Region(from, e) && rs[1..] == FindAll(p, text, e);
      if s >= e {
        FindAllMaximal(p, text, e, s);
        var r :| r in rs[1..] && r.s <= s < r.e;
        assert r in rs;
      }
    case None => FindAllMaximal(p, text, from + 1, s);
  }

  /** FindAll returns disjoint words of the language in order, and no word starts outside them. */
  lemma FindAllExact(p: Pattern, text: string)
    ensures var rs := FindAll(p, text, 0);
            && Apart(rs, 0, |text|)
            && (forall r <- rs :: IsMatch(p, text, r.s, r.e))
            && (forall s: nat, e: nat :: IsMatch(p, text, s, e) ==> Inside(s, rs))
  {
    var rs := FindAll(p, text, 0);
    FindAllApart(p, text, 0);
    forall r <- rs ensures IsMatch(p, text, r.s, r.e) {
      FindAllSound(p, text, 0, r);
      MatchAtExact(p, text, r.s, r.e);
    }
    forall s: nat, e: nat | IsMatch(p, text, s, e) ensures Inside(s, rs) {
      MatchAtExact(p, text, s, e);
      FindAllMaximal(p, text, 0, s);
    }
  }

  // ----- fenced blocks -----

  /** The lines of `text` from `from` on, without their newlines. */
  function Lines(text: string, from: nat): seq<Region>
    requires from <= |text|
    decreases |text| - from
  {
    var j := SkipTo(text, from, "\n");
    if j == |text| then [Region(from, j)] else [Region(from, j)] + Lines(text, j + 1)
  }

  /** Blanks, then three backquotes. */
  predicate IsFenceLine(text: string, line: Region) {
    line.s <= line.e <= |text| &&
    var body := text[line.s..line.e];
    At(body, SkipBlanks(body, 0), "```")
  }

  function SkipBlanks(s: string, i: nat): (j: nat)
    requires i <= |s|
    ensures i <= j <= |s| && (forall k :: i <= k < j ==> s[k] == ' ' || s[k] == '\t')
    ensures j < |s| ==> s[j] != ' ' && s[j] != '\t'
    decreases |s| - i
  {
    if i < |s| && (s[i] == ' ' || s[i] == '\t') then SkipBlanks(s, i + 1) else i
  }

  ghost predicate LineStart(text: string, i: int) {
    i == 0 || (0 < i <= |text| && text[i - 1] == '\n')
  }

  ghost predicate LineEnd(text: string, i: int) {
    i == |text| || (0 <= i < |text| && text[i] == '\n')
  }

  /** Whole lines, in order, with a newline between each and the next. */
  ghost predicate WholeLines(text: string, rs: seq<Region>) {
    && (forall r <- rs :: r.s <= r.e <= |text| && LineStart(text, r.s) && LineEnd(text, r.e))
    && (forall i, j :: 0 <= i < j < |rs| ==> rs[i].e < rs[j].s)
  }

  lemma WholeLinesCons(text: string, line: Region, rest: seq<Region>)
    requires WholeLines(text, rest) && forall r <- rest :: line.e < r.s
    requires line.s <= line.e <= |text| && LineStart(text, line.s) && LineEnd(text, line.e)
    ensures WholeLines(text, [line] + rest)
  {
    var rs := [line] + rest;
    forall i, j | 0 <= i < j < |rs| ensures rs[i].e < rs[j].s {
      assert rs[j] == rest[j - 1];
    }
  }

  lemma {:induction false} LinesWhole(text: string, from: nat)
    requires from <= |text| && LineStart(text, from)
    ensures WholeLines(text, Lines(text, from)) && forall r <- Lines(text, from) :: from <= r.s
    decreases |text| - from
  {
    var j := SkipTo(text, from, "\n");
    if j == |text| {
      WholeLinesCons(text, Region(from, j), []);
      assert [Region(from, j)] + [] == [Region(from, j)];
    } else {
      var line, rest := Region(from, j), Lines(text, j + 1);
      LinesWhole(text, j + 1);
      assert forall r <- [line] + rest :: r == line || r in rest;
      WholeLinesCons(text, line, rest);
    }
  }

  /** The fence lines among `lines`, in order. */
  function FenceLines(text: string, lines: seq<Region>): seq<Region> {
    if lines == [] then []
    else (if IsFenceLine(text, lines[0]) then [lines[0]] else []) + FenceLines(text, lines[1..])
  }

  /** Fence lines open and close blocks in turn; one left over at the end opens nothing. */
  function Pairs(lines: seq<Region>): seq<Region> {
    if |lines| < 2 then [] else [Region(lines[0].s, lines[1].e)] + Pairs(lines[2..])
  }

  lemma {:induction false} FenceLinesWhole(text: string, lines: seq<Region>)
    requires WholeLines(text, lines)
    ensures forall r <- FenceLines(text, lines) :: r in lines
    ensures WholeLines(text, FenceLines(text, lines))
  {
    if lines != [] {
      var rest := lines[1..];
      FenceLinesWhole(text, rest);
      assert forall r <- rest :: r in lines;
      if IsFenceLine(text, lines[0]) {
        WholeLinesCons(text, lines[0], FenceLines(text, rest));
      } else {
        assert FenceLines(text, lines) == FenceLines(text, rest);
      }
    }
  }

  lemma {:induction false} PairsWhole(text: string, lines: seq<Region>)
    requires WholeLines(text, lines)
    ensures WholeLines(text, Pairs(lines)) && (forall r <- Pairs(lines) :: r.s < r.e)
    ensures |lines| > 0 ==> forall r <- Pairs(lines) :: lines[0].s <= r.s
  {
    if |lines| >= 2 {
      PairsWhole(text, lines[2..]);
      if |lines| > 2 {
        assert lines[2..][0] == lines[2];
      }
      WholeLinesCons(text, Region(lines[0].s, lines[1].e), Pairs(lines[2..]));
    }
  }

  /** The closed fenced blocks of a text, fences included. */
  function Fences(text: string): seq<Region> {
    Pairs(FenceLines(text, Lines(text, 0)))
  }

  lemma FencesWhole(text: string)
    ensures WholeLines(text, Fences(text)) && Apart(Fences(text), 0, |text|)
  {
    LinesWhole(text, 0);
    var lines := FenceLines(text, Lines(text, 0));
    FenceLinesWhole(text, Lines(text, 0));
    PairsWhole(text, lines);
  }
}
