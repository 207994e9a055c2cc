/**
  Link spans over the clean text, and the whole content blob.
 */
module Links {
  import opened Utf16
  import opened Markdown
  import opened Entities
  import opened Rendering
  import opened Content

  const URL_TRAILING_PUNCT := ".,;:!?"

  function TrimRight(s: string, cutset: string): (r: string)
    ensures r <= s
    ensures forall k :: |r| <= k < |s| ==> s[k] in cutset
    ensures r != "" ==> r[|r| - 1] !in cutset
  {
    if s != "" && s[|s| - 1] in cutset then TrimRight(s[..|s| - 1], cutset) else s
  }

  /** The URL of a match: the match without the punctuation at its end. */
  function UrlAt(text: string, loc: Region): (url: string)
    requires loc.s <= loc.e <= |text|
    ensures |url| <= loc.e - loc.s && url == text[loc.s..loc.s + |url|]
  {
    TrimRight(text[loc.s..loc.e], URL_TRAILING_PUNCT)
  }

  /** What is cut off a match is all the sentence punctuation at its end, and nothing else. */
  lemma UrlTrimmed(text: string, loc: Region)
    requires loc.s <= loc.e <= |text|
    ensures var end := loc.s + |UrlAt(text, loc)|;
            && end <= loc.e && UrlAt(text, loc) == text[loc.s..end]
            && (forall k :: end <= k < loc.e ==> text[k] in ".,;:!?")
            && (end > loc.s ==> text[end - 1] !in ".,;:!?")
  {
    var whole, url := text[loc.s..loc.e], UrlAt(text, loc);
    forall k | loc.s + |url| <= k < loc.e ensures text[k] in ".,;:!?" {
      assert text[k] == whole[k - loc.s];
    }
  }

  /** The scheme survives trimming, so no URL is ever trimmed away altogether. */
  lemma UrlNotEmpty(text: string, loc: Region)
    requires IsMatch(UrlPattern, text, loc.s, loc.e)
    ensures |UrlAt(text, loc)| >= HostStart(text, loc.s) - loc.s >= 7
  {
    var host := HostStart(text, loc.s);
    var url, whole := UrlAt(text, loc), text[loc.s..loc.e];
    assert text[host - 1] == text[loc.s..host][host - 1 - loc.s] == '/';
    assert whole[host - 1 - loc.s] !in URL_TRAILING_PUNCT;
  }

  function LinkOf(text: string, loc: Region): MarkSpan
    requires loc.s <= loc.e <= |text|
  {
    var start := |Encode(text[..loc.s])|;
    MarkSpan(start, start + |Encode(UrlAt(text, loc))|, Link)
  }

  /** Where the bare URLs are, with their trailing punctuation. */
  function UrlLocs(text: string): (locs: seq<Region>)
    ensures forall i :: 0 <= i < |locs| ==> locs[i].s < locs[i].e <= |text|
    ensures forall i, j :: 0 <= i < j < |locs| ==> locs[i].e <= locs[j].s
  {
    FindAllApart(UrlPattern, text, 0);
    FindAll(UrlPattern, text, 0)
  }

  lemma UrlLocNotEmpty(text: string, i: nat)
    requires i < |UrlLocs(text)|
    ensures UrlAt(text, UrlLocs(text)[i]) != ""
  {
    var loc := UrlLocs(text)[i];
    FindAllSound(UrlPattern, text, 0, loc);
    MatchAtExact(UrlPattern, text, loc.s, loc.e);
    UrlNotEmpty(text, loc);
  }

  ghost predicate LinksOf(text: string, locs: seq<Region>, spans: seq<MarkSpan>) {
    && |spans| == |locs|
    && forall i :: 0 <= i < |spans| ==> locs[i].s <= locs[i].e <= |text| && spans[i] == LinkOf(text, locs[i])
  }

  lemma LinksOfSnoc(text: string, locs: seq<Region>, spans: seq<MarkSpan>, loc: Region)
    requires LinksOf(text, locs, spans) && loc.s <= loc.e <= |text|
    ensures LinksOf(text, locs + [loc], spans + [LinkOf(text, loc)])
  {}

  /** The UTF-16 spans of the bare URLs of `text`. */
  method LinkSpans(text: string) returns (spans: seq<MarkSpan>)
    ensures LinksOf(text, UrlLocs(text), spans)
  {
    var locs := UrlLocs(text);
    spans := [];
    for i := 0 to |locs|
      invariant LinksOf(text, locs[..i], spans)
    {
      UrlLocNotEmpty(text, i);
      LinksOfSnoc(text, locs[..i], spans, locs[i]);
      assert locs[..i + 1] == locs[..i] + [locs[i]];
      var url := TrimRight(text[locs[i].s..locs[i].e], URL_TRAILING_PUNCT);
      if url == "" {
        assert false;
      }
      var start := Utf16Len(text[..locs[i].s]);
      var length := Utf16Len(url);
      spans := spans + [MarkSpan(start, start + length, Link)];
    }
    assert locs[..|locs|] == locs;
  }

  lemma UnitsOfWord(text: string, s: nat, word: string)
    requires s + |word| <= |text| && text[s..s + |word|] == word
    ensures var u, start := Encode(text), |Encode(text[..s])|;
            start + |Encode(word)| <= |u| && u[start..start + |Encode(word)|] == Encode(word)
    ensures |Encode(text[..s + |word|])| == |Encode(text[..s])| + |Encode(word)|
  {
    var e := s + |word|;
    assert text == text[..s] + word + text[e..] && text[..e] == text[..s] + word;
    EncodeConcat(text[..s], word);
    EncodeConcat(text[..s] + word, text[e..]);
  }

  lemma UnitsGrow(text: string, s: nat, e: nat)
    requires s <= e <= |text|
    ensures |Encode(text[..s])| <= |Encode(text[..e])|
  {
    UnitsOfWord(text, s, text[s..e]);
  }

  /** A word that ends before position e does so in code units, too. */
  lemma WordBefore(text: string, s: nat, word: string, e: nat)
    requires s + |word| <= e <= |text| && text[s..s + |word|] == word
    ensures |Encode(text[..s])| + |Encode(word)| <= |Encode(text[..e])|
  {
    UnitsOfWord(text, s, word);
    UnitsGrow(text, s + |word|, e);
  }

  /** `m` cuts exactly the URL at `loc` out of the UTF-16 text. */
  ghost predicate CutsUrl(text: string, loc: Region, m: MarkSpan) {
    && loc.s < loc.e <= |text| && m.of == Link
    && m.s < m.e <= |Encode(text)| && Encode(text)[m.s..m.e] == Encode(UrlAt(text, loc))
  }

  lemma LinkCuts(text: string, loc: Region)
    requires loc.s < loc.e <= |text| && UrlAt(text, loc) != ""
    ensures CutsUrl(text, loc, LinkOf(text, loc))
  {
    UnitsOfWord(text, loc.s, UrlAt(text, loc));
  }

  lemma LinkCutsUrl(text: string, i: nat)
    requires i < |UrlLocs(text)|
    ensures CutsUrl(text, UrlLocs(text)[i], LinkOf(text, UrlLocs(text)[i]))
  {
    UrlLocNotEmpty(text, i);
    LinkCuts(text, UrlLocs(text)[i]);
  }

  lemma LinksApart(text: string, a: Region, b: Region)
    requires a.s < a.e <= b.s < b.e <= |text|
    ensures LinkOf(text, a).e <= LinkOf(text, b).s
  {
    var url := UrlAt(text, a);
    WordBefore(text, a.s, url, b.s);
  }

  /**
    The links of a text: one per URL match, each in range and cutting out exactly
    the trimmed URL, in order and apart.
   */
  lemma LinksExact(text: string, spans: seq<MarkSpan>)
    requires LinksOf(text, UrlLocs(text), spans)
    ensures forall i :: 0 <= i < |spans| ==> CutsUrl(text, UrlLocs(text)[i], spans[i])
    ensures forall i, j :: 0 <= i < j < |spans| ==> spans[i].e <= spans[j].s
  {
    var locs := UrlLocs(text);
    forall i | 0 <= i < |spans| ensures CutsUrl(text, locs[i], spans[i]) {
      LinkCutsUrl(text, i);
    }
    forall i, j | 0 <= i < j < |spans| ensures spans[i].e <= spans[j].s {
      LinksApart(text, locs[i], locs[j]);
    }
  }

  // ----- the blob -----

  /** What is marshalled to JSON: the text, and the spans when there are any. */
  datatype Blob = Blob(t: string, mk: seq<MarkSpan>)

  /**
    The first spans show the entities' bodies, one each; the others show the
    trimmed URLs of the clean text, one each.
   */
  ghost predicate Shows(blob: Blob, kept: seq<Event>) {
    var locs := UrlLocs(blob.t);
    && |blob.mk| == |kept| + |locs|
    && CutsBodies(Encode(blob.t), blob.mk[..|kept|], kept)
    && forall i :: 0 <= i < |locs| ==> CutsUrl(blob.t, locs[i], blob.mk[|kept| + i])
  }

  method BuildContent(text: string) returns (blob: Blob)
    ensures blob.t == Clean(text) && Shows(blob, Kept(text))
    ensures blob.mk[..|Kept(text)|] == Spans(text)
  {
    var clean, marks := MarkdownSpans(text);
    SpansExact(text);
    var links := LinkSpans(clean);
    LinksExact(clean, links);
    blob := Blob(clean, marks + links);
    assert blob.mk[..|Kept(text)|] == marks;
    forall i | 0 <= i < |links| ensures blob.mk[|Kept(text)| + i] == links[i] {}
  }
}
