/**
 * The viXra adapter, which scrapes HTML: the search-page links turned into papers, the
 * abstract-page lookup, and the query encoding. HTML parsing is outside the model: a page
 * is given as its anchors in document order (each with its `href` and its text), or as the
 * text of its first `h1`.
 */
module Vixra {
  import opened Wrappers
  import opened Strings
  import opened Papers
  import opened Lists
  import opened Sequences

  const BASE_URL: string := "https://vixra.org"
  const ABS: string := "/abs/"

  /** An `a` element of a page: its `href` attribute and its text. */
  datatype Anchor = Anchor(href: Option<string>, text: string)

  /** The selector `a[href*='/abs/']`: anchors whose `href` contains "/abs/". */
  predicate Selected(a: Anchor) {
    a.href.Some? && Contains(a.href.value, ABS)
  }

  /** The abstract page of a viXra id. */
  function AbsUrl(vixraId: string): string {
    BASE_URL + ABS + vixraId
  }

  /** The PDF of a viXra id. */
  function PdfUrl(vixraId: string): string {
    BASE_URL + "/pdf/" + vixraId + ".pdf"
  }

  /** The paper both search and lookup build for an id and a title. */
  function VixraPaper(vixraId: string, title: string): PaperResult {
    PaperResult("vixra:" + vixraId, title, [], None, None, "vixra", None, None,
                AbsUrl(vixraId), Some(PdfUrl(vixraId)), None)
  }

  /** The page a lookup fetches: the abstract page of the id without a leading "vixra:". */
  function LookupUrl(id: string): string {
    AbsUrl(StripPrefix(id, "vixra:"))
  }

  /**
   * What every paper read from a search page looks like: a non-empty, trimmed title, and a
   * non-empty viXra id without "/abs/" in it, behind "vixra:" in the id and at the end of
   * the abstract url, with the PDF named after it. Only the title and the id vary.
   */
  predicate WellFormed(p: PaperResult) {
    var v := StripPrefix(p.id, "vixra:");
    && IsPrefix("vixra:", p.id) && v != [] && !Contains(v, ABS)
    && p.title != [] && Trim(p.title) == p.title
    && p == VixraPaper(v, p.title)
  }

  /** The paper of one selected link: skipped for a blank title or an empty viXra id. */
  function LinkPaper(a: Anchor): (r: Option<PaperResult>)
    ensures r.Some? ==> WellFormed(r.value) && r.value.title == Trim(a.text)
    ensures r.Some? ==> LookupUrl(r.value.id) == r.value.url
    ensures r.None? <==> Trim(a.text) == [] || !Contains(a.href.UnwrapOr(""), ABS)
                         || AfterLast(a.href.UnwrapOr(""), ABS) == []
  {
    var href := a.href.UnwrapOr("");
    var title := Trim(a.text);
    if title == [] || !Contains(href, ABS) then None
    else
      var v := AfterLast(href, ABS);
      if v == [] then None
      else
        StripPrefixOfPrefixed("vixra:", v);
        Some(VixraPaper(v, title))
  }

  /** What `parse_vixra_html` returns for a page's anchors. */
  function ParseLinks(anchors: seq<Anchor>, maxResults: U32): seq<PaperResult> {
    FilterMap(Truncate(Filter(anchors, Selected), maxResults), LinkPaper)
  }

  /**
   * `parse_vixra_html`: visits the first `maxResults` selected anchors in order and keeps a
   * paper for each with a non-blank title and a non-empty viXra id.
   */
  method ParseVixraHtml(anchors: seq<Anchor>, maxResults: U32) returns (papers: seq<PaperResult>)
    ensures papers == ParseLinks(anchors, maxResults)
  {
    var links := Truncate(Filter(anchors, Selected), maxResults);
    papers := [];
    var i := 0;
    while i < |links|
      invariant 0 <= i <= |links|
      invariant papers == FilterMap(links[..i], LinkPaper)
    {
      TakeSnoc(links, i);
      FilterMapAppend(links[..i], [links[i]], LinkPaper);
      var add := ReadLink(links[i]);
      papers := papers + add;
      i := i + 1;
    }
    assert links[..|links|] == links;
  }

  /** One visit of `parse_vixra_html`'s loop: the link's paper, or nothing when it is skipped. */
  method ReadLink(link: Anchor) returns (add: seq<PaperResult>)
    ensures add == FilterMap([link], LinkPaper)
  {
    SingleLink(link);
    var href := link.href.UnwrapOr("");
    var title := Trim(link.text);
    if title == [] || !Contains(href, ABS) {
      return [];
    }
    var vixraId := AfterLast(href, ABS);
    if vixraId == [] {
      return [];
    }
    return [VixraPaper(vixraId, title)];
  }

  /** One link contributes its paper, or nothing. */
  lemma SingleLink(a: Anchor)
    ensures FilterMap([a], LinkPaper) == match LinkPaper(a) case Some(p) => [p] case None => []
  {
    assert [a][1..] == [];
  }

  /**
   * A search page yields at most `maxResults` papers, each well formed and each leading a
   * lookup back to its own abstract page; a paper is found exactly when one of the first
   * `maxResults` selected anchors yields it.
   */
  lemma ParseLinksSpec(anchors: seq<Anchor>, maxResults: U32, p: PaperResult)
    ensures |ParseLinks(anchors, maxResults)| <= maxResults
    ensures p in ParseLinks(anchors, maxResults) ==> WellFormed(p) && LookupUrl(p.id) == p.url
    ensures p in ParseLinks(anchors, maxResults) <==>
      var links := Truncate(Filter(anchors, Selected), maxResults);
      exists i :: 0 <= i < |links| && LinkPaper(links[i]) == Some(p)
  {
    var links := Truncate(Filter(anchors, Selected), maxResults);
    FilterMapMember(links, LinkPaper, p);
  }

  /**
   * `get_paper` as written: the first `h1`'s text is checked for emptiness before it is
   * trimmed.
   */
  function GetPaperAsWritten(id: string, h1: Option<string>): (r: Option<PaperResult>)
    ensures r.None? <==> h1.UnwrapOr("") == []
    ensures r.Some? ==> r.value.url == LookupUrl(id) && r.value.title == Trim(h1.value)
  {
    var title := h1.UnwrapOr("");
    if title == [] then None else Some(VixraPaper(StripPrefix(id, "vixra:"), Trim(title)))
  }

  /** So a page whose heading is only blank yields a paper with an empty title. */
  lemma BlankHeadingAccepted()
    ensures GetPaperAsWritten("vixra:1", Some(" ")).Some?
    ensures GetPaperAsWritten("vixra:1", Some(" ")).value.title == ""
  {
    assert Trim(" ") == "" by {
      assert forall i :: 0 <= i < |" "| ==> IsSpace(" "[i]);
    }
  }

  /**
   * `get_paper` with the emptiness test after trimming, as the search path does it: no
   * paper for a missing or blank heading, else a paper with a non-empty trimmed title at the
   * looked-up page.
   */
  function GetPaper(id: string, h1: Option<string>): (r: Option<PaperResult>)
    ensures r.None? <==> Trim(h1.UnwrapOr("")) == []
    ensures r.Some? ==> r.value.title != [] && r.value.title == Trim(h1.value)
    ensures r.Some? ==> r.value.url == LookupUrl(id) && r.value.source == "vixra"
  {
    var title := Trim(h1.UnwrapOr(""));
    if title == [] then None else Some(VixraPaper(StripPrefix(id, "vixra:"), title))
  }

  /** The two agree on every heading with some non-space character. */
  lemma GetPaperAgrees(id: string, h1: Option<string>)
    requires Trim(h1.UnwrapOr("")) != []
    ensures GetPaper(id, h1) == GetPaperAsWritten(id, h1)
  {
    assert h1.UnwrapOr("") != [];
  }

  /** Looking up the id of a paper from a search page fetches that paper's abstract page. */
  lemma SearchThenLookup(anchors: seq<Anchor>, maxResults: U32, p: PaperResult, h1: string)
    requires p in ParseLinks(anchors, maxResults)
    requires Trim(h1) != []
    ensures GetPaper(p.id, Some(h1)).Some?
    ensures GetPaper(p.id, Some(h1)).value.id == p.id
    ensures GetPaper(p.id, Some(h1)).value.url == p.url
  {
    ParseLinksSpec(anchors, maxResults, p);
    var v := StripPrefix(p.id, "vixra:");
    assert p.id == "vixra:" + v;
  }

  /** `urlencoded`: every space written as "+", every other character kept in place. */
  function UrlEncoded(s: string): (r: string)
    ensures |r| == |s| && ' ' !in r
    ensures forall i :: 0 <= i < |s| ==> r[i] == if s[i] == ' ' then '+' else s[i]
  {
    seq(|s|, i requires 0 <= i < |s| => if s[i] == ' ' then '+' else s[i])
  }

  /** A query that already holds '+' encodes like one with a space there. */
  lemma PlusCollides()
    ensures UrlEncoded("a b") == UrlEncoded("a+b")
  {
  }

  /** `get_citations` and `get_references`: viXra has no citation data. */
  function Related(id: string): (r: seq<PaperResult>)
    ensures r == []
  {
    []
  }
}
