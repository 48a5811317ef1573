/**
 * The Europe PMC adapter: a search result (already decoded from JSON) mapped to a paper, the
 * page cap of a search and the queries its lookups send. The HTTP exchange is outside the
 * model.
 */
module EuropePmc {
  import opened Wrappers
  import opened Strings
  import opened Papers
  import opened Lists

  const BASE_URL: string := "https://www.ebi.ac.uk/europepmc/webservices/rest"
  const ARTICLE_URL: string := "https://europepmc.org/article/MED/"
  const AUTHOR_SEP: string := ", "

  /** The most results a search asks for; a citation search asks for 25. */
  const MAX_PAGE_SIZE: nat := 100
  const CITATIONS_PAGE_SIZE: nat := 25

  datatype EpmcResult = EpmcResult(
    id: Option<string>,
    title: Option<string>,
    authorString: Option<string>,
    abstractText: Option<string>,
    pubYear: Option<string>,
    doi: Option<string>,
    citedByCount: Option<U32>,
    pmid: Option<string>)

  /** The author list: the author string split at every ", "; no string is no authors. */
  function Authors(authorString: Option<string>): seq<string> {
    match authorString case Some(a) => SplitStr(a, AUTHOR_SEP) case None => []
  }

  /** The id: "pmid:" and the PubMed id, else "doi:" and the DOI, else "epmc:" and the id. */
  function EpmcId(r: EpmcResult): string {
    match r.pmid
    case Some(p) => "pmid:" + p
    case None =>
      match r.doi
      case Some(d) => "doi:" + d
      case None => "epmc:" + r.id.UnwrapOr("")
  }

  /** `epmc_to_paper` */
  function EpmcToPaper(r: EpmcResult): PaperResult {
    PaperResult(
      EpmcId(r),
      r.title.UnwrapOr(""),
      Authors(r.authorString),
      r.abstractText,
      match r.pubYear case Some(y) => ParseU32(y) case None => None,
      "europepmc",
      r.doi,
      None,
      match r.pmid case Some(p) => ARTICLE_URL + p case None => "",
      None,
      r.citedByCount)
  }

  /**
   * What a result becomes: the author string is cut at every ", " (no author contains it,
   * and joining the authors with ", " rebuilds the string); the id names the first of
   * PubMed id, DOI and Europe PMC id that is present and can be read back; the url is the
   * article page only when there is a PubMed id.
   */
  lemma EpmcToPaperFields(r: EpmcResult)
    ensures var p := EpmcToPaper(r);
      && p.source == "europepmc" && p.arxivId.None? && p.pdfUrl.None?
      && p.doi == r.doi && p.citationCount == r.citedByCount && p.abstractText == r.abstractText
      && (r.authorString.Some? ==> Join(p.authors, AUTHOR_SEP) == r.authorString.value)
      && (forall k :: 0 <= k < |p.authors| ==> !Contains(p.authors[k], AUTHOR_SEP))
      && (r.authorString.None? ==> p.authors == [])
      && (r.pmid.Some? ==> StripPrefix(p.id, "pmid:") == r.pmid.value
                           && StripPrefix(p.url, ARTICLE_URL) == r.pmid.value)
      && (r.pmid.None? && r.doi.Some? ==> StripPrefix(p.id, "doi:") == r.doi.value)
      && (r.pmid.None? && r.doi.None? ==> StripPrefix(p.id, "epmc:") == r.id.UnwrapOr(""))
      && (r.pmid.None? <==> p.url == "")
  {
    if r.authorString.Some? {
      JoinSplitStr(r.authorString.value, AUTHOR_SEP);
      SplitStrNoSep(r.authorString.value, AUTHOR_SEP);
    }
    match r.pmid {
      case Some(pm) =>
        StripPrefixOfPrefixed("pmid:", pm);
        StripPrefixOfPrefixed(ARTICLE_URL, pm);
        assert |ARTICLE_URL + pm| > 0;
      case None =>
        if r.doi.Some? {
          StripPrefixOfPrefixed("doi:", r.doi.value);
        } else {
          StripPrefixOfPrefixed("epmc:", r.id.UnwrapOr(""));
        }
    }
  }

  /** A single author without ", " in the name is kept as the only author. */
  lemma OneAuthor(name: string)
    requires !Contains(name, AUTHOR_SEP)
    ensures Authors(Some(name)) == [name]
  {
    SplitStrNoMatch(name, AUTHOR_SEP);
  }

  /** Text without the separator is a single piece. */
  lemma {:induction false} SplitStrNoMatch(s: string, sep: string)
    requires |sep| > 0 && !Contains(s, sep)
    ensures SplitStr(s, sep) == [s]
    decreases |s|
  {
    if |s| > 0 {
      assert !IsPrefix(sep, s[0..]);
      assert s[0..] == s;
      SplitStrNoMatch(s[1..], sep);
      assert [s[0]] + s[1..] == s;
    }
  }

  /** The results a search asks for: the requested number, at most 100. */
  function PageSize(maxResults: U32): (n: nat)
    ensures n <= MAX_PAGE_SIZE && n <= maxResults
    ensures n == maxResults || n == MAX_PAGE_SIZE
  {
    if maxResults < MAX_PAGE_SIZE then maxResults else MAX_PAGE_SIZE
  }

  /** `search`'s answer: every result mapped, in order; no result list is no results. */
  function SearchResults(resultList: Option<seq<EpmcResult>>): (r: seq<PaperResult>)
    ensures |r| == |resultList.UnwrapOr([])|
    ensures forall i :: 0 <= i < |r| ==> r[i] == EpmcToPaper(resultList.value[i])
  {
    var s := resultList.UnwrapOr([]);
    seq(|s|, i requires 0 <= i < |s| => EpmcToPaper(s[i]))
  }

  /** The PubMed id a lookup uses: the id without a leading "pmid:". */
  function Pmid(id: string): string {
    StripPrefix(id, "pmid:")
  }

  /** The one-result search `get_paper` sends. */
  function LookupQuery(id: string): (q: string)
    ensures StripPrefix(q, "EXT_ID:") == Pmid(id)
  {
    StripPrefixOfPrefixed("EXT_ID:", Pmid(id));
    "EXT_ID:" + Pmid(id)
  }

  /** The 25-result search `get_citations` sends. */
  function CitationsQuery(id: string): (q: string)
    ensures StripPrefix(q, "CITES:") == Pmid(id)
  {
    StripPrefixOfPrefixed("CITES:", Pmid(id));
    "CITES:" + Pmid(id)
  }

  /** The id a search gives a result with a PubMed id leads a lookup back to that PubMed id. */
  lemma PmidRoundTrip(r: EpmcResult)
    requires r.pmid.Some?
    ensures LookupQuery(EpmcToPaper(r).id) == "EXT_ID:" + r.pmid.value
  {
    StripPrefixOfPrefixed("pmid:", r.pmid.value);
  }

  /** `get_paper`: the first paper of the one-result search's answer. */
  function GetPaper(answer: Option<seq<EpmcResult>>): (r: Option<PaperResult>)
    ensures r.None? <==> answer.UnwrapOr([]) == []
    ensures r.Some? ==> r.value == EpmcToPaper(answer.value[0])
  {
    First(SearchResults(answer))
  }

  /** `get_references`: Europe PMC's references are not fetched. */
  function References(id: string): (r: seq<PaperResult>)
    ensures r == []
  {
    []
  }
}
