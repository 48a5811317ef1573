/**
 * The OpenAlex adapter: a work (already decoded from JSON) mapped to a paper, and the page
 * cap of a search. The HTTP exchange and the polite-pool user agent are outside the model.
 */
module OpenAlex {
  import opened Wrappers
  import opened Strings
  import opened Papers
  import opened Lists

  const BASE_URL: string := "https://api.openalex.org"
  const DOI_URL: string := "https://doi.org/"

  /** The most works a search asks for. */
  const MAX_PER_PAGE: nat := 200

  /** One authorship: the author's `display_name`, when present. */
  datatype Authorship = Authorship(displayName: Option<string>)

  datatype Work = Work(
    id: Option<string>,
    title: Option<string>,
    authorships: Option<seq<Authorship>>,
    publicationYear: Option<U32>,
    doi: Option<string>,
    openAccess: Option<Option<string>>,
    citedByCount: Option<U32>)

  function AuthorshipName(a: Authorship): Option<string> {
    a.displayName
  }

  /** The DOI with every "https://doi.org/" removed. */
  function BareDoi(doi: Option<string>): Option<string> {
    match doi case Some(d) => Some(RemoveAll(d, DOI_URL)) case None => None
  }

  /** `oa_to_paper` */
  function OaToPaper(w: Work): PaperResult {
    PaperResult(
      "openalex:" + w.id.UnwrapOr(""),
      w.title.UnwrapOr(""),
      FilterMap(w.authorships.UnwrapOr([]), AuthorshipName),
      None,
      w.publicationYear,
      "openalex",
      BareDoi(w.doi),
      None,
      w.id.UnwrapOr(""),
      match w.openAccess case Some(url) => url case None => None,
      w.citedByCount)
  }

  /**
   * What a work becomes: the id is the work id behind "openalex:" and the url is the work
   * id itself; the authors are the named authorships in order; no abstract is given.
   */
  lemma OaToPaperFields(w: Work)
    ensures var p := OaToPaper(w);
      && p.source == "openalex" && p.abstractText.None? && p.arxivId.None?
      && p.year == w.publicationYear && p.citationCount == w.citedByCount
      && p.id == "openalex:" + p.url && p.url == w.id.UnwrapOr("")
      && StripPrefix(p.id, "openalex:") == p.url
      && (forall a :: a in p.authors <==>
            exists k :: 0 <= k < |w.authorships.UnwrapOr([])| && w.authorships.value[k].displayName == Some(a))
      && ((forall k :: 0 <= k < |w.authorships.UnwrapOr([])| ==> w.authorships.value[k].displayName.Some?) ==>
            |p.authors| == |w.authorships.UnwrapOr([])|
            && forall k :: 0 <= k < |p.authors| ==> p.authors[k] == w.authorships.value[k].displayName.value)
      && (p.doi.Some? <==> w.doi.Some?)
      && (p.pdfUrl.Some? <==> w.openAccess.Some? && w.openAccess.value.Some?)
      && (p.pdfUrl.Some? ==> p.pdfUrl == w.openAccess.value)
  {
    StripPrefixOfPrefixed("openalex:", w.id.UnwrapOr(""));
    if forall k :: 0 <= k < |w.authorships.UnwrapOr([])| ==> w.authorships.value[k].displayName.Some? {
      FilterMapTotal(w.authorships.UnwrapOr([]), AuthorshipName);
    }
    forall a ensures a in OaToPaper(w).authors <==>
        exists k :: 0 <= k < |w.authorships.UnwrapOr([])| && w.authorships.value[k].displayName == Some(a) {
      FilterMapMember(w.authorships.UnwrapOr([]), AuthorshipName, a);
    }
  }

  /** A DOI given as a doi.org link is stored bare; a bare DOI is kept as it is. */
  lemma BareDoiStripsLink(d: string)
    requires !Contains(d, DOI_URL)
    ensures BareDoi(Some(DOI_URL + d)) == Some(d)
    ensures BareDoi(Some(d)) == Some(d)
  {
    RemoveAllNoMatch(d, DOI_URL);
    var s := DOI_URL + d;
    assert IsPrefix(DOI_URL, s);
    assert s[|DOI_URL|..] == d;
  }

  /** The works a search asks for: the requested number, at most 200. */
  function PerPage(maxResults: U32): (n: nat)
    ensures n <= MAX_PER_PAGE && n <= maxResults
    ensures n == maxResults || n == MAX_PER_PAGE
  {
    if maxResults < MAX_PER_PAGE then maxResults else MAX_PER_PAGE
  }

  /** The work id a lookup asks for: the id without a leading "openalex:". */
  function WorkId(id: string): string {
    StripPrefix(id, "openalex:")
  }

  /** A lookup of the id a work was given asks for that work's id. */
  lemma WorkIdRoundTrip(w: Work)
    ensures WorkId(OaToPaper(w).id) == w.id.UnwrapOr("")
  {
    StripPrefixOfPrefixed("openalex:", w.id.UnwrapOr(""));
  }

  /** `get_paper`: nothing for a 404 answer, else the work mapped. */
  function GetPaper(notFound: bool, w: Work): (r: Option<PaperResult>)
    ensures r.None? <==> notFound
    ensures r.Some? ==> WorkId(r.value.id) == w.id.UnwrapOr("") && r.value.source == "openalex"
  {
    WorkIdRoundTrip(w);
    if notFound then None else Some(OaToPaper(w))
  }

  /** The citation and reference filters: works citing, or cited by, the given work. */
  function RelationFilter(id: string, citing: bool): (f: string)
    ensures citing ==> StripPrefix(f, "cites:") == WorkId(id)
    ensures !citing ==> StripPrefix(f, "cited_by:") == WorkId(id)
  {
    StripPrefixOfPrefixed("cites:", WorkId(id));
    StripPrefixOfPrefixed("cited_by:", WorkId(id));
    if citing then "cites:" + WorkId(id) else "cited_by:" + WorkId(id)
  }
}
