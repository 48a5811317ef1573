/**
 * The Semantic Scholar adapter: a paper (already decoded from JSON) mapped to a paper
 * result, the limit of a search, and the citation and reference lists read from citation
 * edges. The HTTP exchange and the API key header are outside the model.
 */
module SemanticScholar {
  import opened Wrappers
  import opened Strings
  import opened Papers
  import opened Lists

  const BASE_URL: string := "https://api.semanticscholar.org/graph/v1"

  /** The most papers a search asks for; a citation or reference list asks for 25. */
  const MAX_LIMIT: nat := 100
  const RELATED_LIMIT: nat := 25

  /** The edge keys of the citation and the reference endpoints. */
  const CITING_KEY: string := "citingPaper"
  const CITED_KEY: string := "citedPaper"

  datatype ExternalIds = ExternalIds(doi: Option<string>, arxiv: Option<string>)
  datatype Author = Author(name: Option<string>)

  datatype S2Paper = S2Paper(
    paperId: Option<string>,
    title: Option<string>,
    authors: Option<seq<Author>>,
    abstractText: Option<string>,
    year: Option<U32>,
    externalIds: Option<ExternalIds>,
    citationCount: Option<U32>,
    url: Option<string>,
    openAccessPdf: Option<Option<string>>)

  /**
   * A citation edge: its JSON fields by name. A field whose value does not decode as a
   * paper is `None`.
   */
  datatype Edge = Edge(fields: map<string, Option<S2Paper>>)

  function AuthorName(a: Author): Option<string> { a.name }

  /** `s2_to_paper` */
  function S2ToPaper(p: S2Paper): PaperResult {
    PaperResult(
      "s2:" + p.paperId.UnwrapOr(""),
      p.title.UnwrapOr(""),
      FilterMap(p.authors.UnwrapOr([]), AuthorName),
      p.abstractText,
      p.year,
      "semantic_scholar",
      match p.externalIds case Some(e) => e.doi case None => None,
      match p.externalIds case Some(e) => e.arxiv case None => None,
      p.url.UnwrapOr(""),
      match p.openAccessPdf case Some(u) => u case None => None,
      p.citationCount)
  }

  /**
   * What a paper becomes: the paper id behind "s2:", the named authors, the DOI and arXiv
   * id from the external ids, and the open-access PDF url.
   */
  lemma S2ToPaperFields(p: S2Paper)
    ensures var r := S2ToPaper(p);
      && r.source == "semantic_scholar" && r.year == p.year && r.citationCount == p.citationCount
      && r.abstractText == p.abstractText && r.url == p.url.UnwrapOr("")
      && StripPrefix(r.id, "s2:") == p.paperId.UnwrapOr("")
      && (forall a :: a in r.authors <==>
            exists k :: 0 <= k < |p.authors.UnwrapOr([])| && p.authors.value[k].name == Some(a))
      && ((forall k :: 0 <= k < |p.authors.UnwrapOr([])| ==> p.authors.value[k].name.Some?) ==>
            |r.authors| == |p.authors.UnwrapOr([])|
            && forall k :: 0 <= k < |r.authors| ==> r.authors[k] == p.authors.value[k].name.value)
      && (r.doi.Some? <==> p.externalIds.Some? && p.externalIds.value.doi.Some?)
      && (r.doi.Some? ==> r.doi == p.externalIds.value.doi)
      && (r.arxivId.Some? <==> p.externalIds.Some? && p.externalIds.value.arxiv.Some?)
      && (r.arxivId.Some? ==> r.arxivId == p.externalIds.value.arxiv)
      && (r.pdfUrl.Some? <==> p.openAccessPdf.Some? && p.openAccessPdf.value.Some?)
      && (r.pdfUrl.Some? ==> r.pdfUrl == p.openAccessPdf.value)
  {
    StripPrefixOfPrefixed("s2:", p.paperId.UnwrapOr(""));
    if forall k :: 0 <= k < |p.authors.UnwrapOr([])| ==> p.authors.value[k].name.Some? {
      FilterMapTotal(p.authors.UnwrapOr([]), AuthorName);
    }
    forall a ensures a in S2ToPaper(p).authors <==>
        exists k :: 0 <= k < |p.authors.UnwrapOr([])| && p.authors.value[k].name == Some(a) {
      FilterMapMember(p.authors.UnwrapOr([]), AuthorName, a);
    }
  }

  /** The papers a search asks for: the requested number, at most 100. */
  function SearchLimit(maxResults: U32): (n: nat)
    ensures n <= MAX_LIMIT && n <= maxResults
    ensures n == maxResults || n == MAX_LIMIT
  {
    if maxResults < MAX_LIMIT then maxResults else MAX_LIMIT
  }

  /** `search`'s answer: every paper mapped, in order; no data is no papers. */
  function SearchResults(data: Option<seq<S2Paper>>): (r: seq<PaperResult>)
    ensures |r| == |data.UnwrapOr([])|
    ensures forall i :: 0 <= i < |r| ==> r[i] == S2ToPaper(data.value[i])
  {
    var s := data.UnwrapOr([]);
    seq(|s|, i requires 0 <= i < |s| => S2ToPaper(s[i]))
  }

  /** The paper id every lookup uses: the id without a leading "s2:". */
  function PaperId(id: string): string {
    StripPrefix(id, "s2:")
  }

  /** The id a search gives a paper leads a lookup back to that paper's id. */
  lemma PaperIdRoundTrip(p: S2Paper)
    ensures PaperId(S2ToPaper(p).id) == p.paperId.UnwrapOr("")
  {
    StripPrefixOfPrefixed("s2:", p.paperId.UnwrapOr(""));
  }

  /** `get_paper`: nothing for a 404 answer, else the paper mapped. */
  function GetPaper(notFound: bool, p: S2Paper): (r: Option<PaperResult>)
    ensures r.None? <==> notFound
    ensures r.Some? ==> PaperId(r.value.id) == p.paperId.UnwrapOr("")
  {
    PaperIdRoundTrip(p);
    if notFound then None else Some(S2ToPaper(p))
  }

  /** The paper under `key` of an edge, mapped; nothing when it is missing or undecodable. */
  function EdgePaper(e: Edge, key: string): Option<PaperResult> {
    if key in e.fields then
      match e.fields[key] case Some(p) => Some(S2ToPaper(p)) case None => None
    else None
  }

  /**
   * `get_citations` (key "citingPaper") and `get_references` (key "citedPaper"): the paper
   * under the key of every edge, in order, skipping edges without a decodable one.
   */
  function Related(data: Option<seq<Edge>>, key: string): (r: seq<PaperResult>)
    ensures |r| <= |data.UnwrapOr([])|
  {
    FilterMap(data.UnwrapOr([]), e => EdgePaper(e, key))
  }

  /**
   * Each related paper comes from an edge holding a decodable paper under the key, and each
   * such edge contributes its paper.
   */
  lemma RelatedMember(data: Option<seq<Edge>>, key: string, r: PaperResult)
    ensures r in Related(data, key) <==>
      exists i :: 0 <= i < |data.UnwrapOr([])| && key in data.value[i].fields
        && data.value[i].fields[key].Some? && S2ToPaper(data.value[i].fields[key].value) == r
  {
    FilterMapMember(data.UnwrapOr([]), e => EdgePaper(e, key), r);
  }

  /** When every edge holds a decodable paper under the key, none is dropped. */
  lemma RelatedComplete(data: seq<Edge>, key: string)
    requires forall i :: 0 <= i < |data| ==> key in data[i].fields && data[i].fields[key].Some?
    ensures |Related(Some(data), key)| == |data|
    ensures forall i :: 0 <= i < |data| ==>
      Related(Some(data), key)[i] == S2ToPaper(data[i].fields[key].value)
  {
    FilterMapTotal(data, e => EdgePaper(e, key));
  }
}
