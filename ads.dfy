/**
 * The NASA ADS adapter: a search document (already decoded from JSON) mapped to a paper,
 * the row cap of a search and the first-document answer of a lookup. The HTTP exchange and
 * the API key header are outside the model.
 */
module Ads {
  import opened Wrappers
  import opened Strings
  import opened Papers
  import opened Lists

  const BASE_URL: string := "https://api.adsabs.harvard.edu/v1"
  const ABS_URL: string := "https://ui.adsabs.harvard.edu/abs/"

  /** The most rows a search asks for. */
  const MAX_ROWS: nat := 200

  datatype Doc = Doc(
    bibcode: Option<string>,
    title: Option<seq<string>>,
    author: Option<seq<string>>,
    abstractText: Option<string>,
    year: Option<string>,
    doi: Option<seq<string>>,
    citationCount: Option<U32>)

  /** `doc_to_paper` */
  function DocToPaper(doc: Doc): PaperResult {
    var bibcode := doc.bibcode.UnwrapOr("");
    PaperResult(
      "ads:" + bibcode,
      (match doc.title case Some(ts) => First(ts) case None => None).UnwrapOr(""),
      doc.author.UnwrapOr([]),
      doc.abstractText,
      match doc.year case Some(y) => ParseU32(y) case None => None,
      "ads",
      match doc.doi case Some(ds) => First(ds) case None => None,
      None,
      ABS_URL + bibcode,
      None,
      doc.citationCount)
  }

  /**
   * What a document becomes: the bibcode can be read back from the id and the url, the
   * title and DOI are the first of their lists, the authors and abstract pass through, and
   * the year is the whole year text read as a number.
   */
  lemma DocToPaperFields(doc: Doc)
    ensures var p := DocToPaper(doc);
      && p.source == "ads" && p.arxivId.None? && p.pdfUrl.None?
      && p.authors == doc.author.UnwrapOr([]) && p.abstractText == doc.abstractText
      && p.citationCount == doc.citationCount
      && StripPrefix(p.id, "ads:") == doc.bibcode.UnwrapOr("")
      && StripPrefix(p.url, ABS_URL) == doc.bibcode.UnwrapOr("")
      && (doc.title.Some? && doc.title.value != [] ==> p.title == doc.title.value[0])
      && (doc.title.None? || doc.title.value == [] ==> p.title == "")
      && (p.doi.Some? <==> doc.doi.Some? && doc.doi.value != [])
      && (p.doi.Some? ==> p.doi.value == doc.doi.value[0])
      && (p.year.Some? <==> doc.year.Some? && ParseU32(doc.year.value).Some?)
      && (p.year.Some? ==> p.year == ParseU32(doc.year.value))
  {
    StripPrefixOfPrefixed("ads:", doc.bibcode.UnwrapOr(""));
    StripPrefixOfPrefixed(ABS_URL, doc.bibcode.UnwrapOr(""));
  }

  /** A year written as a plain number is read back as that number. */
  lemma DocYearDecimal(doc: Doc, y: U32)
    requires doc.year == Some(Decimal(y))
    ensures DocToPaper(doc).year == Some(y)
  {
    ParseDecimal(y);
  }

  /** The rows a search asks for: the requested number, at most 200. */
  function SearchRows(maxResults: U32): (rows: nat)
    ensures rows <= MAX_ROWS && rows <= maxResults
    ensures rows == maxResults || rows == MAX_ROWS
  {
    if maxResults < MAX_ROWS then maxResults else MAX_ROWS
  }

  /** The bibcode a lookup asks for: the id without a leading "ads:". */
  function Bibcode(id: string): string {
    StripPrefix(id, "ads:")
  }

  /** The lookup query for an id. */
  function LookupQuery(id: string): string {
    "bibcode:" + Bibcode(id)
  }

  /** A lookup of the id a document was given queries that document's bibcode. */
  lemma LookupRoundTrip(doc: Doc)
    ensures LookupQuery(DocToPaper(doc).id) == "bibcode:" + doc.bibcode.UnwrapOr("")
  {
    StripPrefixOfPrefixed("ads:", doc.bibcode.UnwrapOr(""));
  }

  /** The queries of `get_citations` and `get_references`: documents citing, or cited by, the bibcode. */
  function RelationQuery(id: string, citing: bool): (q: string)
    ensures citing ==> StripPrefix(q, "citations(bibcode:") == Bibcode(id) + ")"
    ensures !citing ==> StripPrefix(q, "references(bibcode:") == Bibcode(id) + ")"
  {
    StripPrefixOfPrefixed("citations(bibcode:", Bibcode(id) + ")");
    StripPrefixOfPrefixed("references(bibcode:", Bibcode(id) + ")");
    if citing then "citations(bibcode:" + Bibcode(id) + ")" else "references(bibcode:" + Bibcode(id) + ")"
  }

  /** `get_paper`: the first document of the answer, mapped, or nothing for no documents. */
  function GetPaper(docs: seq<Doc>): (r: Option<PaperResult>)
    ensures r.None? <==> docs == []
    ensures r.Some? ==> r.value == DocToPaper(docs[0])
  {
    match First(docs) case Some(d) => Some(DocToPaper(d)) case None => None
  }
}
