/**
 * The INSPIRE-HEP adapter: a literature hit (already decoded from JSON) mapped to a paper,
 * and the record id its lookups use. The HTTP exchange is outside the model.
 */
module Inspire {
  import opened Wrappers
  import opened Strings
  import opened Papers
  import opened Lists

  const BASE_URL: string := "https://inspirehep.net/api/literature"
  const LITERATURE_URL: string := "https://inspirehep.net/literature/"

  /**
   * A hit's metadata. Each list holds the `title`, `full_name` or `value` fields of its
   * entries.
   */
  datatype Metadata = Metadata(
    titles: Option<seq<string>>,
    authors: Option<seq<string>>,
    abstracts: Option<seq<string>>,
    dois: Option<seq<string>>,
    arxivEprints: Option<seq<string>>,
    citationCount: Option<U32>,
    urls: Option<seq<string>>,
    earliestDate: Option<string>)

  datatype Hit = Hit(id: string, metadata: Metadata)

  /** The first entry of an optional list. */
  function FirstOf(xs: Option<seq<string>>): Option<string> {
    match xs case Some(s) => First(s) case None => None
  }

  /** The year: the first four characters of the earliest date read as a number. */
  function DateYear(date: Option<string>): Option<U32> {
    match date
    case Some(d) => if |d| >= 4 then ParseU32(d[..4]) else None
    case None => None
  }

  /** `hit_to_paper` */
  function HitToPaper(hit: Hit): PaperResult {
    var m := hit.metadata;
    PaperResult(
      "inspire:" + hit.id,
      FirstOf(m.titles).UnwrapOr(""),
      m.authors.UnwrapOr([]),
      FirstOf(m.abstracts),
      DateYear(m.earliestDate),
      "inspire",
      FirstOf(m.dois),
      FirstOf(m.arxivEprints),
      LITERATURE_URL + hit.id,
      None,
      m.citationCount)
  }

  /**
   * What a hit becomes: the record id can be read back from the id and the url, the title,
   * abstract, DOI and arXiv id are the first of their lists, all author names are kept in
   * order, and the year comes from a date of at least four characters.
   */
  lemma HitToPaperFields(hit: Hit)
    ensures var p := HitToPaper(hit); var m := hit.metadata;
      && p.source == "inspire" && p.pdfUrl.None? && p.citationCount == m.citationCount
      && StripPrefix(p.id, "inspire:") == hit.id
      && StripPrefix(p.url, LITERATURE_URL) == hit.id
      && p.authors == m.authors.UnwrapOr([])
      && (p.abstractText.Some? <==> m.abstracts.Some? && m.abstracts.value != [])
      && (p.abstractText.Some? ==> p.abstractText.value == m.abstracts.value[0])
      && (p.doi.Some? <==> m.dois.Some? && m.dois.value != [])
      && (p.doi.Some? ==> p.doi.value == m.dois.value[0])
      && (p.arxivId.Some? <==> m.arxivEprints.Some? && m.arxivEprints.value != [])
      && (p.arxivId.Some? ==> p.arxivId.value == m.arxivEprints.value[0])
      && (m.titles.Some? && m.titles.value != [] ==> p.title == m.titles.value[0])
      && (m.titles.None? || m.titles.value == [] ==> p.title == "")
      && (p.year.Some? <==> m.earliestDate.Some? && |m.earliestDate.value| >= 4
                             && ParseU32(m.earliestDate.value[..4]).Some?)
      && (p.year.Some? ==> ParseU32(m.earliestDate.value[..4]) == p.year)
  {
    StripPrefixOfPrefixed("inspire:", hit.id);
    StripPrefixOfPrefixed(LITERATURE_URL, hit.id);
  }

  /** The record id a lookup uses: the id without a leading "inspire:", or the id itself. */
  function RecordId(id: string): string {
    StripPrefix(id, "inspire:")
  }

  /** A lookup of the id a hit was given asks for that hit's record. */
  lemma RecordIdRoundTrip(hit: Hit)
    ensures RecordId(HitToPaper(hit).id) == hit.id
    ensures !IsPrefix("inspire:", hit.id) ==> RecordId(hit.id) == hit.id
  {
    StripPrefixOfPrefixed("inspire:", hit.id);
  }

  /** `get_paper`: nothing for a 404 answer, else the hit mapped. */
  function GetPaper(notFound: bool, hit: Hit): (r: Option<PaperResult>)
    ensures r.None? <==> notFound
    ensures r.Some? ==> RecordId(r.value.id) == hit.id && r.value.source == "inspire"
  {
    RecordIdRoundTrip(hit);
    if notFound then None else Some(HitToPaper(hit))
  }

  /** `search`, `get_citations`, `get_references`: every hit mapped, in order. */
  function HitPapers(hits: seq<Hit>): (r: seq<PaperResult>)
    ensures |r| == |hits|
    ensures forall i :: 0 <= i < |r| ==> r[i] == HitToPaper(hits[i])
    ensures forall i :: 0 <= i < |r| ==> RecordId(r[i].id) == hits[i].id
  {
    forall i | 0 <= i < |hits| ensures RecordId(HitToPaper(hits[i]).id) == hits[i].id {
      RecordIdRoundTrip(hits[i]);
    }
    seq(|hits|, i requires 0 <= i < |hits| => HitToPaper(hits[i]))
  }

  /** The citation query: the records that refer to the given record. */
  function CitationsQuery(id: string): (q: string)
    ensures StripPrefix(q, "refersto:recid:") == RecordId(id)
  {
    StripPrefixOfPrefixed("refersto:recid:", RecordId(id));
    "refersto:recid:" + RecordId(id)
  }
}
