/**
 * The CrossRef adapter: a work record (already decoded from JSON) mapped to a paper, the
 * row cap of a search and the single-work lookup. The HTTP exchange is outside the model.
 */
module CrossRef {
  import opened Wrappers
  import opened Strings
  import opened Papers
  import opened Lists

  const BASE_URL: string := "https://api.crossref.org/works"

  /** The most rows a search asks for. */
  const MAX_ROWS: nat := 100

  datatype Author = Author(given: Option<string>, family: Option<string>)

  /** `published`: its `date-parts`, a list of [year, month, day] lists. */
  datatype Date = Date(dateParts: Option<seq<seq<U32>>>)

  datatype Link = Link(url: Option<string>, contentType: Option<string>)

  /** One work of a search answer. */
  datatype Item = Item(
    doi: Option<string>,
    title: Option<seq<string>>,
    author: Option<seq<Author>>,
    citationCount: Option<U32>,
    published: Option<Date>,
    link: Option<seq<Link>>)

  /** The `message` of an answer: the works of a search, or the fields of one work. */
  datatype Message = Message(
    items: Option<seq<Item>>,
    doi: Option<string>,
    title: Option<seq<string>>,
    author: Option<seq<Author>>,
    citationCount: Option<U32>,
    published: Option<Date>)

  /** An author's name: given and family name joined by a space, then trimmed. */
  function AuthorName(a: Author): string {
    Trim(a.given.UnwrapOr("") + " " + a.family.UnwrapOr(""))
  }

  /**
   * For trimmed, non-empty parts the name is "given family"; with one part missing it is
   * the other part alone, and with both missing it is empty.
   */
  lemma AuthorNameParts(g: string, f: string)
    requires g != [] && !IsSpace(g[0]) && !IsSpace(g[|g| - 1])
    requires f != [] && !IsSpace(f[0]) && !IsSpace(f[|f| - 1])
    ensures AuthorName(Author(Some(g), Some(f))) == g + " " + f
    ensures AuthorName(Author(None, Some(f))) == f
    ensures AuthorName(Author(Some(g), None)) == g
    ensures AuthorName(Author(None, None)) == ""
  {
    var both := g + " " + f;
    assert both[0] == g[0] && both[|both| - 1] == f[|f| - 1];
    assert "" + " " + f == " " + f;
    assert g + " " + "" == g + " ";
    TrimOneSpace(f);
    TrimOneSpace(g);
    TrimOneSpace("");
    assert "" + " " + "" == " ";
  }

  predicate IsPdfLink(l: Link) {
    l.contentType == Some("application/pdf")
  }

  /** The URL of the first link typed "application/pdf", if that link has one. */
  function PdfUrl(links: Option<seq<Link>>): Option<string> {
    match links
    case None => None
    case Some(ls) =>
      match Find(ls, IsPdfLink)
      case None => None
      case Some(l) => l.url
  }

  /** The first number of the first date part. */
  function FirstDatePart(published: Option<Date>): Option<U32> {
    match published
    case Some(Date(Some(parts))) =>
      (match First(parts)
       case Some(part) => First(part)
       case None => None)
    case _ => None
  }

  /** `item_to_paper` */
  function ItemToPaper(item: Item): PaperResult {
    var doi := item.doi.UnwrapOr("");
    var authors := item.author.UnwrapOr([]);
    PaperResult(
      "doi:" + doi,
      match item.title case Some(ts) => First(ts).UnwrapOr("") case None => "",
      seq(|authors|, i requires 0 <= i < |authors| => AuthorName(authors[i])),
      None,
      FirstDatePart(item.published),
      "crossref",
      item.doi,
      None,
      "https://doi.org/" + doi,
      PdfUrl(item.link),
      item.citationCount)
  }

  /**
   * What a work becomes: the DOI can be read back from both the id and the url, one name
   * per author in order, the first title, the year from the first date part, the URL of
   * the first PDF link, and no abstract or arXiv id.
   */
  lemma ItemToPaperFields(item: Item)
    ensures var p := ItemToPaper(item);
      && p.source == "crossref" && p.abstractText.None? && p.arxivId.None?
      && p.doi == item.doi && p.citationCount == item.citationCount
      && StripPrefix(p.id, "doi:") == item.doi.UnwrapOr("")
      && StripPrefix(p.url, "https://doi.org/") == item.doi.UnwrapOr("")
      && |p.authors| == |item.author.UnwrapOr([])|
      && (forall i :: 0 <= i < |p.authors| ==> p.authors[i] == AuthorName(item.author.value[i]))
      && (p.title != [] ==> item.title.Some? && item.title.value != [] && p.title == item.title.value[0])
      && (item.title.Some? && item.title.value != [] ==> p.title == item.title.value[0])
      && (p.year.Some? <==> item.published.Some? && item.published.value.dateParts.Some?
                            && item.published.value.dateParts.value != []
                            && item.published.value.dateParts.value[0] != [])
      && (p.year.Some? ==> p.year.value == item.published.value.dateParts.value[0][0])
      && (p.pdfUrl.Some? ==> exists k :: 0 <= k < |item.link.value| && IsPdfLink(item.link.value[k])
                                && item.link.value[k].url == p.pdfUrl
                                && forall j :: 0 <= j < k ==> !IsPdfLink(item.link.value[j]))
      && (item.link.Some? ==>
            forall k :: (0 <= k < |item.link.value| && IsPdfLink(item.link.value[k])
                         && forall j :: 0 <= j < k ==> !IsPdfLink(item.link.value[j]))
                        ==> p.pdfUrl == item.link.value[k].url)
  {
    var doi := item.doi.UnwrapOr("");
    StripPrefixOfPrefixed("doi:", doi);
    StripPrefixOfPrefixed("https://doi.org/", doi);
    var p := ItemToPaper(item);
    if p.pdfUrl.Some? {
      var k := FindIndex(item.link.value, IsPdfLink).value;
      assert IsPdfLink(item.link.value[k]) && item.link.value[k].url == p.pdfUrl;
    }
    if item.link.Some? {
      forall k | 0 <= k < |item.link.value| && IsPdfLink(item.link.value[k])
                 && (forall j :: 0 <= j < k ==> !IsPdfLink(item.link.value[j]))
        ensures p.pdfUrl == item.link.value[k].url
      {
        var i := FindIndex(item.link.value, IsPdfLink);
        assert i.Some?;
        assert i.value == k;
      }
    }
  }

  /** The rows a search asks for: the requested number, at most 100. */
  function SearchRows(maxResults: U32): (rows: nat)
    ensures rows <= MAX_ROWS && rows <= maxResults
    ensures rows == maxResults || rows == MAX_ROWS
  {
    if maxResults < MAX_ROWS then maxResults else MAX_ROWS
  }

  /** `search`'s answer: every work of the message, mapped in order; no `items` is no works. */
  function SearchResults(msg: Message): (r: seq<PaperResult>)
    ensures |r| == |msg.items.UnwrapOr([])|
    ensures forall i :: 0 <= i < |r| ==> r[i] == ItemToPaper(msg.items.value[i])
  {
    var items := msg.items.UnwrapOr([]);
    seq(|items|, i requires 0 <= i < |items| => ItemToPaper(items[i]))
  }

  /** The DOI `get_paper` looks up: the id without a leading "doi:". */
  function LookupDoi(id: string): string {
    StripPrefix(id, "doi:")
  }

  /** A single work is rebuilt as an item without links. */
  function MessageItem(msg: Message): Item {
    Item(msg.doi, msg.title, msg.author, msg.citationCount, msg.published, None)
  }

  /** `get_paper`: nothing for a 404 answer, else the work in the message. */
  function GetPaper(notFound: bool, msg: Message): (r: Option<PaperResult>)
    ensures r.None? <==> notFound
    ensures r.Some? ==> r.value.pdfUrl.None? && r.value.doi == msg.doi && r.value.source == "crossref"
  {
    if notFound then None else Some(ItemToPaper(MessageItem(msg)))
  }

  /** `get_citations` and `get_references`: Crossref is not asked; the answer is always empty. */
  function Related(id: string): (r: seq<PaperResult>)
    ensures r == []
  {
    []
  }

  /** The id a search gives a work leads `get_paper` back to the same DOI. */
  lemma LookupDoiRoundTrip(item: Item)
    ensures LookupDoi(ItemToPaper(item).id) == item.doi.UnwrapOr("")
  {
    StripPrefixOfPrefixed("doi:", item.doi.UnwrapOr(""));
  }
}
