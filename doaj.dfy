/**
 * The DOAJ adapter: an article (already decoded from JSON) mapped to a paper, the query
 * path encoding, the page cap of a search and the search-backed lookup. The HTTP exchange
 * is outside the model.
 */
module Doaj {
  import opened Wrappers
  import opened Strings
  import opened Papers
  import opened Lists

  const BASE_URL: string := "https://doaj.org/api/search/articles"

  /** The most articles a search asks for. */
  const MAX_PAGE_SIZE: nat := 100

  datatype Author = Author(name: Option<string>)
  datatype Identifier = Identifier(idType: Option<string>, id: Option<string>)
  datatype Link = Link(url: Option<string>, linkType: Option<string>)

  datatype BibJson = BibJson(
    title: Option<string>,
    author: Option<seq<Author>>,
    abstractText: Option<string>,
    year: Option<string>,
    identifier: Option<seq<Identifier>>,
    link: Option<seq<Link>>)

  datatype Article = Article(bibjson: BibJson, id: Option<string>)

  predicate IsDoi(i: Identifier) { i.idType == Some("doi") }
  predicate IsFulltext(l: Link) { l.linkType == Some("fulltext") }
  function AuthorName(a: Author): Option<string> { a.name }

  /** The `id` of the first identifier typed "doi", if that identifier has one. */
  function ArticleDoi(ids: Option<seq<Identifier>>): Option<string> {
    match ids
    case None => None
    case Some(s) => match Find(s, IsDoi) case Some(i) => i.id case None => None
  }

  /** The URL of the first link, whatever its type; empty when it has none. */
  function ArticleUrl(links: Option<seq<Link>>): string {
    (match links
     case None => None
     case Some(s) => match First(s) case Some(l) => l.url case None => None).UnwrapOr("")
  }

  /** The URL of the first link typed "fulltext", if that link has one. */
  function FulltextUrl(links: Option<seq<Link>>): Option<string> {
    match links
    case None => None
    case Some(s) => match Find(s, IsFulltext) case Some(l) => l.url case None => None
  }

  /** `doaj_to_paper` */
  function DoajToPaper(r: Article): PaperResult {
    var bib := r.bibjson;
    PaperResult(
      "doaj:" + r.id.UnwrapOr(""),
      bib.title.UnwrapOr(""),
      FilterMap(bib.author.UnwrapOr([]), AuthorName),
      bib.abstractText,
      match bib.year case Some(y) => ParseU32(y) case None => None,
      "doaj",
      ArticleDoi(bib.identifier),
      None,
      ArticleUrl(bib.link),
      FulltextUrl(bib.link),
      None)
  }

  /**
   * What an article becomes: the article id behind "doaj:", the named authors, the DOI of
   * the first DOI identifier, the url of the first link (even when a later link has one and
   * the first does not), the url of the first full-text link, and no citation count.
   */
  lemma DoajToPaperFields(r: Article)
    ensures var p := DoajToPaper(r); var bib := r.bibjson;
      && p.source == "doaj" && p.arxivId.None? && p.citationCount.None?
      && p.abstractText == bib.abstractText
      && StripPrefix(p.id, "doaj:") == r.id.UnwrapOr("")
      && (forall a :: a in p.authors <==>
            exists k :: 0 <= k < |bib.author.UnwrapOr([])| && bib.author.value[k].name == Some(a))
      && (p.doi.Some? ==> exists k :: 0 <= k < |bib.identifier.value| && IsDoi(bib.identifier.value[k])
                             && bib.identifier.value[k].id == p.doi
                             && forall j :: 0 <= j < k ==> !IsDoi(bib.identifier.value[j]))
      && (bib.link.Some? && bib.link.value != [] && bib.link.value[0].url.Some? ==>
            p.url == bib.link.value[0].url.value)
      && (bib.link.None? || bib.link.value == [] || bib.link.value[0].url.None? ==> p.url == "")
      && (p.pdfUrl.Some? ==> exists k :: 0 <= k < |bib.link.value| && IsFulltext(bib.link.value[k])
                                && bib.link.value[k].url == p.pdfUrl
                                && forall j :: 0 <= j < k ==> !IsFulltext(bib.link.value[j]))
      && (bib.identifier.Some? ==>
            forall k :: (0 <= k < |bib.identifier.value| && IsDoi(bib.identifier.value[k])
                         && forall j :: 0 <= j < k ==> !IsDoi(bib.identifier.value[j]))
                        ==> p.doi == bib.identifier.value[k].id)
      && (bib.link.Some? ==>
            forall k :: (0 <= k < |bib.link.value| && IsFulltext(bib.link.value[k])
                         && forall j :: 0 <= j < k ==> !IsFulltext(bib.link.value[j]))
                        ==> p.pdfUrl == bib.link.value[k].url)
      && (p.year.Some? <==> bib.year.Some? && ParseU32(bib.year.value).Some?)
      && (p.year.Some? ==> p.year == ParseU32(bib.year.value))
  {
    var bib := r.bibjson;
    StripPrefixOfPrefixed("doaj:", r.id.UnwrapOr(""));
    var p := DoajToPaper(r);
    forall a ensures a in p.authors <==>
        exists k :: 0 <= k < |bib.author.UnwrapOr([])| && bib.author.value[k].name == Some(a) {
      FilterMapMember(bib.author.UnwrapOr([]), AuthorName, a);
    }
    if p.doi.Some? {
      var k := FindIndex(bib.identifier.value, IsDoi).value;
      assert IsDoi(bib.identifier.value[k]) && bib.identifier.value[k].id == p.doi;
    }
    if p.pdfUrl.Some? {
      var k := FindIndex(bib.link.value, IsFulltext).value;
      assert IsFulltext(bib.link.value[k]) && bib.link.value[k].url == p.pdfUrl;
    }
    FirstMatchDecides(r);
  }

  /** When every author is named, the authors are all the names, in order. */
  lemma AuthorsInOrder(r: Article)
    requires forall k :: 0 <= k < |r.bibjson.author.UnwrapOr([])| ==> r.bibjson.author.value[k].name.Some?
    ensures |DoajToPaper(r).authors| == |r.bibjson.author.UnwrapOr([])|
    ensures forall k :: 0 <= k < |DoajToPaper(r).authors| ==>
      DoajToPaper(r).authors[k] == r.bibjson.author.value[k].name.value
  {
    FilterMapTotal(r.bibjson.author.UnwrapOr([]), AuthorName);
  }

  /** The first DOI identifier and the first full-text link decide the DOI and the PDF url. */
  lemma FirstMatchDecides(r: Article)
    ensures var p := DoajToPaper(r); var bib := r.bibjson;
      && (bib.identifier.Some? ==>
            forall k :: (0 <= k < |bib.identifier.value| && IsDoi(bib.identifier.value[k])
                         && forall j :: 0 <= j < k ==> !IsDoi(bib.identifier.value[j]))
                        ==> p.doi == bib.identifier.value[k].id)
      && (bib.link.Some? ==>
            forall k :: (0 <= k < |bib.link.value| && IsFulltext(bib.link.value[k])
                         && forall j :: 0 <= j < k ==> !IsFulltext(bib.link.value[j]))
                        ==> p.pdfUrl == bib.link.value[k].url)
  {
    var bib := r.bibjson;
    if bib.identifier.Some? {
      forall k | 0 <= k < |bib.identifier.value| && IsDoi(bib.identifier.value[k])
                 && (forall j :: 0 <= j < k ==> !IsDoi(bib.identifier.value[j]))
        ensures DoajToPaper(r).doi == bib.identifier.value[k].id
      {
        var i := FindIndex(bib.identifier.value, IsDoi);
        assert i.Some? && i.value == k;
      }
    }
    if bib.link.Some? {
      forall k | 0 <= k < |bib.link.value| && IsFulltext(bib.link.value[k])
                 && (forall j :: 0 <= j < k ==> !IsFulltext(bib.link.value[j]))
        ensures DoajToPaper(r).pdfUrl == bib.link.value[k].url
      {
        var i := FindIndex(bib.link.value, IsFulltext);
        assert i.Some? && i.value == k;
      }
    }
  }

  /** A DOI identifier ahead of every other identifier decides the DOI, whatever follows. */
  lemma LeadingDoiWins(i: Identifier, rest: seq<Identifier>)
    requires IsDoi(i)
    ensures ArticleDoi(Some([i] + rest)) == i.id
  {
    assert ([i] + rest)[0] == i;
  }

  /** `urlencoded`: every space written as "%20", every other character kept. */
  function UrlEncoded(s: string): (r: string)
    ensures ' ' !in r
    ensures forall x :: x in s && x != ' ' ==> x in r
    ensures forall x :: x in r ==> x in "%20" || (x in s && x != ' ')
    ensures ' ' !in s ==> r == s
  {
    ReplaceChar(s, ' ', "%20")
  }

  /** The articles a search asks for: the requested number, at most 100. */
  function PageSize(maxResults: U32): (n: nat)
    ensures n <= MAX_PAGE_SIZE && n <= maxResults
    ensures n == maxResults || n == MAX_PAGE_SIZE
  {
    if maxResults < MAX_PAGE_SIZE then maxResults else MAX_PAGE_SIZE
  }

  /** `search`'s answer: every article mapped, in order; no `results` is no articles. */
  function SearchResults(results: Option<seq<Article>>): (r: seq<PaperResult>)
    ensures |r| == |results.UnwrapOr([])|
    ensures forall i :: 0 <= i < |r| ==> r[i] == DoajToPaper(results.value[i])
  {
    var s := results.UnwrapOr([]);
    seq(|s|, i requires 0 <= i < |s| => DoajToPaper(s[i]))
  }

  /** The text `get_paper` searches for: the id without a leading "doaj:". */
  function LookupText(id: string): string {
    StripPrefix(id, "doaj:")
  }

  /** The id a search gives an article leads `get_paper` back to that article's id. */
  lemma LookupRoundTrip(r: Article)
    ensures LookupText(DoajToPaper(r).id) == r.id.UnwrapOr("")
  {
    StripPrefixOfPrefixed("doaj:", r.id.UnwrapOr(""));
  }

  /**
   * `get_paper`: the first paper of a one-article search for the lookup text; `answer` is
   * what that search returned.
   */
  function GetPaper(answer: Option<seq<Article>>): (r: Option<PaperResult>)
    ensures r.None? <==> answer.UnwrapOr([]) == []
    ensures r.Some? ==> r.value == DoajToPaper(answer.value[0])
  {
    First(SearchResults(answer))
  }

  /** `get_citations` and `get_references`: DOAJ has no citation data. */
  function Related(id: string): (r: seq<PaperResult>)
    ensures r == []
  {
    []
  }
}
