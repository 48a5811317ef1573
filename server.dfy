/**
 * The MCP server's tool handlers: which source a paper id is routed to, the clamped
 * limits, the local-search mode, and the loops that ask the enabled sources one after the
 * other (first paper found, first non-empty citation list, bulk indexing). A source is
 * named by its `Config.Source`; what a source answers to a lookup, a relation query or a
 * search is a parameter, as are the outcomes of the local index's storage calls. JSON
 * serialization of the replies is outside the model.
 */
module Server {
  import opened Wrappers
  import opened Strings
  import opened Papers
  import opened Lists
  import opened Config
  import Search
  import Specter
  import opened VectorDb
  import opened Fulltext
  import opened Hybrid
  import LocalIndex
  import Sequences
  import InspireApi = Inspire
  import CrossRefApi = CrossRef
  import AdsApi = Ads
  import OpenAlexApi = OpenAlex
  import DoajApi = Doaj
  import EuropePmcApi = EuropePmc
  import SemanticScholarApi = SemanticScholar
  import VixraApi = Vixra

  /** The number of results when a request gives none, and the caps the handlers apply. */
  const DEFAULT_LIMIT: nat := 10
  const SEARCH_CAP: nat := 100
  const INDEX_CAP: nat := 50

  const NOT_FOUND: string := "Paper not found: "

  // ---------------------------------------------------------------------------
  // Limits and modes
  // ---------------------------------------------------------------------------

  /** `unwrap_or(10).min(cap)`: the requested number, 10 when none is given, at most `cap`. */
  function ClampLimit(requested: Option<U32>, cap: nat): (n: nat)
    ensures n <= cap && n <= requested.UnwrapOr(DEFAULT_LIMIT)
    ensures n == cap || n == requested.UnwrapOr(DEFAULT_LIMIT)
  {
    var v := requested.UnwrapOr(DEFAULT_LIMIT);
    if v < cap then v else cap
  }

  /**
   * `search_local`'s mode: "keyword" and "vector" select the single-list searches; any
   * other text, and no text at all, selects the hybrid search.
   */
  function ModeOf(mode: Option<string>, query: string, embedding: seq<real>): (m: SearchMode)
    ensures m.KeywordOnly? <==> mode == Some("keyword")
    ensures m.VectorOnly? <==> mode == Some("vector")
    ensures m.KeywordOnly? ==> m.query == query
    ensures m.VectorOnly? ==> m.embedding == embedding
    ensures m.HybridMode? ==> m.query == query && m.embedding == embedding
  {
    var name := mode.UnwrapOr("hybrid");
    if name == "keyword" then KeywordOnly(query)
    else if name == "vector" then VectorOnly(embedding)
    else HybridMode(query, embedding)
  }

  // ---------------------------------------------------------------------------
  // Routing a paper id
  // ---------------------------------------------------------------------------

  /** The id prefix `get_paper` routes to each source. */
  function IdPrefix(s: Source): (p: string)
    ensures |p| >= 3
  {
    match s
    case Arxiv => "arxiv:"
    case Inspire => "inspire:"
    case SemanticScholar => "s2:"
    case Ads => "ads:"
    case CrossRef => "doi:"
    case EuropePmc => "pmid:"
    case Doaj => "doaj:"
    case Vixra => "vixra:"
    case OpenAlex => "openalex:"
  }

  /** The source whose id prefix begins with these three characters. */
  function KeyOwner(k: string): Option<Source> {
    if k == "arx" then Some(Arxiv)
    else if k == "ins" then Some(Inspire)
    else if k == "s2:" then Some(SemanticScholar)
    else if k == "ads" then Some(Ads)
    else if k == "doi" then Some(CrossRef)
    else if k == "pmi" then Some(EuropePmc)
    else if k == "doa" then Some(Doaj)
    else if k == "vix" then Some(Vixra)
    else if k == "ope" then Some(OpenAlex)
    else None
  }

  /** The first three characters of an id tell which prefix, if any, it carries. */
  lemma PrefixOwner(s: Source, id: string)
    requires IsPrefix(IdPrefix(s), id)
    ensures |id| >= 3 && KeyOwner(id[..3]) == Some(s)
  {
    assert id[..3] == IdPrefix(s)[..3];
    match s {
      case Arxiv => assert id[..3] == "arx";
      case Inspire => assert id[..3] == "ins";
      case SemanticScholar => assert id[..3] == "s2:";
      case Ads => assert id[..3] == "ads";
      case CrossRef => assert id[..3] == "doi";
      case EuropePmc => assert id[..3] == "pmi";
      case Doaj => assert id[..3] == "doa";
      case Vixra => assert id[..3] == "vix";
      case OpenAlex => assert id[..3] == "ope";
    }
  }

  /** The source an id's prefix routes to, checked in the handler's order. */
  function RouteOf(id: string): (r: Option<Source>)
    ensures r.Some? ==> IsPrefix(IdPrefix(r.value), id)
  {
    if IsPrefix("arxiv:", id) then Some(Arxiv)
    else if IsPrefix("inspire:", id) then Some(Inspire)
    else if IsPrefix("s2:", id) then Some(SemanticScholar)
    else if IsPrefix("ads:", id) then Some(Ads)
    else if IsPrefix("doi:", id) then Some(CrossRef)
    else if IsPrefix("pmid:", id) then Some(EuropePmc)
    else if IsPrefix("doaj:", id) then Some(Doaj)
    else if IsPrefix("vixra:", id) then Some(Vixra)
    else if IsPrefix("openalex:", id) then Some(OpenAlex)
    else None
  }

  /**
   * No id carries two of the prefixes, so the order of the tests does not matter: an id is
   * routed to a source exactly when it starts with that source's prefix, and to none when
   * it starts with no prefix.
   */
  lemma RouteOfSpec(id: string, s: Source)
    ensures RouteOf(id) == Some(s) <==> IsPrefix(IdPrefix(s), id)
    ensures RouteOf(id).None? <==> forall t :: !IsPrefix(IdPrefix(t), id)
  {
    if IsPrefix(IdPrefix(s), id) {
      PrefixOwner(s, id);
      assert RouteOf(id).Some? by {
        match s {
          case Arxiv =>
          case Inspire =>
          case SemanticScholar =>
          case Ads =>
          case CrossRef =>
          case EuropePmc =>
          case Doaj =>
          case Vixra =>
          case OpenAlex =>
        }
      }
      PrefixOwner(RouteOf(id).value, id);
    }
    if RouteOf(id).Some? {
      assert !forall t :: !IsPrefix(IdPrefix(t), id) by {
        assert IsPrefix(IdPrefix(RouteOf(id).value), id);
      }
    }
  }

  /** Every id a source's prefix starts is routed back to that source. */
  lemma PrefixedIdRoutes(s: Source, x: string)
    ensures RouteOf(IdPrefix(s) + x) == Some(s)
  {
    assert (IdPrefix(s) + x)[..|IdPrefix(s)|] == IdPrefix(s);
    RouteOfSpec(IdPrefix(s) + x, s);
  }

  /**
   * The source `get_paper` asks: the one the request names, else the one the id's prefix
   * routes to, else none (every source is asked).
   */
  function TargetSource(id: string, source: Option<string>): (r: Option<string>)
    ensures source.Some? ==> r == source
    ensures source.None? ==> (r.None? <==> RouteOf(id).None?)
    ensures source.None? && r.Some? ==> r.value == Name(RouteOf(id).value)
  {
    if source.Some? then source
    else match RouteOf(id) case Some(s) => Some(Name(s)) case None => None
  }

  /** The ids the adapters give their papers route back to the adapter that made them. */
  lemma AdapterIdsRouteHome(hit: InspireApi.Hit, item: CrossRefApi.Item, doc: AdsApi.Doc)
    ensures RouteOf(InspireApi.HitToPaper(hit).id) == Some(Inspire)
    ensures RouteOf(CrossRefApi.ItemToPaper(item).id) == Some(CrossRef)
    ensures RouteOf(AdsApi.DocToPaper(doc).id) == Some(Ads)
  {
    assert InspireApi.HitToPaper(hit).id == IdPrefix(Inspire) + hit.id;
    PrefixedIdRoutes(Inspire, hit.id);
    assert CrossRefApi.ItemToPaper(item).id == IdPrefix(CrossRef) + item.doi.UnwrapOr("");
    PrefixedIdRoutes(CrossRef, item.doi.UnwrapOr(""));
    assert AdsApi.DocToPaper(doc).id == IdPrefix(Ads) + doc.bibcode.UnwrapOr("");
    PrefixedIdRoutes(Ads, doc.bibcode.UnwrapOr(""));
  }

  /** So do the ids of OpenAlex works and viXra papers. */
  lemma OpenAlexVixraIdsRouteHome(work: OpenAlexApi.Work, v: string, title: string)
    ensures RouteOf(OpenAlexApi.OaToPaper(work).id) == Some(OpenAlex)
    ensures RouteOf(VixraApi.VixraPaper(v, title).id) == Some(Vixra)
  {
    assert OpenAlexApi.OaToPaper(work).id == IdPrefix(OpenAlex) + work.id.UnwrapOr("");
    PrefixedIdRoutes(OpenAlex, work.id.UnwrapOr(""));
    assert VixraApi.VixraPaper(v, title).id == IdPrefix(Vixra) + v;
    PrefixedIdRoutes(Vixra, v);
  }

  /** So do the ids of DOAJ articles. */
  lemma DoajIdsRouteHome(article: DoajApi.Article)
    ensures RouteOf(DoajApi.DoajToPaper(article).id) == Some(Doaj)
  {
    assert DoajApi.DoajToPaper(article).id == IdPrefix(Doaj) + article.id.UnwrapOr("");
    PrefixedIdRoutes(Doaj, article.id.UnwrapOr(""));
  }

  /** So do the ids of Semantic Scholar papers. */
  lemma S2IdsRouteHome(s2: SemanticScholarApi.S2Paper)
    ensures RouteOf(SemanticScholarApi.S2ToPaper(s2).id) == Some(SemanticScholar)
  {
    assert SemanticScholarApi.S2ToPaper(s2).id == IdPrefix(SemanticScholar) + s2.paperId.UnwrapOr("");
    PrefixedIdRoutes(SemanticScholar, s2.paperId.UnwrapOr(""));
  }

  /**
   * Europe PMC's ids route by the identifier they carry: a "pmid:" id to Europe PMC, a
   * "doi:" id to Crossref, and an "epmc:" id nowhere, so that every source is asked.
   */
  lemma EpmcIdsRoute(epmc: EuropePmcApi.EpmcResult)
    ensures epmc.pmid.Some? ==> RouteOf(EuropePmcApi.EpmcToPaper(epmc).id) == Some(EuropePmc)
    ensures epmc.pmid.None? && epmc.doi.Some? ==> RouteOf(EuropePmcApi.EpmcToPaper(epmc).id) == Some(CrossRef)
    ensures epmc.pmid.None? && epmc.doi.None? ==> RouteOf(EuropePmcApi.EpmcToPaper(epmc).id).None?
  {
    var id := EuropePmcApi.EpmcToPaper(epmc).id;
    assert id == EuropePmcApi.EpmcId(epmc);
    match epmc.pmid {
      case Some(p) =>
        assert id == IdPrefix(EuropePmc) + p;
        PrefixedIdRoutes(EuropePmc, p);
      case None =>
        match epmc.doi {
          case Some(d) =>
            assert id == IdPrefix(CrossRef) + d;
            PrefixedIdRoutes(CrossRef, d);
          case None =>
            assert id == "epmc:" + epmc.id.UnwrapOr("");
            assert id[..3] == "epm";
            forall t ensures !IsPrefix(IdPrefix(t), id) {
              if IsPrefix(IdPrefix(t), id) {
                PrefixOwner(t, id);
              }
            }
            RouteOfSpec(id, Arxiv);
        }
    }
  }

  // ---------------------------------------------------------------------------
  // Asking the sources in turn
  // ---------------------------------------------------------------------------

  /** A source is asked when there is no target or its name equals the target up to ASCII case. */
  predicate Matches(target: Option<string>, name: string) {
    target.None? || EqIgnoreCase(name, target.value)
  }

  /** Two sources' names agree up to ASCII case only when they are the same source. */
  lemma NameMatches(a: Source, b: Source)
    ensures Matches(Some(Name(b)), Name(a)) <==> a == b
  {
    LowerName(a);
    LowerName(b);
  }

  /** A source that is asked and answers a lookup with a paper. */
  predicate Yields(target: Option<string>, s: Source, id: string,
                   lookup: (Source, string) -> Result<Option<PaperResult>, SourceError>) {
    Matches(target, Name(s)) && lookup(s, id).Ok? && lookup(s, id).value.Some?
  }

  /**
   * The paper the first asked source that finds one returns; answers of `None` and errors
   * pass on to the next source. `lookup` stands for a source's `get_paper`.
   */
  function FirstPaper(sources: seq<Source>, target: Option<string>, id: string,
                      lookup: (Source, string) -> Result<Option<PaperResult>, SourceError>): (r: Option<PaperResult>)
    ensures r.None? <==> forall i :: 0 <= i < |sources| ==> !Yields(target, sources[i], id, lookup)
    ensures r.Some? ==> exists i :: 0 <= i < |sources| && Yields(target, sources[i], id, lookup)
                                    && lookup(sources[i], id) == Ok(r)
                                    && forall j :: 0 <= j < i ==> !Yields(target, sources[j], id, lookup)
  {
    match FindIndex(sources, s => Yields(target, s, id, lookup))
    case None => None
    case Some(i) => lookup(sources[i], id).value
  }

  /** The first source that yields a paper decides the result. */
  lemma FirstPaperAt(sources: seq<Source>, target: Option<string>, id: string,
                     lookup: (Source, string) -> Result<Option<PaperResult>, SourceError>, i: nat)
    requires i < |sources| && Yields(target, sources[i], id, lookup)
    requires forall j :: 0 <= j < i ==> !Yields(target, sources[j], id, lookup)
    ensures FirstPaper(sources, target, id, lookup) == lookup(sources[i], id).value
  {
    var r := FirstPaper(sources, target, id, lookup);
    var k :| 0 <= k < |sources| && Yields(target, sources[k], id, lookup) && lookup(sources[k], id) == Ok(r)
             && forall j :: 0 <= j < k ==> !Yields(target, sources[j], id, lookup);
  }

  /**
   * The lookup loop shared by `get_paper` and `index_paper`: asks the matching sources in
   * order and stops at the first paper found.
   */
  method FetchFirst(sources: seq<Source>, target: Option<string>, id: string,
                    lookup: (Source, string) -> Result<Option<PaperResult>, SourceError>)
    returns (paper: Option<PaperResult>)
    ensures paper == FirstPaper(sources, target, id, lookup)
  {
    var i := 0;
    while i < |sources|
      invariant 0 <= i <= |sources|
      invariant forall j :: 0 <= j < i ==> !Yields(target, sources[j], id, lookup)
    {
      var src := sources[i];
      if target.Some? && !EqIgnoreCase(Name(src), target.value) {
        i := i + 1;
        continue;
      }
      var answer := lookup(src, id);
      if answer.Ok? && answer.value.Some? {
        FirstPaperAt(sources, target, id, lookup, i);
        return answer.value;
      }
      i := i + 1;
    }
    return None;
  }

  /** What `get_paper` replies: the paper, or the not-found text. */
  datatype Reply = Found(paper: PaperResult) | NotFound(message: string)

  /** The not-found text names the id it was given. */
  function NotFoundMessage(id: string): (m: string)
    ensures StripPrefix(m, NOT_FOUND) == id
  {
    StripPrefixOfPrefixed(NOT_FOUND, id);
    NOT_FOUND + id
  }

  /**
   * `get_paper`: the local index is asked first and a paper it holds is returned; a failed
   * local lookup counts as not found there. Then the sources are asked in order, only the
   * target source when the request names one or the id's prefix routes to one.
   */
  method GetPaper(idx: LocalIndex.LocalIndex, sources: seq<Source>, id: string, source: Option<string>,
                  localOk: bool, lookup: (Source, string) -> Result<Option<PaperResult>, SourceError>)
    returns (reply: Reply)
    ensures localOk && VectorDb.Lookup(idx.vector.rows, id).Some? ==> reply == Found(VectorDb.Lookup(idx.vector.rows, id).value)
    ensures !(localOk && VectorDb.Lookup(idx.vector.rows, id).Some?) ==>
      reply == match FirstPaper(sources, TargetSource(id, source), id, lookup)
               case Some(p) => Found(p)
               case None => NotFound(NotFoundMessage(id))
  {
    var target := TargetSource(id, source);
    var local := idx.GetPaper(id, localOk);
    if local.Ok? && local.value.Some? {
      return Found(local.value.value);
    }
    var paper := FetchFirst(sources, target, id, lookup);
    if paper.Some? {
      return Found(paper.value);
    }
    return NotFound(NotFoundMessage(id));
  }

  /**
   * With no explicit source, a prefixed id is looked up only at the source its prefix
   * routes to: a paper found came from that source's answer, and when that source is not
   * enabled nothing is found.
   */
  lemma RoutedLookupStaysHome(sources: seq<Source>, s: Source, x: string,
                              lookup: (Source, string) -> Result<Option<PaperResult>, SourceError>)
    ensures var id := IdPrefix(s) + x;
      var r := FirstPaper(sources, TargetSource(id, None), id, lookup);
      && (r.Some? ==> s in sources && lookup(s, id) == Ok(r))
      && (s !in sources ==> r.None?)
  {
    var id := IdPrefix(s) + x;
    PrefixedIdRoutes(s, x);
    var target := TargetSource(id, None);
    assert target == Some(Name(s));
    var r := FirstPaper(sources, target, id, lookup);
    if r.Some? {
      var i :| 0 <= i < |sources| && Yields(target, sources[i], id, lookup) && lookup(sources[i], id) == Ok(r);
      NameMatches(sources[i], s);
    }
    if s !in sources {
      forall i | 0 <= i < |sources| ensures !Yields(target, sources[i], id, lookup) {
        NameMatches(sources[i], s);
      }
    }
  }

  /** The confirmation `index_paper` replies with. */
  function IndexedMessage(p: PaperResult): (m: string)
    ensures StripPrefix(m, "Indexed: ") == p.id + " - " + p.title
  {
    StripPrefixOfPrefixed("Indexed: ", p.id + " - " + p.title);
    "Indexed: " + p.id + " - " + p.title
  }

  /**
   * `index_paper`: fetches the paper from the first source that finds it (only the named
   * source when the request names one; the id's prefix plays no part) and indexes it with
   * its mock embedding. No paper is an error and leaves the index alone; a failed indexing
   * is an error that leaves the stores as the failing step left them.
   */
  method IndexPaper(idx: LocalIndex.LocalIndex, sources: seq<Source>, id: string, source: Option<string>,
                    lookup: (Source, string) -> Result<Option<PaperResult>, SourceError>,
                    hash: string -> bv64, addOk: bool, vectorOk: bool, commit: CommitOutcome)
    returns (r: Result<string, string>)
    modifies idx.fulltext, idx.vector
    ensures var found := FirstPaper(sources, source, id, lookup);
      found.None? ==> r == Err(NotFoundMessage(id)) && unchanged(idx.fulltext) && unchanged(idx.vector)
    ensures var found := FirstPaper(sources, source, id, lookup);
      found.Some? ==> (r.Ok? <==> addOk && vectorOk && commit.Committed?)
    ensures var found := FirstPaper(sources, source, id, lookup);
      found.Some? ==> idx.State() == LocalIndex.IndexEffect(old(idx.State()), found.value,
                                       LocalIndex.MockEmbeddingOf(found.value, hash), addOk, vectorOk, commit)
    ensures var found := FirstPaper(sources, source, id, lookup);
      found.Some? && r.Ok? ==> r.value == IndexedMessage(found.value)
    ensures var found := FirstPaper(sources, source, id, lookup);
      found.Some? && addOk && vectorOk ==>
        idx.vector.rows == old(idx.vector.rows)
                           + [MakeRow(found.value, Specter.MockValues(hash(LocalIndex.MockText(found.value))))]
    ensures var found := FirstPaper(sources, source, id, lookup);
      found.Some? && addOk && vectorOk && VectorDb.Lookup(old(idx.vector.rows), found.value.id).None? ==>
        VectorDb.Lookup(idx.vector.rows, found.value.id) == found
  {
    var paper := FetchFirst(sources, source, id, lookup);
    if paper.None? {
      return Err(NotFoundMessage(id));
    }
    var p := paper.value;
    ghost var before := idx.vector.rows;
    var indexed := idx.IndexPaperMock(p, hash, addOk, vectorOk, commit);
    LocalIndex.IndexEffectSpec(old(idx.State()), p, LocalIndex.MockEmbeddingOf(p, hash), addOk, vectorOk, commit);
    LocalIndex.LookupAfterAdd(before, p, Specter.MockValues(hash(LocalIndex.MockText(p))));
    if indexed.Err? {
      return Err("Indexing failed: " + indexed.error);
    }
    return Ok(IndexedMessage(p));
  }

  /** A source that is asked and answers a relation query with a non-empty list. */
  predicate Delivers(target: Option<string>, s: Source, id: string,
                     relation: (Source, string) -> Result<seq<PaperResult>, SourceError>) {
    Matches(target, Name(s)) && relation(s, id).Ok? && relation(s, id).value != []
  }

  /**
   * The list the first asked source with a non-empty answer returns, else no papers; empty
   * answers and errors pass on to the next source.
   */
  function FirstNonEmpty(sources: seq<Source>, target: Option<string>, id: string,
                         relation: (Source, string) -> Result<seq<PaperResult>, SourceError>): (r: seq<PaperResult>)
    ensures r == [] <==> forall i :: 0 <= i < |sources| ==> !Delivers(target, sources[i], id, relation)
    ensures r != [] ==> exists i :: 0 <= i < |sources| && Delivers(target, sources[i], id, relation)
                                    && relation(sources[i], id) == Ok(r)
                                    && forall j :: 0 <= j < i ==> !Delivers(target, sources[j], id, relation)
  {
    match FindIndex(sources, s => Delivers(target, s, id, relation))
    case None => []
    case Some(i) => relation(sources[i], id).value
  }

  /** The first source that delivers a non-empty list decides the result. */
  lemma FirstNonEmptyAt(sources: seq<Source>, target: Option<string>, id: string,
                        relation: (Source, string) -> Result<seq<PaperResult>, SourceError>, i: nat)
    requires i < |sources| && Delivers(target, sources[i], id, relation)
    requires forall j :: 0 <= j < i ==> !Delivers(target, sources[j], id, relation)
    ensures FirstNonEmpty(sources, target, id, relation) == relation(sources[i], id).value
  {
    var r := FirstNonEmpty(sources, target, id, relation);
    var k :| 0 <= k < |sources| && Delivers(target, sources[k], id, relation) && relation(sources[k], id) == Ok(r)
             && forall j :: 0 <= j < k ==> !Delivers(target, sources[j], id, relation);
  }

  /**
   * `query_relation`, behind `get_citations` and `get_references`: asks the sources in
   * order (only the named one when the request names one) and returns the first non-empty
   * list. `relation` stands for a source's `get_citations` or `get_references`.
   */
  method QueryRelation(sources: seq<Source>, id: string, source: Option<string>,
                       relation: (Source, string) -> Result<seq<PaperResult>, SourceError>)
    returns (results: seq<PaperResult>)
    ensures results == FirstNonEmpty(sources, source, id, relation)
  {
    var i := 0;
    while i < |sources|
      invariant 0 <= i <= |sources|
      invariant forall j :: 0 <= j < i ==> !Delivers(source, sources[j], id, relation)
    {
      var src := sources[i];
      if source.Some? && !EqIgnoreCase(Name(src), source.value) {
        i := i + 1;
        continue;
      }
      var answer := relation(src, id);
      if answer.Ok? && answer.value != [] {
        FirstNonEmptyAt(sources, source, id, relation, i);
        return answer.value;
      }
      i := i + 1;
    }
    return [];
  }

  // ---------------------------------------------------------------------------
  // Federated search and bulk indexing
  // ---------------------------------------------------------------------------

  /** The names of the sources, in order, as the federated search sees them. */
  function Names(sources: seq<Source>): (r: seq<string>)
    ensures |r| == |sources|
    ensures forall i :: 0 <= i < |sources| ==> r[i] == Name(sources[i])
  {
    seq(|sources|, i requires 0 <= i < |sources| => Name(sources[i]))
  }

  /** What the federated search returns for these sources and this total. */
  function QueryPapers(names: seq<string>, query: string, maxResults: U32, filter: Option<seq<string>>,
                       provider: (string, string, U32) -> Search.TaskOutcome): seq<PaperResult>
    requires 2 * maxResults < U32_LIMIT
  {
    var active := Search.ActiveSources(names, filter);
    if active == [] then []
    else Search.DedupAndRank(Search.Collect(Search.Outcomes(active, query, Search.PerSourceQuota(maxResults, |active|), provider)),
                             maxResults)
  }

  /**
   * `search_papers`: the federated search for at most 100 results, 10 by default; the
   * result keeps within that number.
   */
  method SearchPapers(sources: seq<Source>, query: string, maxResults: Option<U32>, filter: Option<seq<string>>,
                      provider: (string, string, U32) -> Search.TaskOutcome)
    returns (papers: seq<PaperResult>)
    ensures papers == QueryPapers(Names(sources), query, ClampLimit(maxResults, SEARCH_CAP), filter, provider)
    ensures |papers| <= ClampLimit(maxResults, SEARCH_CAP)
  {
    var max := ClampLimit(maxResults, SEARCH_CAP);
    papers := Search.FederatedSearch(Names(sources), query, max, filter, provider);
    var active := Search.ActiveSources(Names(sources), filter);
    if active != [] {
      Search.DedupAndRankProperties(
        Search.Collect(Search.Outcomes(active, query, Search.PerSourceQuota(max, |active|), provider)), max);
    }
  }

  /** The filter `index_from_query` passes on: the one named source, if any. */
  function SourceFilter(source: Option<string>): (f: Option<seq<string>>)
    ensures f.None? <==> source.None?
    ensures f.Some? ==> f.value == [source.value]
  {
    match source case Some(s) => Some([s]) case None => None
  }

  /** The number of positions below `n` where `p` holds. */
  function CountWhere(n: nat, p: nat -> bool): (c: nat)
    ensures c <= n
    ensures (forall k :: 0 <= k < n ==> p(k)) ==> c == n
    ensures (forall k :: 0 <= k < n ==> !p(k)) ==> c == 0
  {
    if n == 0 then 0 else CountWhere(n - 1, p) + (if p(n - 1) then 1 else 0)
  }

  /** Counting one position further adds one exactly when `p` holds there. */
  lemma CountWhereNext(n: nat, p: nat -> bool)
    ensures CountWhere(n + 1, p) == CountWhere(n, p) + (if p(n) then 1 else 0)
  {
  }

  /** The `k`th indexing succeeded in all its steps. */
  function AllOk(addOk: nat -> bool, vectorOk: nat -> bool, commit: nat -> CommitOutcome): nat -> bool {
    (k: nat) => addOk(k) && vectorOk(k) && commit(k).Committed?
  }

  /** The `k`th indexing added its row to the vector store. */
  function RowAdded(addOk: nat -> bool, vectorOk: nat -> bool): nat -> bool {
    (k: nat) => addOk(k) && vectorOk(k)
  }

  /** The `k`th indexing published what was staged. */
  function PublishedAt(addOk: nat -> bool, vectorOk: nat -> bool, commit: nat -> CommitOutcome): nat -> bool {
    (k: nat) => addOk(k) && vectorOk(k) && !commit(k).WriteFails?
  }

  /** The stores after the first `n` papers are indexed in turn with their mock embeddings. */
  function IndexEffects(s: LocalIndex.Stores, papers: seq<PaperResult>, hash: string -> bv64,
                        addOk: nat -> bool, vectorOk: nat -> bool, commit: nat -> CommitOutcome, n: nat)
    : LocalIndex.Stores
    requires n <= |papers|
  {
    if n == 0 then s
    else LocalIndex.IndexEffect(IndexEffects(s, papers, hash, addOk, vectorOk, commit, n - 1), papers[n - 1],
                                LocalIndex.MockEmbeddingOf(papers[n - 1], hash), addOk(n - 1), vectorOk(n - 1),
                                commit(n - 1))
  }

  /** The rows the first `n` indexings add: one per paper whose two adds succeed, in order. */
  function AddedRows(papers: seq<PaperResult>, hash: string -> bv64, addOk: nat -> bool, vectorOk: nat -> bool,
                     n: nat): seq<Row>
    requires n <= |papers|
  {
    if n == 0 then []
    else AddedRows(papers, hash, addOk, vectorOk, n - 1)
         + (if addOk(n - 1) && vectorOk(n - 1) then [MakeRow(papers[n - 1], LocalIndex.MockEmbeddingOf(papers[n - 1], hash))]
            else [])
  }

  /** The staged full-text operations `pending` followed by those the first `n` indexings stage, in order. */
  function StagedAfter(pending: seq<Op>, papers: seq<PaperResult>, addOk: nat -> bool, n: nat): seq<Op>
    requires n <= |papers|
  {
    if n == 0 then pending else StagedAfter(pending, papers, addOk, n - 1) + LocalIndex.StagedBy(papers[n - 1], addOk(n - 1))
  }

  /** The first `n` indexings add one row per paper whose two adds succeed. */
  lemma {:induction false} AddedRowsCount(papers: seq<PaperResult>, hash: string -> bv64, addOk: nat -> bool,
                                          vectorOk: nat -> bool, n: nat)
    requires n <= |papers|
    ensures |AddedRows(papers, hash, addOk, vectorOk, n)| == CountWhere(n, RowAdded(addOk, vectorOk))
  {
    if n > 0 {
      AddedRowsCount(papers, hash, addOk, vectorOk, n - 1);
    }
  }

  /** The rows after the first `n` indexings: the old rows, then the added ones. */
  lemma {:induction false} IndexEffectsRows(s: LocalIndex.Stores, papers: seq<PaperResult>, hash: string -> bv64,
                                            addOk: nat -> bool, vectorOk: nat -> bool,
                                            commit: nat -> CommitOutcome, n: nat)
    requires n <= |papers|
    ensures IndexEffects(s, papers, hash, addOk, vectorOk, commit, n).rows
            == s.rows + AddedRows(papers, hash, addOk, vectorOk, n)
  {
    if n > 0 {
      var prev := IndexEffects(s, papers, hash, addOk, vectorOk, commit, n - 1);
      var paper := papers[n - 1];
      IndexEffectsRows(s, papers, hash, addOk, vectorOk, commit, n - 1);
      LocalIndex.IndexEffectAppends(prev, paper, LocalIndex.MockEmbeddingOf(paper, hash), addOk(n - 1), vectorOk(n - 1),
                                    commit(n - 1), s.rows, AddedRows(papers, hash, addOk, vectorOk, n - 1));
    }
  }

  /**
   * Publishing what the first `n` indexings leave gives what publishing everything they
   * staged would.
   */
  lemma {:induction false} IndexEffectsDocs(s: LocalIndex.Stores, papers: seq<PaperResult>, hash: string -> bv64,
                                            addOk: nat -> bool, vectorOk: nat -> bool,
                                            commit: nat -> CommitOutcome, n: nat)
    requires n <= |papers|
    ensures var e := IndexEffects(s, papers, hash, addOk, vectorOk, commit, n);
      Apply(e.docs, e.pending) == Apply(s.docs, StagedAfter(s.pending, papers, addOk, n))
  {
    if n > 0 {
      var prev := IndexEffects(s, papers, hash, addOk, vectorOk, commit, n - 1);
      var paper := papers[n - 1];
      IndexEffectsDocs(s, papers, hash, addOk, vectorOk, commit, n - 1);
      LocalIndex.IndexEffectPublishes(prev, paper, LocalIndex.MockEmbeddingOf(paper, hash), addOk(n - 1),
                                      vectorOk(n - 1), commit(n - 1), s.docs, StagedAfter(s.pending, papers, addOk, n - 1));
    }
  }

  /**
   * Nothing is published unless one of the first `n` indexings publishes: until then the
   * documents are the old ones and everything staged waits; after an indexing publishes,
   * nothing stays staged.
   */
  lemma {:induction false} IndexEffectsStaged(s: LocalIndex.Stores, papers: seq<PaperResult>, hash: string -> bv64,
                                              addOk: nat -> bool, vectorOk: nat -> bool,
                                              commit: nat -> CommitOutcome, n: nat)
    requires n <= |papers|
    ensures var e := IndexEffects(s, papers, hash, addOk, vectorOk, commit, n);
      (forall k :: 0 <= k < n ==> !PublishedAt(addOk, vectorOk, commit)(k)) ==>
        e.docs == s.docs && e.pending == StagedAfter(s.pending, papers, addOk, n)
    ensures var e := IndexEffects(s, papers, hash, addOk, vectorOk, commit, n);
      n > 0 && PublishedAt(addOk, vectorOk, commit)(n - 1) ==> e.pending == []
  {
    if n > 0 {
      var prev := IndexEffects(s, papers, hash, addOk, vectorOk, commit, n - 1);
      var paper := papers[n - 1];
      var emb := LocalIndex.MockEmbeddingOf(paper, hash);
      assert LocalIndex.Published(emb, addOk(n - 1), vectorOk(n - 1), commit(n - 1))
             == PublishedAt(addOk, vectorOk, commit)(n - 1);
      if forall k :: 0 <= k < n ==> !PublishedAt(addOk, vectorOk, commit)(k) {
        assert forall k :: 0 <= k < n - 1 ==> !PublishedAt(addOk, vectorOk, commit)(k);
        IndexEffectsStaged(s, papers, hash, addOk, vectorOk, commit, n - 1);
      }
    }
  }

  /**
   * `index_from_query`: the federated search for at most 50 results (10 by default),
   * restricted to the named source if any, then every paper found indexed in turn; a
   * failure skips that paper. Returns how many were indexed and how many were found.
   * `addOk(k)`, `vectorOk(k)` and `commit(k)` are the outcomes of the `k`th indexing's
   * steps.
   */
  method IndexFromQuery(idx: LocalIndex.LocalIndex, sources: seq<Source>, query: string,
                        maxResults: Option<U32>, source: Option<string>,
                        provider: (string, string, U32) -> Search.TaskOutcome, hash: string -> bv64,
                        addOk: nat -> bool, vectorOk: nat -> bool, commit: nat -> CommitOutcome)
    returns (indexed: nat, total: nat)
    modifies idx.fulltext, idx.vector
    ensures total == |QueryPapers(Names(sources), query, ClampLimit(maxResults, INDEX_CAP), SourceFilter(source), provider)|
    ensures total <= ClampLimit(maxResults, INDEX_CAP)
    ensures indexed == CountWhere(total, AllOk(addOk, vectorOk, commit)) && indexed <= total
    ensures |idx.vector.rows| == |old(idx.vector.rows)| + CountWhere(total, RowAdded(addOk, vectorOk))
    ensures var papers := QueryPapers(Names(sources), query, ClampLimit(maxResults, INDEX_CAP), SourceFilter(source), provider);
      idx.State() == IndexEffects(old(idx.State()), papers, hash, addOk, vectorOk, commit, |papers|)
    ensures var papers := QueryPapers(Names(sources), query, ClampLimit(maxResults, INDEX_CAP), SourceFilter(source), provider);
      idx.vector.rows == old(idx.vector.rows) + AddedRows(papers, hash, addOk, vectorOk, |papers|)
  {
    var papers := SearchIndexQuery(sources, query, maxResults, source, provider);
    total := |papers|;
    indexed := IndexAll(idx, papers, hash, addOk, vectorOk, commit);
  }

  /** The loop of `index_from_query`: indexes every paper in turn and counts the successes. */
  method IndexAll(idx: LocalIndex.LocalIndex, papers: seq<PaperResult>, hash: string -> bv64,
                  addOk: nat -> bool, vectorOk: nat -> bool, commit: nat -> CommitOutcome)
    returns (indexed: nat)
    modifies idx.fulltext, idx.vector
    ensures indexed == CountWhere(|papers|, AllOk(addOk, vectorOk, commit))
    ensures |idx.vector.rows| == |old(idx.vector.rows)| + CountWhere(|papers|, RowAdded(addOk, vectorOk))
    ensures idx.State() == IndexEffects(old(idx.State()), papers, hash, addOk, vectorOk, commit, |papers|)
    ensures idx.vector.rows == old(idx.vector.rows) + AddedRows(papers, hash, addOk, vectorOk, |papers|)
  {
    indexed := 0;
    var i := 0;
    while i < |papers|
      invariant 0 <= i <= |papers|
      invariant indexed == CountWhere(i, AllOk(addOk, vectorOk, commit))
      invariant idx.State() == IndexEffects(old(idx.State()), papers, hash, addOk, vectorOk, commit, i)
    {
      var ok := IndexOne(idx, papers[i], hash, addOk(i), vectorOk(i), commit(i));
      CountWhereNext(i, AllOk(addOk, vectorOk, commit));
      if ok {
        indexed := indexed + 1;
      }
      i := i + 1;
    }
    IndexEffectsRows(old(idx.State()), papers, hash, addOk, vectorOk, commit, |papers|);
    AddedRowsCount(papers, hash, addOk, vectorOk, |papers|);
  }

  /** One indexing of the bulk loop: whether it succeeded, and what it did to the stores. */
  method IndexOne(idx: LocalIndex.LocalIndex, paper: PaperResult, hash: string -> bv64,
                  addOk: bool, vectorOk: bool, commit: CommitOutcome)
    returns (ok: bool)
    modifies idx.fulltext, idx.vector
    ensures ok <==> addOk && vectorOk && commit.Committed?
    ensures |idx.vector.rows| == |old(idx.vector.rows)| + (if addOk && vectorOk then 1 else 0)
    ensures idx.State() == LocalIndex.IndexEffect(old(idx.State()), paper, LocalIndex.MockEmbeddingOf(paper, hash),
                                                  addOk, vectorOk, commit)
  {
    var r := idx.IndexPaperMock(paper, hash, addOk, vectorOk, commit);
    LocalIndex.IndexEffectSpec(old(idx.State()), paper, LocalIndex.MockEmbeddingOf(paper, hash), addOk, vectorOk, commit);
    ok := r.Ok?;
  }

  /** The search step of `index_from_query`. */
  method SearchIndexQuery(sources: seq<Source>, query: string, maxResults: Option<U32>, source: Option<string>,
                          provider: (string, string, U32) -> Search.TaskOutcome)
    returns (papers: seq<PaperResult>)
    ensures papers == QueryPapers(Names(sources), query, ClampLimit(maxResults, INDEX_CAP), SourceFilter(source), provider)
    ensures |papers| <= ClampLimit(maxResults, INDEX_CAP)
  {
    var max := ClampLimit(maxResults, INDEX_CAP);
    papers := Search.FederatedSearch(Names(sources), query, max, SourceFilter(source), provider);
    var active := Search.ActiveSources(Names(sources), SourceFilter(source));
    if active != [] {
      Search.DedupAndRankProperties(
        Search.Collect(Search.Outcomes(active, query, Search.PerSourceQuota(max, |active|), provider)), max);
    }
  }

  // ---------------------------------------------------------------------------
  // Local searches
  // ---------------------------------------------------------------------------

  /**
   * `search_local`: at most 100 results (10 by default) in the mode the request names,
   * with the query's mock embedding; the scored ids are then resolved to the stored papers.
   * A failed search or a failed lookup is an error. `lookupOk(k)` is the outcome of the
   * `k`th lookup.
   */
  method SearchLocal(idx: LocalIndex.LocalIndex, query: string, mode: Option<string>, limit: Option<U32>,
                     hash: string -> bv64, parses: bool, searchOk: bool, top: seq<(real, nat)>, vectorOk: bool,
                     nearest: seq<(nat, real)>, lookupOk: nat -> bool)
    returns (r: Result<seq<PaperResult>, string>)
    requires forall k :: 0 <= k < |nearest| ==> nearest[k].0 < |idx.vector.rows|
    ensures var n := ClampLimit(limit, SEARCH_CAP);
      var hits := SingleList(SearchResult(idx.fulltext.committed, parses, searchOk, top, FetchLimit(n)), true, n);
      mode == Some("keyword") ==>
        (hits.Err? ==> r.Err?) && (hits.Ok? ==> ResolvedOutcome(r, idx.vector.rows, hits.value, lookupOk))
    ensures var n := ClampLimit(limit, SEARCH_CAP);
      var hits := SingleList(Ok(VectorHits(idx.vector.rows, nearest, FetchLimit(n))), false, n);
      mode == Some("vector") ==>
        (!vectorOk ==> r.Err?) && (vectorOk ==> ResolvedOutcome(r, idx.vector.rows, hits.value, lookupOk))
    ensures var n := ClampLimit(limit, SEARCH_CAP);
      mode != Some("keyword") && mode != Some("vector") && r.Ok? ==>
        SearchResult(idx.fulltext.committed, parses, searchOk, top, FetchLimit(n)).Ok? && vectorOk
    ensures var n := ClampLimit(limit, SEARCH_CAP);
      var bm25 := SearchResult(idx.fulltext.committed, parses, searchOk, top, FetchLimit(n));
      mode != Some("keyword") && mode != Some("vector") ==>
        (bm25.Err? || !vectorOk ==> r.Err?)
        && (bm25.Ok? && vectorOk ==>
              exists fused :: FusedRanking(fused, bm25.value, VectorHits(idx.vector.rows, nearest, FetchLimit(n)), n)
                              && ResolvedOutcome(r, idx.vector.rows, fused, lookupOk))
  {
    var n := ClampLimit(limit, SEARCH_CAP);
    var embedding := Specter.MockEmbedding(query, hash);
    var searchMode := ModeOf(mode, query, embedding);
    var scored := idx.Search(searchMode, n, parses, searchOk, top, vectorOk, nearest);
    if scored.Err? {
      return Err("Search failed: " + scored.error);
    }
    var papers := ResolveResults(idx.vector, scored.value, lookupOk);
    if papers.Err? {
      return Err("Failed to resolve results: " + papers.error);
    }
    return Ok(papers.value);
  }

  /**
   * A reply resolved from a scored list: the stored papers of its ids, in order, when every
   * lookup succeeds, and an error when any lookup fails.
   */
  predicate ResolvedOutcome(r: Result<seq<PaperResult>, string>, rows: seq<Row>, scored: seq<ScoredResult>,
                            lookupOk: nat -> bool) {
    && ((forall k :: 0 <= k < |scored| ==> lookupOk(k)) ==> r == Ok(Resolved(rows, scored)))
    && ((exists k :: 0 <= k < |scored| && !lookupOk(k)) ==> r.Err?)
  }

  /** The stored papers of the first `c` nearest rows whose lookup succeeded, in order. */
  function Similar(rows: seq<Row>, nearest: seq<(nat, real)>, c: nat, getOk: nat -> bool): (r: seq<PaperResult>)
    requires c <= |nearest|
    requires forall k :: 0 <= k < |nearest| ==> nearest[k].0 < |rows|
    ensures |r| <= c
    ensures (forall k :: 0 <= k < c ==> getOk(k)) ==> |r| == c
  {
    if c == 0 then []
    else Similar(rows, nearest, c - 1, getOk) + Stored(rows, rows[nearest[c - 1].0].id, getOk(c - 1))
  }

  /** The paper stored under `id`, when the lookup succeeds and there is one. */
  function Stored(rows: seq<Row>, id: string, ok: bool): (r: seq<PaperResult>)
    ensures |r| <= 1
    ensures |r| == 1 <==> ok && VectorDb.Lookup(rows, id).Some?
    ensures |r| == 1 ==> Some(r[0]) == VectorDb.Lookup(rows, id)
  {
    var p := VectorDb.Lookup(rows, id);
    if ok && p.Some? then [p.value] else []
  }

  /** Every similar paper is stored under the id of one of the first `c` nearest rows. */
  lemma {:induction false} SimilarFromHits(rows: seq<Row>, nearest: seq<(nat, real)>, c: nat, getOk: nat -> bool,
                                           p: PaperResult)
    requires c <= |nearest|
    requires forall k :: 0 <= k < |nearest| ==> nearest[k].0 < |rows|
    requires p in Similar(rows, nearest, c, getOk)
    ensures exists k :: 0 <= k < c && getOk(k) && p.id == rows[nearest[k].0].id
                        && VectorDb.Lookup(rows, p.id) == Some(p)
  {
    if p in Similar(rows, nearest, c - 1, getOk) {
      SimilarFromHits(rows, nearest, c - 1, getOk, p);
    } else {
      var add := Stored(rows, rows[nearest[c - 1].0].id, getOk(c - 1));
      assert p in add;
    }
  }

  /** One lookup of `search_similar`'s loop: the stored paper, or nothing when the lookup fails. */
  method ResolveHit(vector: VectorStore, id: string, ok: bool) returns (add: seq<PaperResult>)
    ensures add == Stored(vector.rows, id, ok)
  {
    var answer := vector.GetPaper(id, ok);
    if answer.Ok? && answer.value.Some? {
      return [answer.value.value];
    }
    return [];
  }

  /**
   * `search_similar`: the nearest rows to the query's mock embedding, at most 100 (10 by
   * default), each looked up by id; a failed lookup skips that row, a failed search is an
   * error. `getOk(k)` is the outcome of the `k`th lookup.
   */
  method SearchSimilar(idx: LocalIndex.LocalIndex, query: string, limit: Option<U32>, hash: string -> bv64,
                       searchOk: bool, nearest: seq<(nat, real)>, getOk: nat -> bool)
    returns (r: Result<seq<PaperResult>, string>)
    requires forall k :: 0 <= k < |nearest| ==> nearest[k].0 < |idx.vector.rows|
    ensures !searchOk ==> r.Err?
    ensures searchOk ==>
      r == Ok(Similar(idx.vector.rows, nearest, |Sequences.Truncate(nearest, ClampLimit(limit, SEARCH_CAP))|, getOk))
    ensures r.Ok? ==> |r.value| <= ClampLimit(limit, SEARCH_CAP)
  {
    var n := ClampLimit(limit, SEARCH_CAP);
    var embedding := Specter.MockEmbedding(query, hash);
    var hits := idx.vector.SearchSimilar(embedding, n, searchOk, nearest);
    if hits.Err? {
      return Err("Vector search failed: " + hits.error);
    }
    var papers := ResolveHits(idx.vector, nearest, hits.value, getOk);
    return Ok(papers);
  }

  /** The loop of `search_similar`: each hit's stored paper, in order, skipping failed lookups. */
  method ResolveHits(vector: VectorStore, nearest: seq<(nat, real)>, found: seq<(string, real)>, getOk: nat -> bool)
    returns (papers: seq<PaperResult>)
    requires |found| <= |nearest|
    requires forall k :: 0 <= k < |nearest| ==> nearest[k].0 < |vector.rows|
    requires forall k :: 0 <= k < |found| ==> found[k].0 == vector.rows[nearest[k].0].id
    ensures papers == Similar(vector.rows, nearest, |found|, getOk)
  {
    papers := [];
    var i := 0;
    while i < |found|
      invariant 0 <= i <= |found|
      invariant papers == Similar(vector.rows, nearest, i, getOk)
    {
      assert found[i].0 == vector.rows[nearest[i].0].id;
      var add := ResolveHit(vector, found[i].0, getOk(i));
      papers := papers + add;
      i := i + 1;
    }
  }
}
