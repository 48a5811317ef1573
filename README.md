# paper-search-mcp in Dafny

A Dafny model of the retrieval-and-ranking core of paper-search-mcp. The server answers
tool calls for academic papers by asking up to nine bibliographic sources (arXiv, INSPIRE-HEP,
Crossref, DOAJ, Europe PMC, viXra, Semantic Scholar, OpenAlex, NASA ADS) and a local index. The
model covers:

- the shared `PaperResult` record and each source's mapping from its decoded answer to it
  (`item_to_paper`, `hit_to_paper`, `doc_to_paper`, `oa_to_paper`, `doaj_to_paper`,
  `epmc_to_paper`, `s2_to_paper`), the page caps and the lookup ids;
- the arXiv Atom feed parser as an event loop over XML events, and the viXra link extractor as a
  loop over a page's anchors;
- the federated search: source filtering, the per-source quota, the gathering of the providers'
  outcomes in source order, the stable richness sort, deduplication by DOI and by title edit
  distance, the citation/year ranking and the final cut;
- the local index: the full-text index (committed documents plus staged operations), the
  vector store (a table of rows), the orchestrating `LocalIndex` class, and the reciprocal rank
  fusion of the hybrid search;
- the configuration (the source filter, the sources built and their status report) and the
  server's dispatch (id-prefix routing, limit clamps, search modes, the first-success loops of
  `get_paper`, `index_paper` and the citation queries, and `index_from_query`'s count);
- the mock SPECTER embedding (an xorshift sequence over `bv64`), the text embedded and the token
  window.

Modules: `Wrappers` (Option, Result), `Strings` (ASCII text operations), `Sequences` and `Lists`
(sorting, filtering, mapping), `Papers` (the shared record), one module per source adapter,
`Search`, `Specter`, `Fulltext`, `VectorDb`, `Hybrid`, `LocalIndex`, `Config` and `Server`.
Classes model what the source updates in place: `Fulltext.FulltextIndex`,
`VectorDb.VectorStore` and `LocalIndex.LocalIndex`. Loops in the source are methods proved
against functions, and the properties are lemmas about those functions.

Network answers, I/O faults, library rankings (BM25 hits, nearest-neighbour order) and the text
hasher are parameters: a provider outcome is a `Result`, a fault is a boolean flag, and a ranking
is a sequence of row numbers.

## Model

| member | source | states |
|---|---|---|
| Search.MetadataScore | src/search.rs:95-105 | the richness score is at most 9, is 9 exactly when every rewarded field is filled in, and 0 exactly when none is |
| Search.NormalizeTitleShape | src/search.rs:107-116 | a normalised title holds only lower-case letters, digits and single interior spaces, with no space at either end |
| Search.NormalizeTitleIdempotent | src/search.rs:107-116 | normalising a normalised title changes nothing |
| Search.Levenshtein | src/search.rs:73 | the edit distance is at least the difference in length, at most the longer length, and zero exactly for equal strings |
| Search.LevenshteinSymmetric | src/search.rs:73 | the edit distance does not depend on the direction |
| Search.SeenDoisMember | src/search.rs:55-68 | a DOI is in the seen set exactly when some kept record has it, up to case |
| Search.TitleClashMember | src/search.rs:72-75 | a record clashes exactly when some kept record's normalised title is within edit distance 4 of its own |
| Search.AdmittedApart | src/search.rs:61-79 | a record the loop keeps is apart from every record kept before it: a different DOI up to case when both have one, and, when the new record has no DOI, a normalised title at distance 5 or more from every kept record's title, whether or not that record has a DOI |
| Search.DedupApart | src/search.rs:61-80 | any two records the loop keeps are apart |
| Search.DedupCoversDois | src/search.rs:63-68 | every DOI of the input, up to case, is the DOI of a kept record |
| Search.DedupCoversTitles | src/search.rs:69-79 | every record without a DOI is kept or has a title close to a kept one |
| Search.DedupDoiSurvivor | src/search.rs:63-68 | a kept record with a DOI comes no later than any record sharing its DOI |
| Search.RankKeyLexicographic | src/search.rs:83-88 | the rank order compares citation counts first, then years, missing values counting as 0 |
| Search.DedupAndRankProperties | src/search.rs:50-92 | at most `limit` records, each drawn from the input (as a sub-multiset), pairwise apart, ordered by citations then year, descending |
| Search.DoiSurvivorIsRichest | src/search.rs:58-68 | among input records sharing a DOI up to case, the one kept has the highest richness score |
| Search.DoiSurvivorIsFirst | src/search.rs:58-68 | among those with the same DOI and the same score, the kept one is the first in input order, since the richness sort is stable |
| Search.DeduplicateSorted | src/search.rs:61-80 | the loop keeps exactly the records the deduplication rule admits, in order |
| Search.AdmitStep | src/search.rs:62-79 | one visit decides exactly the admission rule and keeps the seen DOI set equal to the kept records' DOIs |
| Search.DeduplicateAndRank | src/search.rs:50-92 | richness sort, deduplication loop, rank sort and cut, as one method |
| Search.CollectMember | src/search.rs:36-43 | a gathered record comes from a task whose provider succeeded, and every record of such a task is gathered |
| Search.ActiveSourcesMember | src/search.rs:12-19 | with no filter every source takes part, in order; with one, exactly the sources some filter name matches up to ASCII case |
| Search.PerSourceQuota | src/search.rs:26 | each source is asked for twice the total divided by the number of active sources, rounded down, and never fewer than 5 |
| Search.Outcomes | src/search.rs:27-34 | one task per active source |
| Search.FederatedSearch | src/search.rs:6-47 | no active source gives no records; otherwise the ranked, deduplicated records gathered from the active sources that succeeded, cut to max_results |
| Search.DedupByDoiExample | src/search.rs:138-147 | the module's DOI test: three records, two sharing a DOI, leave two |
| Search.DoiExampleSorted | src/search.rs:59 | in that test the record without a citation count sorts last by richness |
| Search.DoiExampleKept | src/search.rs:61-80 | in that test the record repeating the first one's DOI is dropped |
| Search.DedupByTitleExample | src/search.rs:149-157 | the module's title test: two records whose titles differ only in case leave one |
| Search.RankByCitationsExample | src/search.rs:159-170 | the three records of the ranking test, without DOIs and with distant titles, are all kept and come out ordered b, c, a by citation count |
| Search.LevenshteinOccurrences | src/search.rs:73 | each edit changes the number of characters of any one kind by at most one, so the distance is at least the difference of those counts |
| Search.NotClose | src/search.rs:72-74 | two records are not close when one normalised title is at least five characters longer, or holds at least five more characters of some kind |
| Search.NormalizeWords | src/search.rs:107-116 | a title whose lower-cased text is already alphanumeric words joined by single spaces normalises to that text |
| Search.KeepThreeApart | src/search.rs:61-80 | three records without DOIs whose titles are pairwise not close all survive deduplication, in order |
| Hybrid.Rrf | src/index/hybrid.rs:42 | every rank contributes a positive score |
| Hybrid.RrfDecreasing | src/index/hybrid.rs:24 | a better rank contributes strictly more |
| Hybrid.Ranked | src/index/hybrid.rs:37-46 | one scored result per hit |
| Hybrid.SingleListShape | src/index/hybrid.rs:35-64 | keyword-only and vector-only results are the first min(limit, n) hits in their own order, the hit at rank k scored 1/(61+k), keyword results carrying the BM25 score and no distance, vector results the distance and no BM25 score |
| Hybrid.IdsMember | src/index/hybrid.rs:73-83 | an id is in a list exactly when some hit names it |
| Hybrid.LastScoreOccurs | src/index/hybrid.rs:73-83 | an id has a kept sub-score exactly when the list names it, and a positive fused score exactly then |
| Hybrid.FoldHitsEntry | src/index/hybrid.rs:73-83 | after one list's loop an id has an entry exactly when it had one or the list names it; its score grows by its contributions from the list and its sub-score is the one at its last occurrence |
| Hybrid.DocScoresEntry | src/index/hybrid.rs:71-83 | after both loops every id of either list has exactly one entry, its score the sum of its contributions from both lists, its BM25 score present exactly when the keyword list names it and its distance exactly when the vector list does |
| Hybrid.Accumulate | src/index/hybrid.rs:71-83 | the two accumulation loops build exactly that map |
| Hybrid.Entries | src/index/hybrid.rs:86-94 | the map's entries as a list: one result per id, no id twice |
| Hybrid.DocScoresKeys | src/index/hybrid.rs:71-83 | the map's ids are the ids of both lists |
| Hybrid.KeptAreFused | src/index/hybrid.rs:86-96 | every kept result is the fused result of its id |
| Hybrid.DroppedOne | src/index/hybrid.rs:95-96 | an entry the cut drops scores no higher than any kept one |
| Hybrid.DroppedScoreLower | src/index/hybrid.rs:95-96 | an id left out scores no higher than any kept result |
| Hybrid.RankedLength | src/index/hybrid.rs:96 | hybrid mode returns min(limit, number of distinct ids) results |
| Hybrid.RankEntries | src/index/hybrid.rs:86-97 | sorting the entries by score and keeping `limit` of them gives the fused ranking: distinct ids, fused scores, non-increasing order, nothing dropped that scores higher |
| Hybrid.HybridSearch | src/index/hybrid.rs:25-100 | fetches three times the limit; keyword and vector modes return their single-list ranking or the search's error (an unparsable query or a failed searcher for keywords); hybrid mode fails exactly when either search fails and otherwise returns the fused ranking |
| Hybrid.ResolvedLength | src/index/hybrid.rs:107-113 | at most one paper per result, and exactly one per result, in order, when every id is stored |
| Hybrid.ResolvedFound | src/index/hybrid.rs:109-110 | each resolved paper is the stored paper of some result's id |
| Hybrid.ResolveResults | src/index/hybrid.rs:103-114 | when every lookup succeeds, the stored papers of the results' ids in order, misses dropped; any failing lookup fails the call |
| LocalIndex.MockTextShape | src/index/mod.rs:57-61 | the mock embedding's text is the title, one space, then the abstract or nothing |
| LocalIndex.LocalIndex.constructor | src/index/mod.rs:21-39 | both stores opened with what they already hold, nothing staged |
| LocalIndex.LocalIndex.IndexPaper | src/index/mod.rs:42-53 | succeeds exactly when the full-text add, the vector add (a 768-value embedding) and both steps of the commit succeed; the new state of both stores is `IndexEffect` of the old one, whose meaning `LocalIndex.IndexEffectSpec` states |
| LocalIndex.LocalIndex.IndexPaperMock | src/index/mod.rs:56-64 | index_paper with the mock embedding of the paper's mock text (always 768 values): succeeds exactly when both adds and the commit succeed, and leaves the stores as `IndexEffect` with that embedding |
| LocalIndex.IndexEffectSpec | src/index/mod.rs:42-53 | index_paper appends the paper's row exactly when both adds succeed; publishing what it leaves staged gives what publishing the old staged operations and its own would; nothing is published unless both adds and the write succeed, and once they do nothing stays staged and exactly one document has the id |
| LocalIndex.IndexEffectAppends | src/index/mod.rs:42-52 | index_paper keeps every stored row and appends the paper's row after them exactly when both adds succeed |
| LocalIndex.IndexEffectPublishes | src/index/mod.rs:42-52 | what index_paper leaves published and staged publishes to what the earlier state's staged operations followed by its own would |
| LocalIndex.LocalIndex.Search | src/index/mod.rs:67-73 | exactly the hybrid search over the two stores |
| LocalIndex.LocalIndex.Count | src/index/mod.rs:76-78 | the vector store's row count, or an error |
| LocalIndex.LocalIndex.Delete | src/index/mod.rs:81-86 | stages and commits the full-text delete, then deletes the vector rows; a failed write leaves the delete staged, a failed reload leaves it published; either failure leaves the vector store untouched and fails the call |
| LocalIndex.LocalIndex.GetPaper | src/index/mod.rs:89-91 | the vector store's lookup, or an error |
| LocalIndex.IndexedOnce | src/index/mod.rs:42-53 | after a successful index_paper the full-text index holds exactly one document with the paper's id |
| LocalIndex.LookupAfterAdd | src/index/mod.rs:50 | a new paper reads back unchanged; re-indexing an id already stored leaves the lookup returning the older version |
| LocalIndex.IndexThenDelete | src/index/mod.rs:81-86 | indexing then deleting a paper leaves no row with its id and every other id found as before |
| Fulltext.FirstCons | src/index/fulltext.rs:129 | the first stored value of a field is the leading value when it belongs to the field, else the first in the rest |
| Fulltext.PaperDocFields | src/index/fulltext.rs:80-95 | the added document reads back the id and title; the abstract and year exactly when given; the authors as their ", "-join exactly when the list is non-empty |
| Fulltext.PaperDocId | src/index/fulltext.rs:78-83 | the document holds the paper's id as its only id term |
| Fulltext.ApplyAppend | src/index/fulltext.rs:103-107 | publishing two batches one after the other is publishing them together, in staging order |
| Fulltext.ReplaceLeavesOne | src/index/fulltext.rs:77-98 | publishing what add_paper stages leaves exactly one document with the paper's id, and the other documents unchanged and in order |
| Fulltext.DeleteRemovesAll | src/index/fulltext.rs:137-140 | publishing a delete removes every document with the id and keeps every other one |
| Fulltext.HitsBounded | src/index/fulltext.rs:124-133 | no more pairs than hits, each naming a committed document's stored id |
| Fulltext.SearchBounded | src/index/fulltext.rs:110-134 | a query that does not parse, or a searcher that fails, is an error; an answer has at most `limit` pairs, each naming a committed document |
| Fulltext.HitsErrorSticks | src/index/fulltext.rs:126-128 | the first hit naming no document decides the error |
| Fulltext.FulltextIndex.constructor | src/index/fulltext.rs:26-66 | an index over the documents already stored, nothing staged |
| Fulltext.FulltextIndex.AddPaper | src/index/fulltext.rs:69-100 | stages a delete of the id and then the paper's document; when the writer refuses the document, only the delete stays staged and the call fails; nothing is published |
| Fulltext.FulltextIndex.Commit | src/index/fulltext.rs:103-107 | succeeds exactly when the write and the reader reload both succeed; a successful write publishes the staged operations in order and clears them, even when the reload then fails; a failed write changes nothing |
| Fulltext.FulltextIndex.Delete | src/index/fulltext.rs:137-140 | stages a delete of the id and never fails |
| Fulltext.FulltextIndex.Search | src/index/fulltext.rs:110-134 | the loop returns the (id, score) pairs of the first `limit` hits over the committed documents, skipping documents without an id, failing on an unparsable query, a failed searcher or a hit naming no document |
| Fulltext.AddAddDelete | src/index/fulltext.rs:153-192 | two adds of different ids then a delete of the first, as staged and published, leave only the second document |
| Fulltext.RoundTripScenario | src/index/fulltext.rs:153-192 | the module's round trip for any two papers with different ids: two documents after both adds and a commit, one after deleting one and committing again |
| VectorDb.ToI32 | src/index/vectordb.rs:96 | the cast keeps the value modulo 2^32 |
| VectorDb.ToU32 | src/index/vectordb.rs:234 | the cast keeps the value modulo 2^32 |
| VectorDb.I32RoundTrip | src/index/vectordb.rs:96 | casting a u32 to i32 and back, or an i32 to u32 and back, gives it back |
| VectorDb.BatchRowToPaper | src/index/vectordb.rs:203-242 | a missing source or url reads as "", missing or malformed authors as no authors; id and title read back as stored |
| VectorDb.RowRoundTrip | src/index/vectordb.rs:84-121 | a paper written as a row and read back is the same paper, whatever its year and citation count |
| VectorDb.ReadEscaped | src/index/vectordb.rs:164 | reading an escaped id up to its closing quote gives the id and what follows |
| VectorDb.EscapeCons | src/index/vectordb.rs:164 | escaping doubles the leading character when it is a quote and keeps it otherwise |
| VectorDb.ReadQuotedCons | src/index/vectordb.rs:164 | reading past one escaped character of the literal's body |
| VectorDb.FilterRoundTrip | src/index/vectordb.rs:164 | the id filter selects exactly the given id, quotes in the id included |
| VectorDb.FirstWhere | src/index/vectordb.rs:165-181 | the first row satisfying the filter, in table order, or none exactly when no row does |
| VectorDb.FirstWhereSame | src/index/vectordb.rs:164-168 | two filters that select the same rows find the same first row |
| VectorDb.FirstWhereAppend | src/index/vectordb.rs:165-181 | the first match in two tables end to end is the first table's, else the second's |
| VectorDb.Lookup | src/index/vectordb.rs:161-182 | no paper exactly when no row has the id; a found paper has the id |
| VectorDb.LookupAppend | src/index/vectordb.rs:161-182 | a row appended later never hides an earlier row with the same id |
| VectorDb.VectorStore.constructor | src/index/vectordb.rs:61-71 | a store over the table already stored, or a new empty one |
| VectorDb.VectorStore.AddPaper | src/index/vectordb.rs:84-121 | appends the paper's row when the embedding has 768 values and the engine accepts it; otherwise the call fails and the table is unchanged |
| VectorDb.VectorStore.Delete | src/index/vectordb.rs:185-190 | removes every row with the id and keeps every other row in order; a failure changes nothing |
| VectorDb.VectorStore.Count | src/index/vectordb.rs:193-199 | the number of rows, or an error |
| VectorDb.VectorStore.GetPaper | src/index/vectordb.rs:161-182 | the first row with the id, read back, or none; or an error |
| VectorDb.VectorStore.SearchSimilar | src/index/vectordb.rs:124-158 | the (id, distance) pairs of the first `limit` rows of the engine's nearest-neighbour order, or an error |
| VectorDb.LookupAfterDelete | src/index/vectordb.rs:185-190 | after a delete no paper is found under the id, and papers under other ids are found exactly as before |
| VectorDb.RoundTripScenario | src/index/vectordb.rs:266-297 | the store's own round trip: two papers count 2; the first is found with its title and year; after deleting it the count is 1 and it is not found |
| Arxiv.UrlEncodedSafe | src/apis/arxiv.rs:59-63 | the escaped query has no space, ':' or '/', keeps every other character, and a query without the three is unchanged |
| Arxiv.UrlEncodedPlusCollides | src/apis/arxiv.rs:59-63 | a literal '+' and a space encode alike |
| Arxiv.GetPaperUrlStrips | src/apis/arxiv.rs:43-44 | a lookup of "arxiv:" and an id asks for that id |
| Arxiv.GetPaperResult | src/apis/arxiv.rs:46-47 | a parse failure is passed on; else the first paper of the feed, nothing exactly when it has none |
| Arxiv.Related | src/apis/arxiv.rs:50-56 | citations and references are always empty |
| Arxiv.ReadLinkAttrs | src/apis/arxiv.rs:103-113 | the attribute loop returns the last href and the last title attribute, "" when absent |
| Arxiv.LinkAttrsLast | src/apis/arxiv.rs:105-112 | a later href or title attribute overrides an earlier one and leaves the other unchanged |
| Arxiv.Clean | src/apis/arxiv.rs:175 | the cleaned text has no line break and is empty exactly when the trimmed text is |
| Arxiv.EntryPaper | src/apis/arxiv.rs:164-198 | an entry yields a paper exactly when the text after its id's last '/' and its trimmed title are non-empty; the paper has that segment behind "arxiv:" and as arXiv id, the year of the first four characters of the published date, the entry's authors and DOI, an abstract exactly when the summary is not blank, a PDF url exactly when a PDF link was seen, and the abstract link as url, the id text when there is none |
| Arxiv.HandleEntryEnd | src/apis/arxiv.rs:161-198 | closing an entry leaves the entry and appends its paper when it is complete |
| Arxiv.HandleEnd | src/apis/arxiv.rs:159-208 | the end of an element as the loop handles it: an entry is closed, a non-blank trimmed author name is appended, and the open tag is cleared when it ends |
| Arxiv.HandleLink | src/apis/arxiv.rs:114-118 | a link titled "pdf" sets the PDF link; else the first href containing "abs" becomes the abstract link |
| Arxiv.ParseAtomFeed | src/apis/arxiv.rs:65-216 | the event loop returns the feed's papers: it stops at the end of input and fails on an XML error |
| Arxiv.OnEndGood | src/apis/arxiv.rs:159-208 | the end of an element keeps author names trimmed and emitted papers well formed, and only appends papers |
| Arxiv.StepGood | src/apis/arxiv.rs:82-212 | every event keeps author names trimmed and emitted papers well formed, and only appends papers |
| Arxiv.RunGood | src/apis/arxiv.rs:82-215 | every paper the loop returns is well formed, and papers already emitted come first, in order |
| Arxiv.ParseFeedGood | src/apis/arxiv.rs:169-197 | every paper of a parsed feed has an "arxiv:" id whose rest is a non-empty segment without '/', repeated as arXiv id, a non-empty one-line title, an absent or non-empty one-line abstract, trimmed non-empty author names, no citation count |
| Arxiv.RunFails | src/apis/arxiv.rs:209-210 | the parse fails exactly when an XML error comes before any end of input |
| Arxiv.RunAppend | src/apis/arxiv.rs:82-213 | events other than the end of input and errors are read one at a time, and the loop goes on with the rest |
| Arxiv.RunElement | src/apis/arxiv.rs:147-158 | a simple element's text inside an entry goes to that element's field and the open tag is cleared when it ends |
| Arxiv.RunAuthor | src/apis/arxiv.rs:199-203 | an author element appends its trimmed name when it is not blank |
| Arxiv.RunTwoAuthors | src/apis/arxiv.rs:199-203 | two author elements append their names in order |
| Arxiv.SampleEntryPaper | src/apis/arxiv.rs:225-245 | the sample entry yields the id "arxiv:2301.12345v1", a title holding "AdS/CFT", two authors, the year 2023 and the PDF link |
| Arxiv.SampleFeed | src/apis/arxiv.rs:236-246 | the sample feed parses to one paper with the id, title, two authors, year and PDF url the module's test expects |
| CrossRef.AuthorNameParts | src/apis/crossref.rs:73-79 | an author is "given family" trimmed: both parts give "given family", one part alone gives that part, none gives "" |
| CrossRef.ItemToPaperFields | src/apis/crossref.rs:67-105 | the DOI is read back from the id behind "doi:" and from the doi.org url (missing as ""); one trimmed name per author in order; the first title; the year is set exactly when the first date part has a first number, and is it; the PDF url is the url of the first link typed exactly "application/pdf", and is absent when no link has that type; no abstract, no arXiv id |
| CrossRef.SearchRows | src/apis/crossref.rs:112 | a search asks for min(max_results, 100) rows |
| CrossRef.SearchResults | src/apis/crossref.rs:121 | every work of the message mapped in order; a message without items gives no papers |
| CrossRef.GetPaper | src/apis/crossref.rs:124-140 | nothing exactly for a 404 answer; a looked-up work is rebuilt without links, so it has no PDF url, and keeps the message's DOI |
| CrossRef.Related | src/apis/crossref.rs:142-148 | citations and references are always empty |
| CrossRef.LookupDoiRoundTrip | src/apis/crossref.rs:125 | a lookup of a work's own id asks for that work's DOI |
| Inspire.HitToPaperFields | src/apis/inspire.rs:75-111 | the record id is read back from the id behind "inspire:" and from the literature url; title, abstract, DOI and arXiv id are the first element of their list or absent (title ""); all author names in order; the year is set exactly when the earliest date has four leading characters that parse, and is their value; no PDF; citation count passed through |
| Inspire.RecordIdRoundTrip | src/apis/inspire.rs:136 | a lookup of a hit's own id asks for that hit's record; an id without "inspire:" is used unchanged |
| Inspire.GetPaper | src/apis/inspire.rs:135-144 | nothing exactly for a 404 answer, else the hit mapped, whose id leads back to the hit's record |
| Inspire.HitPapers | src/apis/inspire.rs:132 | search, citations and references map every hit, in order: one paper per hit, each the hit's `HitToPaper` mapping and carrying its hit's record id |
| Inspire.CitationsQuery | src/apis/inspire.rs:147-148 | the citation query is "refersto:recid:" followed by the record id |
| Ads.DocToPaperFields | src/apis/ads.rs:44-59 | the id and url give back the bibcode behind "ads:" and the abstract-page prefix (a missing bibcode as ""); title and DOI are the first list elements when there is one; authors, abstract and citation count pass through; the year is set exactly when the whole year text parses; no arXiv id, no PDF |
| Ads.DocYearDecimal | src/apis/ads.rs:51 | a year written as the decimal numeral of y is read back as y |
| Ads.SearchRows | src/apis/ads.rs:66 | a search asks for min(max_results, 200) rows |
| Ads.LookupRoundTrip | src/apis/ads.rs:79-81 | looking up a document's own id queries `bibcode:` and that document's bibcode |
| Ads.GetPaper | src/apis/ads.rs:90 | the first document of the answer, mapped; nothing exactly when the answer is empty |
| Ads.RelationQuery | src/apis/ads.rs:93-110 | the citation query is "citations(bibcode:B)" and the reference query "references(bibcode:B)", B the id without "ads:" |
| OpenAlex.OaToPaperFields | src/apis/openalex.rs:55-72 | the id is "openalex:" followed by the url, and the url is the raw work id (missing as ""); an author is exactly a display name of some authorship, and with every authorship named they are all kept in order; year and citation count pass through; the DOI is present exactly when given; the PDF url is the open-access url; no abstract, no arXiv id |
| OpenAlex.BareDoiStripsLink | src/apis/openalex.rs:56 | a DOI given as a doi.org link is stored bare, and a bare DOI is kept as it is |
| OpenAlex.PerPage | src/apis/openalex.rs:79 | a search asks for min(max_results, 200) works |
| OpenAlex.WorkIdRoundTrip | src/apis/openalex.rs:92 | a lookup of a work's own id asks for that work's id |
| OpenAlex.GetPaper | src/apis/openalex.rs:91-99 | nothing exactly for a 404 answer, else the work mapped, whose id leads back to the work |
| OpenAlex.RelationFilter | src/apis/openalex.rs:102-117 | citations filter on "cites:" and references on "cited_by:", each followed by the id without "openalex:" |
| Doaj.DoajToPaperFields | src/apis/doaj.rs:58-85 | the article id behind "doaj:"; an author is exactly a present author name; the DOI is the id of the first identifier typed "doi", and only that one; the url is the first link's url, "" when the first link has none even if a later one does; the PDF url is the url of the first link typed "fulltext", and only that one; the year is set exactly when the year text parses; abstract passed through; no arXiv id, no citation count |
| Doaj.AuthorsInOrder | src/apis/doaj.rs:71-73 | when every author is named, the authors are all the names, in order |
| Doaj.LeadingDoiWins | src/apis/doaj.rs:60-62 | a DOI identifier ahead of all others decides the DOI whatever follows it |
| Doaj.UrlEncoded | src/apis/doaj.rs:110-112 | the encoding has no space, keeps every other character of the input, adds only characters of "%20", and leaves a text without spaces unchanged |
| Doaj.PageSize | src/apis/doaj.rs:95 | a search asks for min(max_results, 100) articles |
| Doaj.SearchResults | src/apis/doaj.rs:97 | every article mapped in order; no results is no papers |
| Doaj.LookupRoundTrip | src/apis/doaj.rs:101 | the lookup text of an article's own id is that article's id |
| Doaj.GetPaper | src/apis/doaj.rs:100-104 | the first paper of the one-article search, nothing exactly when it found none |
| Doaj.Related | src/apis/doaj.rs:106-107 | citations and references are always empty |
| Doaj.FirstMatchDecides | src/apis/doaj.rs:60-82 | the first identifier of type "doi" gives the DOI and the first link of type "fulltext" gives the PDF url |
| EuropePmc.EpmcToPaperFields | src/apis/europepmc.rs:45-69 | the author string is cut at every ", ": no author contains ", " and joining the authors with ", " gives back the string, no string is no authors; the id is "pmid:" and the PubMed id, else "doi:" and the DOI, else "epmc:" and the result id, each readable back; the url is the article page of the PubMed id, empty exactly when there is none; DOI, abstract and citation count passed through; no arXiv id, no PDF |
| EuropePmc.OneAuthor | src/apis/europepmc.rs:46-48 | an author string without ", " is one author |
| EuropePmc.PageSize | src/apis/europepmc.rs:82 | a search asks for min(max_results, 100) results |
| EuropePmc.SearchResults | src/apis/europepmc.rs:85-87 | every result mapped in order; no result list is no papers |
| EuropePmc.LookupQuery | src/apis/europepmc.rs:90-92 | the lookup query is "EXT_ID:" and the id without "pmid:" |
| EuropePmc.CitationsQuery | src/apis/europepmc.rs:96-98 | the citation query is "CITES:" and the id without "pmid:" |
| EuropePmc.PmidRoundTrip | src/apis/europepmc.rs:49-50 | the id of a result with a PubMed id looks up that PubMed id |
| EuropePmc.GetPaper | src/apis/europepmc.rs:90-94 | the first result's paper, nothing exactly when the answer holds none |
| EuropePmc.References | src/apis/europepmc.rs:101-103 | references are always empty |
| Strings.JoinSplitStr | src/apis/europepmc.rs:46-48 | splitting the author string at every ", " and joining the pieces with ", " gives back the string |
| Strings.SplitStrNoSep | src/apis/europepmc.rs:46-48 | the split cuts at every occurrence: no piece contains the separator |
| Strings.SplitStrHead | src/apis/europepmc.rs:46-48 | the first piece is a prefix of the text at none of whose positions the separator starts |
| SemanticScholar.S2ToPaperFields | src/apis/semantic_scholar.rs:82-98 | the paper id behind "s2:"; an author is exactly a named author, and when all are named the authors are their names in order; DOI and arXiv id set exactly when the external ids carry them, with their values; the PDF url set exactly when the open-access PDF has a url, with its value; year, abstract, citation count and url passed through |
| SemanticScholar.SearchLimit | src/apis/semantic_scholar.rs:110 | a search asks for min(max_results, 100) papers |
| SemanticScholar.SearchResults | src/apis/semantic_scholar.rs:119 | every paper of the answer mapped in order; no data is no papers |
| SemanticScholar.PaperIdRoundTrip | src/apis/semantic_scholar.rs:84 | the id of a mapped paper looks up its own paper id |
| SemanticScholar.GetPaper | src/apis/semantic_scholar.rs:122-133 | nothing exactly on a 404 answer, else the paper, whose id looks up the paper id asked |
| SemanticScholar.Related | src/apis/semantic_scholar.rs:135-171 | never more papers than edges |
| SemanticScholar.RelatedMember | src/apis/semantic_scholar.rs:143-150 | a paper is related exactly when some edge holds a decodable paper under the key ("citingPaper" or "citedPaper") that maps to it |
| SemanticScholar.RelatedComplete | src/apis/semantic_scholar.rs:162-169 | when every edge holds a decodable paper under the key, the list maps every edge in order |
| Vixra.LinkPaper | src/apis/vixra.rs:77-102 | a link is skipped exactly when its trimmed text is empty, its href lacks "/abs/", or nothing follows the last "/abs/"; otherwise the paper has the trimmed, non-empty title, the viXra id behind "vixra:", the abstract url and PDF named after it, and a lookup of its id fetches its url |
| Vixra.ParseVixraHtml | src/apis/vixra.rs:69-106 | the loop returns the papers of the first max_results selected links, in order, skipping the rejected ones |
| Vixra.ParseLinksSpec | src/apis/vixra.rs:76 | at most max_results papers; every paper well formed and looked up at its own url; a paper is returned exactly when one of the first max_results selected links yields it |
| Vixra.GetPaperAsWritten | src/apis/vixra.rs:32-59 | nothing exactly when the heading is missing or empty before trimming; else the trimmed title at the looked-up page |
| Vixra.BlankHeadingAccepted | src/apis/vixra.rs:43-48 | a heading of one space yields a paper with an empty title |
| Vixra.GetPaper | src/apis/vixra.rs:32-59 | the corrected definition of the Findings row (the code at these lines is `Vixra.GetPaperAsWritten`): nothing exactly when the trimmed heading is empty; else a non-empty trimmed title at the looked-up page |
| Vixra.GetPaperAgrees | src/apis/vixra.rs:43-48 | the two lookups agree on every heading with a non-space character |
| Vixra.SearchThenLookup | src/apis/vixra.rs:33-34 | looking up a searched paper's id gives a paper with that id and url |
| Vixra.UrlEncoded | src/apis/vixra.rs:65-67 | the encoded query has the same length and no space: every space becomes "+", every other character is kept in place |
| Vixra.PlusCollides | src/apis/vixra.rs:65-67 | "a b" and "a+b" encode alike |
| Vixra.Related | src/apis/vixra.rs:61-62 | citations and references are always empty |
| Config.Name | src/config.rs:56-94 | every source has a non-empty name |
| Config.LowerName | src/config.rs:51-53 | lower-casing a source's name leaves it unchanged |
| Config.FilterName | src/config.rs:32 | one filter entry is lower case, without a comma and without surrounding whitespace |
| Config.ParseFilter | src/config.rs:31-33 | the filter is empty exactly when the variable is unset; otherwise one trimmed, lower-cased entry per comma-separated piece, in order |
| Config.JoinPath | src/config.rs:23 | `PathBuf::join` of a relative name: the base, then one '/' only when the base is non-empty and does not already end in '/', then the name |
| Config.FromEnv | src/config.rs:19-43 | the data directory is `PAPER_SEARCH_DATA_DIR` when set; otherwise "./.paper-search" with `HOME` unset, ".paper-search" with `HOME` empty, and `HOME` followed by ".paper-search" with a '/' between only when `HOME` does not end in one; each key and email is set exactly when its variable is; the filter is empty exactly when the variable is unset |
| Config.PushIfEnabled | src/config.rs:56-94 | one conditional push: the source is appended when the filter lets its name through and, for ADS, when the key is set |
| Config.BuildSources | src/config.rs:46-97 | the loop of pushes creates exactly the enabled sources in creation order |
| Config.BuildRank | src/config.rs:56-94 | each source has a position in the creation order |
| Config.RankOf | src/config.rs:56-94 | no source appears twice in the creation order |
| Config.CreatedMember | src/config.rs:56-94 | after the first k pushes, a source is created exactly when it comes among the first k and is enabled |
| Config.StepMember | src/config.rs:88-94 | a push adds its source when enabled, and nothing else |
| Config.CreatedOrdered | src/config.rs:56-94 | the created sources keep the creation order |
| Config.EnabledSourcesMember | src/config.rs:46-97 | a source is created exactly when the filter lets it through and, for ADS, the key is set; the created sources follow the creation order with none twice |
| Config.NoFilterEnablesAll | src/config.rs:49-53 | without a filter every source is created, ADS only with its key |
| Config.EmptyFilterDisablesAll | src/config.rs:31-33 | a set but empty variable is the filter [""], which creates no source |
| Config.FilterToleratesCaseAndSpace | src/config.rs:31-53 | a source named by any piece of the variable, in any case and with any padding, is created (ADS only with its key) |
| Config.BaseStatuses | src/config.rs:108-121 | nine entries in the fixed report order; every entry enabled except ADS, which is enabled exactly when its key is set |
| Config.FilterStatus | src/config.rs:124-131 | the filter only disables: an entry stays enabled exactly when it was and the filter is empty or lists its name; under a non-empty filter every unlisted entry, ADS without its key included, is disabled with the filter note; every other entry comes back unchanged |
| Config.SourceStatuses | src/config.rs:107-134 | the loop leaves nine entries, each the fixed entry with the filter applied in place |
| Config.StatusAgreesWithSources | src/config.rs:46-134 | a source is reported enabled exactly when it is created |
| Server.ClampLimit | src/main.rs:141 | the requested number, 10 when none is given, never above the cap and equal to one of the two |
| Server.ModeOf | src/main.rs:243-250 | "keyword" selects the keyword-only search and "vector" the vector-only search, exactly; every other mode, and none, selects the hybrid search, each carrying the query or its embedding |
| Server.IdPrefix | src/main.rs:161-172 | every routing prefix has at least three characters |
| Server.PrefixOwner | src/main.rs:161-172 | the first three characters of a prefixed id already tell which prefix it carries |
| Server.RouteOf | src/main.rs:161-172 | a routed id starts with the prefix of the source it is routed to |
| Server.RouteOfSpec | src/main.rs:161-172 | an id is routed to a source exactly when it starts with that source's prefix, and to none exactly when it starts with no prefix, so the order of the tests does not matter |
| Server.PrefixedIdRoutes | src/main.rs:161-172 | every id built from a source's prefix is routed to that source |
| Server.TargetSource | src/main.rs:160-172 | the source the request names wins; otherwise the id's prefix names the target, and an unprefixed id has none |
| Server.AdapterIdsRouteHome | src/main.rs:161-172 | the ids INSPIRE, Crossref and ADS give their papers route back to the same source |
| Server.OpenAlexVixraIdsRouteHome | src/main.rs:161-172 | the ids OpenAlex and viXra give their papers route back to the same source |
| Server.DoajIdsRouteHome | src/main.rs:161-172 | the ids DOAJ gives its papers route back to DOAJ |
| Server.S2IdsRouteHome | src/main.rs:161-172 | the ids Semantic Scholar gives its papers route back to Semantic Scholar |
| Server.EpmcIdsRoute | src/main.rs:161-172 | a Europe PMC paper with a PubMed id routes to Europe PMC; one with only a DOI routes to Crossref; one with neither routes nowhere, so every source is asked |
| Server.NameMatches | src/main.rs:185-189 | two sources' names agree up to ASCII case exactly when they are the same source |
| Server.FirstPaper | src/main.rs:184-202 | no paper exactly when no matching source yields one; otherwise the answer of the first matching source that yields a paper, with every earlier one yielding none |
| Server.FirstPaperAt | src/main.rs:184-202 | the first matching source that yields a paper decides the result |
| Server.FetchFirst | src/main.rs:184-202 | the loop returns exactly the first paper found by a matching source |
| Server.NotFoundMessage | src/main.rs:204-206 | the not-found text is "Paper not found: " followed by the id, which can be read back |
| Server.GetPaper | src/main.rs:156-207 | a paper the local index holds is returned first; otherwise the first paper found by the target source, or by every source in turn when there is no target; otherwise the not-found text |
| Server.RoutedLookupStaysHome | src/main.rs:160-202 | without a named source, a prefixed id is looked up only at the source its prefix names: a paper found is that source's answer, and nothing is found when that source is not enabled |
| Server.IndexedMessage | src/main.rs:317-319 | the confirmation is "Indexed: " followed by the paper's id, " - " and its title |
| Server.IndexPaper | src/main.rs:287-320 | no paper found is the not-found error and leaves both stores alone; otherwise success exactly when every storage step succeeds, with the confirmation text, the stores left as `LocalIndex.IndexEffect` of the found paper with its mock embedding, the paper's row appended when both adds succeed, and a new paper readable from the vector store |
| Server.FirstNonEmpty | src/main.rs:389-405 | no papers exactly when no matching source delivers a non-empty list; otherwise the list of the first matching source that does |
| Server.FirstNonEmptyAt | src/main.rs:389-405 | the first matching source that delivers a non-empty list decides the result |
| Server.QueryRelation | src/main.rs:375-406 | the loop returns exactly the first non-empty list a matching source delivers, else none |
| Server.Names | src/main.rs:142-147 | the federated search sees the names of the sources, one for each, in order |
| Server.SearchPapers | src/main.rs:136-154 | the federated search over the enabled sources with the clamped total, never returning more than that total |
| Server.SourceFilter | src/main.rs:328 | no source named is no filter; a named source is a filter of just that name |
| Server.CountWhere | src/main.rs:337-343 | a count never exceeds the number of positions, is all of them when every position qualifies and none when none does |
| Server.IndexFromQuery | src/main.rs:322-348 | the federated search restricted to the named source, at most 50 papers (10 by default); the count reported is the number of papers whose storage steps all succeeded, never more than the number found; the stores end as `IndexEffects` of the papers found, so the vector store gains `AddedRows`, one row per paper whose two adds succeeded, in order |
| Server.IndexAll | src/main.rs:337-343 | the loop counts the papers indexed without error and leaves the stores as `IndexEffects` of all the papers in turn: the old rows followed by `AddedRows` |
| Server.IndexOne | src/main.rs:339-342 | one indexing succeeds exactly when all its steps do, leaves the stores as `LocalIndex.IndexEffect` of the paper with its mock embedding, and adds one vector row exactly when both adds succeed |
| Server.IndexEffectsRows | src/main.rs:337-343 | after the loop the vector store holds the old rows followed by the rows of the papers whose two adds succeeded, in order |
| Server.AddedRowsCount | src/main.rs:337-343 | the rows added number exactly the papers whose two adds succeeded |
| Server.IndexEffectsDocs | src/main.rs:337-343 | publishing what the loop leaves staged gives what publishing the old staged operations followed by everything the indexings staged would |
| Server.IndexEffectsStaged | src/main.rs:337-343 | while no indexing has published, the published documents are the old ones and every staged operation waits; after one publishes, nothing stays staged |
| Server.SearchIndexQuery | src/main.rs:326-334 | the federated search for index_from_query, with at most the clamped number of results |
| Server.SearchLocal | src/main.rs:230-262 | in keyword mode a failed search (unparsable query or failed searcher) is an error, otherwise the keyword hits resolved; in vector mode a failed vector search is an error, otherwise the vector hits resolved; in hybrid mode an error when either search fails, otherwise a fused ranking of the two lists resolved; resolved means the stored papers of the ids in order when every lookup succeeds, and an error when any lookup fails |
| Server.Similar | src/main.rs:275-280 | at most one paper per nearest row, and exactly one per row when every lookup succeeds |
| Server.Stored | src/main.rs:277-279 | a paper is kept exactly when its lookup succeeds and the store holds one under the id, and it is that stored paper |
| Server.SimilarFromHits | src/main.rs:275-280 | every similar paper is the stored paper of one of the nearest rows whose lookup succeeded |
| Server.ResolveHit | src/main.rs:277-279 | one visit of the loop adds the stored paper or nothing |
| Server.SearchSimilar | src/main.rs:263-285 | a failed vector search is an error; otherwise the stored papers of the nearest rows, at most 100 (10 by default), skipping failed lookups |
| Server.ResolveHits | src/main.rs:275-280 | the loop gives each hit's stored paper in order, skipping failed lookups |
| Specter.StateStep | src/embed/specter.rs:15-19 | each component advances the generator by one xorshift step |
| Specter.XorShiftNonZero | src/embed/specter.rs:16-18 | a non-zero state never becomes zero |
| Specter.StateNonZero | src/embed/specter.rs:13-20 | from a non-zero seed every state is non-zero |
| Specter.Component | src/embed/specter.rs:19 | each component lies in [-1, 1] |
| Specter.MockValues | src/embed/specter.rs:14-21 | 768 components, each in [-1, 1] |
| Specter.MockEmbedding | src/embed/specter.rs:7-22 | the loop gives exactly 768 components, component i from the state after i + 1 steps from the text's hash |
| Specter.EmbedTextShape | src/embed/specter.rs:95-98 | the text starts with the title; it is longer than the title exactly when the abstract is present and non-empty, and then the abstract follows " [SEP] " |
| Specter.TokenWindow | src/embed/specter.rs:110-112 | the model is given the first min(n, 512) token ids and the matching mask entries |
| Specter.PoolOutput | src/embed/specter.rs:128-136 | a rank-2 or rank-3 output gives its first 768 values; any other rank is an error |

Where the written behaviour and the documented behaviour differ, the model follows the code:

- the vector store's `get_paper` returns the first matching row in table order, not the most
  recent one, so re-indexing an id leaves the older row visible (`LocalIndex.LookupAfterAdd`);
- in `get_paper`, ids starting with "doi:" are routed to Crossref and ids starting with "epmc:"
  to no source, so a Europe PMC paper without a PubMed id is not routed back to Europe PMC
  (`Server.EpmcIdsRoute`);
- `index_paper` and the citation and reference queries ignore the id's prefix and try every
  source in turn;
- a `PAPER_SEARCH_SOURCES` variable that is set but empty gives the filter `[""]`, which builds
  no source at all (`Config.EmptyFilterDisablesAll`).

## Left out

- VectorDb.VectorStore.AddPaper: src/index/vectordb.rs:84-111 never checks the embedding's
  length. The model assumes that the Arrow fixed-size list builder rejects a length other than
  768 with an error, and so returns "Failed to create RecordBatch" and leaves the table
  unchanged. A panic is not modelled. No caller in this model passes another length: every
  embedding it builds has 768 values.
- HTTP requests, status codes other than the 404 answers, and JSON decoding: each adapter starts
  from its already-decoded answer, and a transport or decoding failure is the `Err` of a provider
  outcome. The search and lookup URL strings and their query parameters are not modelled beyond
  the page caps, the lookup ids and the relation queries.
- The unpaywall client (src/apis/unpaywall.rs) and the `get_pdf_url` tool (src/main.rs:350-372):
  one HTTP call each, with no logic of their own to model.
- XML tokenising and HTML selection: the arXiv parser takes a sequence of XML events and the
  viXra parser a page's anchors, or the text of its first heading.
- Concurrency: the spawned provider tasks, their joining, the locks around the index and the
  arXiv adapter's three-second pause. Provider outcomes are a sequence in source order, and a
  task that panicked is an `Err` there.
- The full-text library's query grammar and BM25 ranking, and the vector database's
  nearest-neighbour search, storage format and record batches: the hits are parameters (a
  parse flag and a ranked list of document numbers, or a list of row numbers with distances).
  The tests whose outcome depends on that ranking (hybrid.rs and fulltext.rs searches for a
  given word) are not modelled.
- Floating point: scores and distances are reals; the mock embedding's conversion of a state to
  an `f32` in [-1, 1] is modelled as an exact real in that range.
- The text hasher (SipHash with a fixed key) is a parameter `hash: string -> bv64`.
- The ONNX model, the tokenizer and the model download: the token ids and mask and the model's
  output (its rank and values) are parameters.
- Environment variables and the filesystem: variable values are parameters of `Config.FromEnv`,
  the data directory is a string, and directory creation is not modelled.
- Unicode: case folding, `is_alphanumeric` and `is_whitespace` are restricted to ASCII.
- Logging, the MCP tool wiring, and the JSON text of every reply (including `list_sources`'
  rendering of the status report and `index_from_query`'s summary sentence).
- `get_citations` and `get_references` in src/main.rs are one-line wrappers around the relation
  query and are covered by `Server.QueryRelation`.
- `Fulltext.FulltextIndex.Count` is the committed document count and has no contract of its own;
  staged operations not showing in it follows from `AddPaper` and `Delete` leaving `committed`
  unchanged.
- OpenAlex.OaToPaperFields: the author order is stated only when every authorship has a display
  name; with some names missing, only which names are kept is stated.
- Doaj.DoajToPaperFields: the author order is stated (by `Doaj.AuthorsInOrder`) only when every
  author is named; with some names missing, only which names are kept is stated.
- SemanticScholar.S2ToPaperFields: the author order is stated only when every author is named.
- Search.PerSourceQuota: requires that twice the total fits in a `u32`, as the source's
  arithmetic does (a larger total would overflow in the source); it also requires at least one
  active source, which the source ensures by returning early.
- Search.FederatedSearch: requires that twice the total fits in a `u32`, for the same reason.
- Server.QueryPapers: requires that twice the total fits in a `u32`; the clamps of src/main.rs
  keep it at most 100.
- Specter.PoolOutput: requires at least 768 output values, since the source's slice would
  otherwise panic.
- Specter.TokenWindow: requires the mask to be as long as the token ids, as the tokenizer gives
  them.
- The reader's refresh timing: a commit whose reader reload fails is modelled as published at
  once, since the reader reloads itself shortly after each commit (`OnCommitWithDelay`).
- Hybrid.HybridSearch, LocalIndex.LocalIndex.Search, VectorDb.VectorStore.SearchSimilar,
  Server.SearchLocal, Server.SearchSimilar and Server.Similar: require that the
  nearest-neighbour order names existing rows, which the database guarantees.

## Findings

| source | as written | input that shows it | evidently intended | confidence | as-written member | corrected member |
|---|---|---|---|---|---|---|
| src/apis/vixra.rs:43-45 | the heading is checked for emptiness before it is trimmed | a first `h1` of one space | trim the heading, then reject an empty title, as the search path does | medium, not executed | Vixra.GetPaperAsWritten, Vixra.BlankHeadingAccepted | Vixra.GetPaper |
