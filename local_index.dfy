/**
 * The local index (`LocalIndex`): a full-text index and a vector store kept side by side.
 * Every write goes to both stores in a fixed order, and every failure the stores can report
 * is an input flag, so each method states exactly what a failure at each step leaves behind.
 */
module LocalIndex {
  import opened Wrappers
  import opened Strings
  import opened Papers
  import opened Sequences
  import opened Fulltext
  import opened VectorDb
  import opened Hybrid
  import Specter

  /** The two operations `index_paper` stages in the full-text index for `paper`. */
  function Staged(paper: PaperResult): seq<Op> {
    [DeleteTerm(paper.id), AddDocument(PaperDoc(paper.id, paper.title, paper.abstractText, paper.authors, paper.year))]
  }

  /** `index_paper_mock`'s embedding text: the title, a space, and the abstract or nothing. */
  function MockText(paper: PaperResult): string {
    paper.title + " " + paper.abstractText.UnwrapOr("")
  }

  /** The mock text reads back as the title, then one space, then the abstract (empty when absent). */
  lemma MockTextShape(paper: PaperResult)
    ensures |MockText(paper)| == |paper.title| + 1 + |paper.abstractText.UnwrapOr("")|
    ensures MockText(paper)[..|paper.title|] == paper.title
    ensures MockText(paper)[|paper.title|] == ' '
    ensures MockText(paper)[|paper.title| + 1..] == paper.abstractText.UnwrapOr("")
  {
  }

  /** The embedding `index_paper_mock` computes for a paper. */
  function MockEmbeddingOf(paper: PaperResult, hash: string -> bv64): (e: seq<real>)
    ensures |e| == Specter.EMBEDDING_DIMENSION
  {
    Specter.MockValues(hash(MockText(paper)))
  }

  /** What the two stores hold: the published documents, the staged operations, the vector rows. */
  datatype Stores = Stores(docs: seq<Doc>, pending: seq<Op>, rows: seq<Row>)

  /** `index_paper` gets the paper's row into the vector store: both adds succeed. */
  predicate RowStored(embedding: seq<real>, addOk: bool, vectorOk: bool) {
    addOk && vectorOk && |embedding| == Specter.EMBEDDING_DIMENSION
  }

  /** `index_paper` publishes: both adds succeed and the writer commits. */
  predicate Published(embedding: seq<real>, addOk: bool, vectorOk: bool, commit: CommitOutcome) {
    RowStored(embedding, addOk, vectorOk) && !commit.WriteFails?
  }

  /** What the full-text add stages: the delete of the id, then the document when it is accepted. */
  function StagedBy(paper: PaperResult, addOk: bool): seq<Op> {
    if addOk then Staged(paper) else [DeleteTerm(paper.id)]
  }

  /**
   * The stores after `index_paper`: the full-text add stages its operations, the vector add
   * appends the row, and the commit publishes everything staged; the first failing step ends
   * the call.
   */
  function IndexEffect(s: Stores, paper: PaperResult, embedding: seq<real>, addOk: bool, vectorOk: bool,
                       commit: CommitOutcome): Stores
  {
    var staged := s.pending + StagedBy(paper, addOk);
    var rows := if RowStored(embedding, addOk, vectorOk) then s.rows + [MakeRow(paper, embedding)] else s.rows;
    if Published(embedding, addOk, vectorOk, commit) then Stores(Apply(s.docs, staged), [], rows)
    else Stores(s.docs, staged, rows)
  }

  /**
   * Publishing what `index_paper` leaves staged gives what publishing its staged operations
   * would, starting from any batch that publishes the same documents as the old stores.
   */
  lemma IndexEffectPublishes(s: Stores, paper: PaperResult, embedding: seq<real>, addOk: bool, vectorOk: bool,
                             commit: CommitOutcome, docs: seq<Doc>, ops: seq<Op>)
    requires Apply(s.docs, s.pending) == Apply(docs, ops)
    ensures var e := IndexEffect(s, paper, embedding, addOk, vectorOk, commit);
      Apply(e.docs, e.pending) == Apply(docs, ops + StagedBy(paper, addOk))
  {
    ApplyExtend(s.docs, s.pending, docs, ops, StagedBy(paper, addOk));
  }

  /** `index_paper` keeps every row already stored, and appends the paper's row after them when it stores one. */
  lemma IndexEffectAppends(s: Stores, paper: PaperResult, embedding: seq<real>, addOk: bool, vectorOk: bool,
                           commit: CommitOutcome, before: seq<Row>, added: seq<Row>)
    requires s.rows == before + added
    ensures IndexEffect(s, paper, embedding, addOk, vectorOk, commit).rows
            == before + (added + if RowStored(embedding, addOk, vectorOk) then [MakeRow(paper, embedding)] else [])
  {
    var row := if RowStored(embedding, addOk, vectorOk) then [MakeRow(paper, embedding)] else [];
    assert before + added + row == before + (added + row);
  }

  /**
   * What `index_paper` does to the stores: the row is appended exactly when both adds
   * succeed; publishing what is staged afterwards gives what publishing the old staged
   * operations and the paper's would; nothing is published unless both adds and the write
   * succeed, and once it is, nothing stays staged and exactly one document has the id.
   */
  lemma IndexEffectSpec(s: Stores, paper: PaperResult, embedding: seq<real>, addOk: bool, vectorOk: bool,
                        commit: CommitOutcome)
    ensures var e := IndexEffect(s, paper, embedding, addOk, vectorOk, commit);
      e.rows == s.rows + (if RowStored(embedding, addOk, vectorOk) then [MakeRow(paper, embedding)] else [])
    ensures var e := IndexEffect(s, paper, embedding, addOk, vectorOk, commit);
      Apply(e.docs, e.pending) == Apply(s.docs, s.pending + StagedBy(paper, addOk))
    ensures var e := IndexEffect(s, paper, embedding, addOk, vectorOk, commit);
      !Published(embedding, addOk, vectorOk, commit) ==>
        e.docs == s.docs && e.pending == s.pending + StagedBy(paper, addOk)
    ensures var e := IndexEffect(s, paper, embedding, addOk, vectorOk, commit);
      Published(embedding, addOk, vectorOk, commit) ==> e.pending == [] && CountId(e.docs, paper.id) == 1
  {
    if Published(embedding, addOk, vectorOk, commit) {
      IndexedOnce(s.docs, s.pending, paper);
    }
  }

  class LocalIndex {
    const fulltext: FulltextIndex
    const vector: VectorStore
    const dataDir: string

    /** Both stores opened under `dataDir` with what they already hold. */
    constructor Open(dataDir: string, docs: seq<Doc>, rows: seq<Row>)
      ensures this.dataDir == dataDir
      ensures fresh(fulltext) && fresh(vector)
      ensures fulltext.committed == docs && fulltext.pending == [] && vector.rows == rows
    {
      this.dataDir := dataDir;
      fulltext := new FulltextIndex.Open(docs);
      vector := new VectorStore.Open(rows);
    }

    /** The contents of both stores. */
    function State(): Stores
      reads fulltext, vector
    {
      Stores(fulltext.committed, fulltext.pending, vector.rows)
    }

    /**
     * `index_paper`: the full-text add, then the vector add, then the full-text commit; the
     * first failing step ends the call. A reload failure after the write fails the call but
     * leaves everything published.
     */
    method IndexPaper(paper: PaperResult, embedding: seq<real>, addOk: bool, vectorOk: bool, commit: CommitOutcome)
      returns (r: Result<(), string>)
      modifies fulltext, vector
      ensures r.Ok? <==> RowStored(embedding, addOk, vectorOk) && commit.Committed?
      ensures State() == IndexEffect(old(State()), paper, embedding, addOk, vectorOk, commit)
    {
      var added := fulltext.AddPaper(paper.id, paper.title, paper.abstractText, paper.authors, paper.year, addOk);
      if added.Err? {
        return Err(added.error);
      }
      var stored := vector.AddPaper(paper, embedding, vectorOk);
      if stored.Err? {
        return Err(stored.error);
      }
      var committed := fulltext.Commit(commit);
      if committed.Err? {
        return Err(committed.error);
      }
      r := Ok(());
    }

    /** `index_paper_mock`: `index_paper` with the mock embedding of the paper's mock text. */
    method IndexPaperMock(paper: PaperResult, hash: string -> bv64, addOk: bool, vectorOk: bool, commit: CommitOutcome)
      returns (r: Result<(), string>)
      modifies fulltext, vector
      ensures r.Ok? <==> addOk && vectorOk && commit.Committed?
      ensures State() == IndexEffect(old(State()), paper, MockEmbeddingOf(paper, hash), addOk, vectorOk, commit)
    {
      var text := paper.title + " " + paper.abstractText.UnwrapOr("");
      var embedding := Specter.MockEmbedding(text, hash);
      r := IndexPaper(paper, embedding, addOk, vectorOk, commit);
    }

    /** `search`: hybrid search over the two stores, unchanged. */
    method Search(mode: SearchMode, limit: nat, parses: bool, searchOk: bool, top: seq<(real, nat)>,
                  vectorOk: bool, nearest: seq<(nat, real)>)
      returns (r: Result<seq<ScoredResult>, string>)
      requires forall k :: 0 <= k < |nearest| ==> nearest[k].0 < |vector.rows|
      ensures mode.KeywordOnly? ==>
        r == SingleList(SearchResult(fulltext.committed, parses, searchOk, top, FetchLimit(limit)), true, limit)
      ensures mode.VectorOnly? && vectorOk ==>
        r == SingleList(Ok(VectorHits(vector.rows, nearest, FetchLimit(limit))), false, limit)
      ensures mode.VectorOnly? && !vectorOk ==> r.Err?
      ensures mode.HybridMode? ==>
        (r.Ok? <==> SearchResult(fulltext.committed, parses, searchOk, top, FetchLimit(limit)).Ok? && vectorOk)
      ensures mode.HybridMode? && r.Ok? ==>
        FusedRanking(r.value, SearchResult(fulltext.committed, parses, searchOk, top, FetchLimit(limit)).value,
                     VectorHits(vector.rows, nearest, FetchLimit(limit)), limit)
    {
      r := HybridSearch(fulltext, vector, mode, limit, parses, searchOk, top, vectorOk, nearest);
    }

    /** `count`: the number of rows in the vector store. */
    method Count(ok: bool) returns (r: Result<nat, string>)
      ensures ok ==> r == Ok(|vector.rows|)
      ensures !ok ==> r.Err?
    {
      r := vector.Count(ok);
    }

    /**
     * `delete`: stages and commits the full-text delete, then deletes from the vector store.
     * A failed commit, of the write or of the reload, ends the call before the vector store
     * is touched.
     */
    method Delete(id: string, commit: CommitOutcome, vectorOk: bool) returns (r: Result<(), string>)
      modifies fulltext, vector
      ensures r.Ok? <==> commit.Committed? && vectorOk
      ensures commit.WriteFails? ==> (fulltext.committed == old(fulltext.committed)
        && fulltext.pending == old(fulltext.pending) + [DeleteTerm(id)])
      ensures !commit.WriteFails? ==>
        (fulltext.committed == Apply(old(fulltext.committed), old(fulltext.pending) + [DeleteTerm(id)])
         && fulltext.pending == [])
      ensures commit.Committed? && vectorOk ==> vector.rows == Filter(old(vector.rows), (row: Row) => row.id != id)
      ensures !(commit.Committed? && vectorOk) ==> vector.rows == old(vector.rows)
    {
      var staged := fulltext.Delete(id);
      var committed := fulltext.Commit(commit);
      if committed.Err? {
        return Err(committed.error);
      }
      var removed := vector.Delete(id, vectorOk);
      if removed.Err? {
        return Err(removed.error);
      }
      r := Ok(());
    }

    /** `get_paper`: the vector store's lookup. */
    method GetPaper(id: string, ok: bool) returns (r: Result<Option<PaperResult>, string>)
      ensures ok ==> r == Ok(Lookup(vector.rows, id))
      ensures !ok ==> r.Err?
    {
      r := vector.GetPaper(id, ok);
    }
  }

  /**
   * After a successful `index_paper` the full-text index holds exactly one document with the
   * paper's id, whatever was staged or published before.
   */
  lemma IndexedOnce(docs: seq<Doc>, pending: seq<Op>, paper: PaperResult)
    ensures CountId(Apply(docs, pending + Staged(paper)), paper.id) == 1
  {
    var d := PaperDoc(paper.id, paper.title, paper.abstractText, paper.authors, paper.year);
    PaperDocId(paper.id, paper.title, paper.abstractText, paper.authors, paper.year);
    ApplyAppend(docs, pending, Staged(paper));
    ReplaceLeavesOne(Apply(docs, pending), paper.id, d);
  }

  /**
   * The vector add appends without removing older rows, and the lookup returns the first row
   * with the id: a new paper reads back unchanged, while re-indexing an id already stored
   * leaves the lookup returning the older version.
   */
  lemma LookupAfterAdd(rows: seq<Row>, paper: PaperResult, embedding: seq<real>)
    ensures Lookup(rows, paper.id).None? ==> Lookup(rows + [MakeRow(paper, embedding)], paper.id) == Some(paper)
    ensures Lookup(rows, paper.id).Some? ==>
              Lookup(rows + [MakeRow(paper, embedding)], paper.id) == Lookup(rows, paper.id)
  {
    var row := MakeRow(paper, embedding);
    RowRoundTrip(paper, embedding);
    LookupAppend(rows, [row], paper.id);
    assert FirstWhere([row], (r: Row) => r.id == paper.id) == Some(row);
  }

  /** Indexing then deleting a paper leaves no row with its id and every other id as found before. */
  lemma IndexThenDelete(rows: seq<Row>, paper: PaperResult, embedding: seq<real>, other: string)
    requires other != paper.id
    ensures Lookup(Filter(rows + [MakeRow(paper, embedding)], (row: Row) => row.id != paper.id), paper.id).None?
    ensures Lookup(Filter(rows + [MakeRow(paper, embedding)], (row: Row) => row.id != paper.id), other).Some?
            <==> Lookup(rows, other).Some?
  {
    var row := MakeRow(paper, embedding);
    LookupAfterDelete(rows + [row], paper.id, other);
    LookupAppend(rows, [row], other);
    assert Lookup([row], other).None?;
  }
}
