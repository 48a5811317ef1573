/**
 * Hybrid search over the local index (`hybrid_search`, `resolve_results`): BM25 hits from the
 * full-text index and nearest neighbours from the vector store, fused by reciprocal rank
 * fusion. The hit at rank r of a list contributes 1 / (60 + r + 1). Scores are reals.
 */
module Hybrid {
  import opened Wrappers
  import opened Strings
  import opened Papers
  import opened Sequences
  import opened Fulltext
  import opened VectorDb

  /** The fusion constant. */
  const RRF_K: real := 60.0

  datatype SearchMode =
    | KeywordOnly(query: string)
    | VectorOnly(embedding: seq<real>)
    | HybridMode(query: string, embedding: seq<real>)

  datatype ScoredResult = ScoredResult(id: string, rrfScore: real, bm25Score: Option<real>, vectorDistance: Option<real>)

  /** The running total for one id (`RrfAccumulator`); the default is a zero score and no sub-scores. */
  datatype Acc = Acc(rrfScore: real, bm25Score: Option<real>, vectorDistance: Option<real>)

  /** The contribution of the hit at `rank` (counted from 0). */
  function Rrf(rank: nat): (r: real)
    ensures 0.0 < r
  {
    1.0 / (RRF_K + rank as real + 1.0)
  }

  lemma RrfDecreasing(i: nat, j: nat)
    requires i < j
    ensures Rrf(i) > Rrf(j)
  {
    var a, b := RRF_K + i as real + 1.0, RRF_K + j as real + 1.0;
    var x, y := 1.0 / a, 1.0 / b;
    assert x * a == 1.0 && y * b == 1.0;
  }

  /** Every mode asks each store it queries for three times as many candidates as it returns. */
  function FetchLimit(limit: nat): nat {
    limit * 3
  }

  function Score(r: ScoredResult): real {
    r.rrfScore
  }

  // ---------------------------------------------------------------- one list

  /** The results of one list in its own order: rank-based score, and the list's own score kept on the side. */
  function Ranked(hits: seq<(string, real)>, keyword: bool): (r: seq<ScoredResult>)
    ensures |r| == |hits|
  {
    seq(|hits|, k requires 0 <= k < |hits| =>
      if keyword then ScoredResult(hits[k].0, Rrf(k), Some(hits[k].1), None)
      else ScoredResult(hits[k].0, Rrf(k), None, Some(hits[k].1)))
  }

  function SingleList(hits: Result<seq<(string, real)>, string>, keyword: bool, limit: nat)
    : Result<seq<ScoredResult>, string>
  {
    match hits
    case Err(e) => Err(e)
    case Ok(h) => Ok(Truncate(Ranked(h, keyword), limit))
  }

  /**
   * Keyword-only and vector-only results are the first min(limit, n) hits in their fetched
   * order, the hit at rank k scored 1 / (61 + k); keyword results carry the BM25 score and
   * no distance, vector results the other way round.
   */
  lemma SingleListShape(hits: seq<(string, real)>, keyword: bool, limit: nat)
    ensures var out := SingleList(Ok(hits), keyword, limit).value;
      && |out| == (if |hits| < limit then |hits| else limit)
      && forall k :: 0 <= k < |out| ==>
           && out[k].id == hits[k].0
           && out[k].rrfScore == 1.0 / (61 + k) as real
           && (keyword ==> out[k].bm25Score == Some(hits[k].1) && out[k].vectorDistance.None?)
           && (!keyword ==> out[k].bm25Score.None? && out[k].vectorDistance == Some(hits[k].1))
  {
  }

  // ---------------------------------------------------------------- fusion

  /** The ids a list contains. */
  function Ids(hits: seq<(string, real)>): set<string>
    decreases |hits|
  {
    if hits == [] then {} else Ids(hits[..|hits| - 1]) + {hits[|hits| - 1].0}
  }

  lemma {:induction false} IdsMember(hits: seq<(string, real)>, id: string)
    ensures id in Ids(hits) <==> exists k :: 0 <= k < |hits| && hits[k].0 == id
    decreases |hits|
  {
    if hits != [] {
      var prefix := hits[..|hits| - 1];
      IdsMember(prefix, id);
      if exists k :: 0 <= k < |prefix| && prefix[k].0 == id {
        var k :| 0 <= k < |prefix| && prefix[k].0 == id;
        assert hits[k].0 == id;
      }
      if exists k :: 0 <= k < |hits| && hits[k].0 == id {
        var k :| 0 <= k < |hits| && hits[k].0 == id;
        if k < |prefix| { assert prefix[k].0 == id; }
      }
    }
  }

  /** The fused score of `id` from one list: 1 / (61 + r) summed over every rank r where it occurs. */
  function ScoreIn(hits: seq<(string, real)>, id: string): real
    decreases |hits|
  {
    if hits == [] then 0.0
    else
      var n := |hits| - 1;
      ScoreIn(hits[..n], id) + (if hits[n].0 == id then Rrf(n) else 0.0)
  }

  /** The list's own score at the last occurrence of `id`, the one the accumulator keeps. */
  function LastScore(hits: seq<(string, real)>, id: string): (r: Option<real>)
    decreases |hits|
  {
    if hits == [] then None
    else if hits[|hits| - 1].0 == id then Some(hits[|hits| - 1].1)
    else LastScore(hits[..|hits| - 1], id)
  }

  lemma {:induction false} LastScoreOccurs(hits: seq<(string, real)>, id: string)
    ensures LastScore(hits, id).Some? <==> id in Ids(hits)
    ensures id !in Ids(hits) ==> ScoreIn(hits, id) == 0.0
    ensures id in Ids(hits) ==> ScoreIn(hits, id) > 0.0
    decreases |hits|
  {
    if hits != [] {
      LastScoreOccurs(hits[..|hits| - 1], id);
    }
  }

  /** The result the fusion gives `id`. */
  function Fused(bm25: seq<(string, real)>, vec: seq<(string, real)>, id: string): ScoredResult {
    ScoredResult(id, ScoreIn(bm25, id) + ScoreIn(vec, id), LastScore(bm25, id), LastScore(vec, id))
  }

  function Entry(m: map<string, Acc>, id: string): Acc {
    if id in m then m[id] else Acc(0.0, None, None)
  }

  /** `doc_scores.entry(id).or_default()` updated for one hit. */
  function AddHit(m: map<string, Acc>, id: string, rank: nat, value: real, keyword: bool): map<string, Acc> {
    var e := Entry(m, id);
    var bumped := e.(rrfScore := e.rrfScore + Rrf(rank));
    m[id := if keyword then bumped.(bm25Score := Some(value)) else bumped.(vectorDistance := Some(value))]
  }

  /** The accumulator after one list's loop, the hit at index r counted with rank r. */
  function FoldHits(m: map<string, Acc>, hits: seq<(string, real)>, keyword: bool): map<string, Acc>
    decreases |hits|
  {
    if hits == [] then m
    else
      var n := |hits| - 1;
      AddHit(FoldHits(m, hits[..n], keyword), hits[n].0, n, hits[n].1, keyword)
  }

  lemma {:induction false} FoldHitsEntry(m: map<string, Acc>, hits: seq<(string, real)>, keyword: bool, id: string)
    ensures id in FoldHits(m, hits, keyword) <==> id in m || id in Ids(hits)
    ensures Entry(FoldHits(m, hits, keyword), id) ==
      var e := Entry(m, id);
      var last := LastScore(hits, id);
      Acc(e.rrfScore + ScoreIn(hits, id),
          if keyword && last.Some? then last else e.bm25Score,
          if !keyword && last.Some? then last else e.vectorDistance)
    decreases |hits|
  {
    if hits != [] {
      FoldHitsEntry(m, hits[..|hits| - 1], keyword, id);
    }
  }

  /** The accumulator after both loops of hybrid mode. */
  function DocScores(bm25: seq<(string, real)>, vec: seq<(string, real)>): map<string, Acc> {
    FoldHits(FoldHits(map[], bm25, true), vec, false)
  }

  /**
   * Every id of either list has exactly one entry; its score is its summed contributions from
   * both lists, its BM25 score is present iff it is in the keyword list, and its distance iff
   * it is in the vector list.
   */
  lemma DocScoresEntry(bm25: seq<(string, real)>, vec: seq<(string, real)>, id: string)
    ensures id in DocScores(bm25, vec) <==> id in Ids(bm25) + Ids(vec)
    ensures id in DocScores(bm25, vec) ==>
      var e := DocScores(bm25, vec)[id];
      ScoredResult(id, e.rrfScore, e.bm25Score, e.vectorDistance) == Fused(bm25, vec, id)
  {
    FoldHitsEntry(map[], bm25, true, id);
    FoldHitsEntry(FoldHits(map[], bm25, true), vec, false, id);
    LastScoreOccurs(vec, id);
  }

  /** The two results name different ids. */
  predicate DistinctIds(a: ScoredResult, b: ScoredResult) {
    a.id != b.id
  }

  /**
   * The hybrid ranking: min(limit, number of ids) results with distinct ids, each carrying
   * its fused score and sub-scores, in non-increasing score order, and no id left out scoring
   * higher than a kept one.
   */
  ghost predicate FusedRanking(out: seq<ScoredResult>, bm25: seq<(string, real)>, vec: seq<(string, real)>, limit: nat) {
    var ids := Ids(bm25) + Ids(vec);
    && |out| == (if |ids| < limit then |ids| else limit)
    && (forall k :: 0 <= k < |out| ==> out[k].id in ids && out[k] == Fused(bm25, vec, out[k].id))
    && Pairwise(out, DistinctIds)
    && SortedDesc(out, Score)
    && (forall id :: id in ids && (forall k :: 0 <= k < |out| ==> out[k].id != id) ==>
          forall k :: 0 <= k < |out| ==> Fused(bm25, vec, id).rrfScore <= out[k].rrfScore)
  }

  /** The two accumulation loops of hybrid mode. */
  method Accumulate(bm25: seq<(string, real)>, vec: seq<(string, real)>) returns (docScores: map<string, Acc>)
    ensures docScores == DocScores(bm25, vec)
  {
    docScores := map[];
    var rank := 0;
    while rank < |bm25|
      invariant 0 <= rank <= |bm25|
      invariant docScores == FoldHits(map[], bm25[..rank], true)
    {
      var (id, score) := bm25[rank];
      var entry := if id in docScores then docScores[id] else Acc(0.0, None, None);
      entry := entry.(rrfScore := entry.rrfScore + 1.0 / (RRF_K + rank as real + 1.0));
      entry := entry.(bm25Score := Some(score));
      docScores := docScores[id := entry];
      assert bm25[..rank + 1][..rank] == bm25[..rank];
      rank := rank + 1;
    }
    assert bm25[..rank] == bm25;
    ghost var afterKeyword := docScores;
    rank := 0;
    while rank < |vec|
      invariant 0 <= rank <= |vec|
      invariant docScores == FoldHits(afterKeyword, vec[..rank], false)
    {
      var (id, distance) := vec[rank];
      var entry := if id in docScores then docScores[id] else Acc(0.0, None, None);
      entry := entry.(rrfScore := entry.rrfScore + 1.0 / (RRF_K + rank as real + 1.0));
      entry := entry.(vectorDistance := Some(distance));
      docScores := docScores[id := entry];
      assert vec[..rank + 1][..rank] == vec[..rank];
      rank := rank + 1;
    }
    assert vec[..rank] == vec;
  }

  function ToScored(id: string, e: Acc): ScoredResult {
    ScoredResult(id, e.rrfScore, e.bm25Score, e.vectorDistance)
  }

  /** The map's entries as a list, in whatever order the map yields them. */
  method Entries(docScores: map<string, Acc>) returns (unsorted: seq<ScoredResult>)
    ensures |unsorted| == |docScores.Keys|
    ensures forall k :: 0 <= k < |unsorted| ==>
              unsorted[k].id in docScores && unsorted[k] == ToScored(unsorted[k].id, docScores[unsorted[k].id])
    ensures forall id :: id in docScores ==> exists k :: 0 <= k < |unsorted| && unsorted[k].id == id
    ensures Pairwise(unsorted, DistinctIds)
  {
    var remaining := docScores.Keys;
    unsorted := [];
    while remaining != {}
      invariant remaining <= docScores.Keys
      invariant |unsorted| + |remaining| == |docScores.Keys|
      invariant forall k :: 0 <= k < |unsorted| ==>
                  unsorted[k].id in docScores && unsorted[k].id !in remaining
                  && unsorted[k] == ToScored(unsorted[k].id, docScores[unsorted[k].id])
      invariant forall id :: id in docScores ==> id in remaining || exists k :: 0 <= k < |unsorted| && unsorted[k].id == id
      invariant Pairwise(unsorted, DistinctIds)
      decreases |remaining|
    {
      var id :| id in remaining;
      var item := ToScored(id, docScores[id]);
      ghost var listed, left := unsorted, remaining;
      PairwiseSnoc(unsorted, item, DistinctIds);
      unsorted := unsorted + [item];
      remaining := remaining - {id};
      forall other | other in docScores
        ensures other in remaining || exists k :: 0 <= k < |unsorted| && unsorted[k].id == other
      {
        if other == id {
          assert unsorted[|unsorted| - 1].id == other;
        } else if other !in remaining {
          assert other !in left;
          var k :| 0 <= k < |listed| && listed[k].id == other;
          assert unsorted[k].id == other;
        }
      }
    }
  }

  lemma {:induction false} DocScoresKeys(bm25: seq<(string, real)>, vec: seq<(string, real)>)
    ensures DocScores(bm25, vec).Keys == Ids(bm25) + Ids(vec)
  {
    forall id ensures id in DocScores(bm25, vec) <==> id in Ids(bm25) + Ids(vec) {
      DocScoresEntry(bm25, vec, id);
    }
  }

  /** Every kept entry is the fused result of its id. */
  lemma {:induction false} KeptAreFused(bm25: seq<(string, real)>, vec: seq<(string, real)>, m: map<string, Acc>,
                     unsorted: seq<ScoredResult>, out: seq<ScoredResult>)
    requires m == DocScores(bm25, vec)
    requires forall k :: 0 <= k < |unsorted| ==> unsorted[k].id in m && unsorted[k] == ToScored(unsorted[k].id, m[unsorted[k].id])
    requires multiset(out) <= multiset(unsorted)
    ensures forall k :: 0 <= k < |out| ==> out[k].id in Ids(bm25) + Ids(vec) && out[k] == Fused(bm25, vec, out[k].id)
  {
    forall k | 0 <= k < |out| ensures out[k].id in Ids(bm25) + Ids(vec) && out[k] == Fused(bm25, vec, out[k].id) {
      assert out[k] in multiset(unsorted);
      var j :| 0 <= j < |unsorted| && unsorted[j] == out[k];
      DocScoresEntry(bm25, vec, out[k].id);
    }
  }

  lemma {:induction false} DroppedOne(unsorted: seq<ScoredResult>, out: seq<ScoredResult>, limit: nat, j: nat)
    requires out == Truncate(SortBy(unsorted, Score), limit)
    requires j < |unsorted|
    requires forall k :: 0 <= k < |out| ==> out[k].id != unsorted[j].id
    ensures forall k :: 0 <= k < |out| ==> unsorted[j].rrfScore <= out[k].rrfScore
  {
    assert unsorted[j] !in out;
    SortTruncateTop(unsorted, Score, limit, unsorted[j]);
  }

  /** An id the truncation drops scores no higher than any kept result. */
  lemma {:induction false} DroppedScoreLower(bm25: seq<(string, real)>, vec: seq<(string, real)>, m: map<string, Acc>,
                          unsorted: seq<ScoredResult>, out: seq<ScoredResult>, limit: nat)
    requires m == DocScores(bm25, vec)
    requires out == Truncate(SortBy(unsorted, Score), limit)
    requires forall k :: 0 <= k < |unsorted| ==> unsorted[k].id in m && unsorted[k] == ToScored(unsorted[k].id, m[unsorted[k].id])
    requires forall id :: id in m ==> exists k :: 0 <= k < |unsorted| && unsorted[k].id == id
    ensures forall id :: id in Ids(bm25) + Ids(vec) && (forall k :: 0 <= k < |out| ==> out[k].id != id) ==>
              forall k :: 0 <= k < |out| ==> Fused(bm25, vec, id).rrfScore <= out[k].rrfScore
  {
    forall id | id in Ids(bm25) + Ids(vec) && (forall k :: 0 <= k < |out| ==> out[k].id != id)
      ensures forall k :: 0 <= k < |out| ==> Fused(bm25, vec, id).rrfScore <= out[k].rrfScore
    {
      DocScoresEntry(bm25, vec, id);
      var j :| 0 <= j < |unsorted| && unsorted[j].id == id;
      DroppedOne(unsorted, out, limit, j);
      assert unsorted[j].rrfScore == Fused(bm25, vec, id).rrfScore;
    }
  }

  /** The number of results is min(limit, number of ids). */
  lemma {:induction false} RankedLength(bm25: seq<(string, real)>, vec: seq<(string, real)>, m: map<string, Acc>,
                     unsorted: seq<ScoredResult>, out: seq<ScoredResult>, limit: nat)
    requires m == DocScores(bm25, vec)
    requires out == Truncate(SortBy(unsorted, Score), limit)
    requires |unsorted| == |m.Keys|
    ensures |out| == (if |Ids(bm25) + Ids(vec)| < limit then |Ids(bm25) + Ids(vec)| else limit)
  {
    DocScoresKeys(bm25, vec);
  }

  /** Sorting the entries by score and keeping `limit` of them gives the fused ranking. */
  lemma {:induction false} RankEntries(bm25: seq<(string, real)>, vec: seq<(string, real)>, m: map<string, Acc>,
                    unsorted: seq<ScoredResult>, limit: nat)
    requires m == DocScores(bm25, vec)
    requires |unsorted| == |m.Keys|
    requires forall k :: 0 <= k < |unsorted| ==> unsorted[k].id in m && unsorted[k] == ToScored(unsorted[k].id, m[unsorted[k].id])
    requires forall id :: id in m ==> exists k :: 0 <= k < |unsorted| && unsorted[k].id == id
    requires Pairwise(unsorted, DistinctIds)
    ensures FusedRanking(Truncate(SortBy(unsorted, Score), limit), bm25, vec, limit)
  {
    var out := Truncate(SortBy(unsorted, Score), limit);
    SortTruncate(unsorted, Score, limit, DistinctIds);
    KeptAreFused(bm25, vec, m, unsorted, out);
    RankedLength(bm25, vec, m, unsorted, out, limit);
    DroppedScoreLower(bm25, vec, m, unsorted, out, limit);
  }

  /** The vector store's answer to a search, as its `search_similar` gives it. */
  function VectorHits(rows: seq<Row>, nearest: seq<(nat, real)>, fetch: nat): seq<(string, real)>
    requires forall k :: 0 <= k < |nearest| ==> nearest[k].0 < |rows|
  {
    var batch := Truncate(nearest, fetch);
    seq(|batch|, k requires 0 <= k < |batch| => (rows[batch[k].0].id, batch[k].1))
  }

  /**
   * `hybrid_search`. `parses`, `searchOk` and `top` stand for the full-text library's parse
   * of the query, the searcher's success and its ranking; `vectorOk` and `nearest` for the
   * vector engine's success and its nearest-neighbour order.
   */
  method HybridSearch(fulltext: FulltextIndex, vector: VectorStore, mode: SearchMode, limit: nat,
                      parses: bool, searchOk: bool, top: seq<(real, nat)>, vectorOk: bool,
                      nearest: seq<(nat, real)>)
    returns (r: Result<seq<ScoredResult>, string>)
    requires forall k :: 0 <= k < |nearest| ==> nearest[k].0 < |vector.rows|
    ensures mode.KeywordOnly? ==>
      r == SingleList(SearchResult(fulltext.committed, parses, searchOk, top, FetchLimit(limit)), true, limit)
    ensures mode.VectorOnly? && vectorOk ==>
      r == SingleList(Ok(VectorHits(vector.rows, nearest, FetchLimit(limit))), false, limit)
    ensures mode.VectorOnly? && !vectorOk ==> r.Err?
    ensures mode.HybridMode? ==>
      (r.Ok? <==> SearchResult(fulltext.committed, parses, searchOk, top, FetchLimit(limit)).Ok? && vectorOk)
    ensures mode.HybridMode? && r.Ok? ==>
      FusedRanking(r.value, SearchResult(fulltext.committed, parses, searchOk, top, FetchLimit(limit)).value,
                   VectorHits(vector.rows, nearest, FetchLimit(limit)), limit)
  {
    var fetchLimit := limit * 3;
    match mode {
      case KeywordOnly(query) =>
        var bm25 := fulltext.Search(query, fetchLimit, parses, searchOk, top);
        if bm25.Err? {
          return Err(bm25.error);
        }
        r := Ok(Truncate(Ranked(bm25.value, true), limit));
      case VectorOnly(embedding) =>
        var found := vector.SearchSimilar(embedding, fetchLimit, vectorOk, nearest);
        if found.Err? {
          return Err(found.error);
        }
        assert found.value == VectorHits(vector.rows, nearest, fetchLimit);
        r := Ok(Truncate(Ranked(found.value, false), limit));
      case HybridMode(query, embedding) =>
        var bm25 := fulltext.Search(query, fetchLimit, parses, searchOk, top);
        if bm25.Err? {
          return Err(bm25.error);
        }
        var found := vector.SearchSimilar(embedding, fetchLimit, vectorOk, nearest);
        if found.Err? {
          return Err(found.error);
        }
        assert found.value == VectorHits(vector.rows, nearest, fetchLimit);
        var docScores := Accumulate(bm25.value, found.value);
        var results := Entries(docScores);
        RankEntries(bm25.value, found.value, docScores, results, limit);
        results := SortBy(results, Score);
        results := Truncate(results, limit);
        r := Ok(results);
    }
  }

  // ---------------------------------------------------------------- resolve_results

  /** The papers the ids resolve to, in the results' order, misses dropped. */
  function Resolved(rows: seq<Row>, scored: seq<ScoredResult>): seq<PaperResult>
    decreases |scored|
  {
    if scored == [] then []
    else
      var n := |scored| - 1;
      Resolved(rows, scored[..n]) + (match Lookup(rows, scored[n].id) case Some(p) => [p] case None => [])
  }

  /** At most one paper per result, and exactly one per result when every id is stored. */
  lemma {:induction false} ResolvedLength(rows: seq<Row>, scored: seq<ScoredResult>)
    ensures |Resolved(rows, scored)| <= |scored|
    ensures (forall k :: 0 <= k < |scored| ==> Lookup(rows, scored[k].id).Some?) ==>
              |Resolved(rows, scored)| == |scored|
    decreases |scored|
  {
    if scored != [] {
      var prefix := scored[..|scored| - 1];
      ResolvedLength(rows, prefix);
      if forall k :: 0 <= k < |scored| ==> Lookup(rows, scored[k].id).Some? {
        forall k | 0 <= k < |prefix| ensures Lookup(rows, prefix[k].id).Some? {
          assert prefix[k] == scored[k];
        }
      }
    }
  }

  /** Each resolved paper is the stored paper of some result's id. */
  lemma {:induction false} ResolvedFound(rows: seq<Row>, scored: seq<ScoredResult>, p: PaperResult)
    requires p in Resolved(rows, scored)
    ensures exists k :: 0 <= k < |scored| && Lookup(rows, scored[k].id) == Some(p)
    decreases |scored|
  {
    var n := |scored| - 1;
    var prefix := scored[..n];
    if p in Resolved(rows, prefix) {
      ResolvedFound(rows, prefix, p);
      var k :| 0 <= k < |prefix| && Lookup(rows, prefix[k].id) == Some(p);
      assert scored[k] == prefix[k];
    } else {
      assert Lookup(rows, scored[n].id) == Some(p);
    }
  }

  /**
   * `resolve_results`: looks every result up in the vector store in order, keeping the papers
   * found; lookup `k` succeeds iff `lookupOk(k)`, and the first failing lookup aborts the call.
   */
  method ResolveResults(vector: VectorStore, scored: seq<ScoredResult>, lookupOk: nat -> bool)
    returns (r: Result<seq<PaperResult>, string>)
    ensures (forall k :: 0 <= k < |scored| ==> lookupOk(k)) ==> r == Ok(Resolved(vector.rows, scored))
    ensures (exists k :: 0 <= k < |scored| && !lookupOk(k)) ==> r.Err?
  {
    var papers: seq<PaperResult> := [];
    var i := 0;
    while i < |scored|
      invariant 0 <= i <= |scored|
      invariant forall k :: 0 <= k < i ==> lookupOk(k)
      invariant papers == Resolved(vector.rows, scored[..i])
    {
      var found := vector.GetPaper(scored[i].id, lookupOk(i));
      if found.Err? {
        return Err(found.error);
      }
      assert scored[..i + 1][..i] == scored[..i];
      match found.value {
        case Some(paper) => papers := papers + [paper];
        case None =>
      }
      i := i + 1;
    }
    assert scored[..i] == scored;
    r := Ok(papers);
  }
}
