/**
 * Federated search: which providers are asked, how many records each is asked for,
 * how their answers are gathered, and how the gathered records are deduplicated and
 * ranked (src/search.rs).
 */
module Search {
  import opened Wrappers
  import opened Strings
  import opened Papers
  import opened Sequences

  // ---------------------------------------------------------------------------
  // Metadata richness
  // ---------------------------------------------------------------------------

  /** Every field that `metadata_score` rewards is filled in. */
  predicate Complete(p: PaperResult) {
    p.title != [] && p.authors != [] && p.abstractText.Some? && p.year.Some?
    && p.doi.Some? && p.citationCount.Some? && p.pdfUrl.Some?
  }

  /** No field that `metadata_score` rewards is filled in. */
  predicate Bare(p: PaperResult) {
    p.title == [] && p.authors == [] && p.abstractText.None? && p.year.None?
    && p.doi.None? && p.citationCount.None? && p.pdfUrl.None?
  }

  /**
   * Richness of a record: one point each for a title, authors, a year, a citation count
   * and a PDF link, two points each for an abstract and a DOI.
   */
  function MetadataScore(p: PaperResult): (r: nat)
    ensures r <= 9
    ensures r == 9 <==> Complete(p)
    ensures r == 0 <==> Bare(p)
  {
    (if p.title != [] then 1 else 0)
    + (if p.authors != [] then 1 else 0)
    + (if p.abstractText.Some? then 2 else 0)
    + (if p.year.Some? then 1 else 0)
    + (if p.doi.Some? then 2 else 0)
    + (if p.citationCount.Some? then 1 else 0)
    + (if p.pdfUrl.Some? then 1 else 0)
  }

  // ---------------------------------------------------------------------------
  // Title normalisation and edit distance
  // ---------------------------------------------------------------------------

  /** Keeps the alphanumeric and whitespace characters, in order. */
  function KeepTitleChars(s: string): string
    decreases |s|
  {
    if s == [] then []
    else (if IsAlnum(s[0]) || IsSpace(s[0]) then [s[0]] else []) + KeepTitleChars(s[1..])
  }

  lemma {:induction false} KeepTitleCharsFrom(s: string)
    ensures forall c :: c in KeepTitleChars(s) ==> c in s && (IsAlnum(c) || IsSpace(c))
    decreases |s|
  {
    if s != [] {
      KeepTitleCharsFrom(s[1..]);
      assert forall c :: c in s[1..] ==> c in s;
    }
  }

  lemma {:induction false} KeepTitleCharsUnchanged(s: string)
    requires forall i :: 0 <= i < |s| ==> IsAlnum(s[i]) || IsSpace(s[i])
    ensures KeepTitleChars(s) == s
    decreases |s|
  {
    if s != [] {
      KeepTitleCharsUnchanged(s[1..]);
      assert s == [s[0]] + s[1..];
    }
  }

  /** `normalize_title`: lower-case, drop punctuation, collapse whitespace to single spaces. */
  function NormalizeTitle(title: string): string {
    Join(SplitWhitespace(KeepTitleChars(Lower(title))), " ")
  }

  /** The shape every normalised title has. */
  predicate IsNormalizedTitle(s: string) {
    SingleSpaced(s) && forall i :: 0 <= i < |s| ==> s[i] == ' ' || IsLowerAlpha(s[i]) || IsDigit(s[i])
  }

  /**
   * A normalised title holds only lower-case letters, digits and single interior spaces,
   * with no space at either end.
   */
  lemma NormalizeTitleShape(title: string)
    ensures IsNormalizedTitle(NormalizeTitle(title))
  {
    var low := Lower(title);
    var kept := KeepTitleChars(low);
    var ws := SplitWhitespace(kept);
    KeepTitleCharsFrom(low);
    SplitWhitespaceWords(kept);
    JoinWordsSingleSpaced(ws);
    var n := Join(ws, " ");
    forall i | 0 <= i < |n| ensures n[i] == ' ' || IsLowerAlpha(n[i]) || IsDigit(n[i]) {
      var c := n[i];
      assert c in n;
      if c != ' ' {
        var k :| 0 <= k < |ws| && c in ws[k];
        var j :| 0 <= j < |ws[k]| && ws[k][j] == c;
        assert !IsSpace(c);
        assert c in kept;
        assert c in low;
        var m :| 0 <= m < |low| && low[m] == c;
        assert low[m] == LowerChar(title[m]);
      }
    }
  }

  /** Normalising a normalised title changes nothing. */
  lemma NormalizeTitleIdempotent(title: string)
    ensures NormalizeTitle(NormalizeTitle(title)) == NormalizeTitle(title)
  {
    var ws := SplitWhitespace(KeepTitleChars(Lower(title)));
    var n := NormalizeTitle(title);
    NormalizeTitleShape(title);
    assert Lower(n) == n by {
      forall i | 0 <= i < |n| ensures Lower(n)[i] == n[i] {
        assert !IsUpperAlpha(n[i]);
      }
    }
    KeepTitleCharsUnchanged(n);
    SplitWhitespaceWords(KeepTitleChars(Lower(title)));
    SplitJoinWords(ws);
  }

  /**
   * A title whose lower-cased text `n` is alphanumeric words joined by single spaces
   * normalises to `n`.
   */
  lemma NormalizeWords(title: string, ws: seq<string>, n: string)
    requires forall k :: 0 <= k < |ws| ==> IsWord(ws[k])
    requires forall k, i :: 0 <= k < |ws| && 0 <= i < |ws[k]| ==> IsAlnum(ws[k][i])
    requires Join(ws, " ") == n && Lower(title) == n
    ensures NormalizeTitle(title) == n
  {
    JoinWordsSingleSpaced(ws);
    forall i | 0 <= i < |n| ensures IsAlnum(n[i]) || IsSpace(n[i]) {
      assert n[i] in n;
    }
    KeepTitleCharsUnchanged(n);
    SplitJoinWords(ws);
  }

  function Min3(a: nat, b: nat, c: nat): (m: nat)
    ensures m <= a && m <= b && m <= c
    ensures m == a || m == b || m == c
  {
    if a <= b && a <= c then a else if b <= c then b else c
  }

  /**
   * The Levenshtein distance between two strings: the least number of one-character
   * insertions, deletions and substitutions that turn `a` into `b`.
   */
  function Levenshtein(a: string, b: string): (d: nat)
    ensures |a| <= |b| + d && |b| <= |a| + d
    ensures d <= |a| || d <= |b|
    ensures d == 0 <==> a == b
    decreases |a| + |b|
  {
    if a == [] then |b|
    else if b == [] then |a|
    else
      var d := Min3(Levenshtein(a[1..], b) + 1,
                    Levenshtein(a, b[1..]) + 1,
                    Levenshtein(a[1..], b[1..]) + (if a[0] == b[0] then 0 else 1));
      assert a[0] == b[0] && a[1..] == b[1..] ==> a == b;
      d
  }

  /** The distance does not depend on the direction in which it is measured. */
  lemma {:induction false} LevenshteinSymmetric(a: string, b: string)
    ensures Levenshtein(a, b) == Levenshtein(b, a)
    decreases |a| + |b|
  {
    if a != [] && b != [] {
      LevenshteinSymmetric(a[1..], b);
      LevenshteinSymmetric(a, b[1..]);
      LevenshteinSymmetric(a[1..], b[1..]);
    }
  }

  /** The number of characters of `s` that satisfy `P`. */
  function Occurrences(s: string, P: char -> bool): (n: nat)
    ensures n <= |s|
    decreases |s|
  {
    if s == [] then 0 else (if P(s[0]) then 1 else 0) + Occurrences(s[1..], P)
  }

  /** Each edit changes the number of characters satisfying `P` by at most one. */
  lemma {:induction false} LevenshteinOccurrences(a: string, b: string, P: char -> bool)
    ensures Occurrences(a, P) <= Levenshtein(a, b) + Occurrences(b, P)
    decreases |a| + |b|
  {
    if a != [] && b != [] {
      LevenshteinOccurrences(a[1..], b, P);
      LevenshteinOccurrences(a, b[1..], P);
      LevenshteinOccurrences(a[1..], b[1..], P);
    }
  }

  /** A string has no fewer characters satisfying `P` than the increasing positions `at` name. */
  lemma {:induction false} OccurrencesAtLeast(s: string, P: char -> bool, at: seq<nat>)
    requires forall k :: 0 <= k < |at| ==> at[k] < |s| && P(s[at[k]])
    requires forall j, k :: 0 <= j < k < |at| ==> at[j] < at[k]
    ensures |at| <= Occurrences(s, P)
    decreases |s|
  {
    if at != [] {
      assert at[0] < |s|;
      if at[0] == 0 {
        OccurrencesAtLeast(s[1..], P, seq(|at| - 1, k requires 0 <= k < |at| - 1 => at[k + 1] - 1));
      } else {
        OccurrencesAtLeast(s[1..], P, seq(|at|, k requires 0 <= k < |at| => at[k] - 1));
      }
    }
  }

  /** A string without characters satisfying `P` has none to count. */
  lemma {:induction false} OccurrencesNone(s: string, P: char -> bool)
    requires forall i :: 0 <= i < |s| ==> !P(s[i])
    ensures Occurrences(s, P) == 0
    decreases |s|
  {
    if s != [] {
      OccurrencesNone(s[1..], P);
    }
  }

  // ---------------------------------------------------------------------------
  // Deduplication
  // ---------------------------------------------------------------------------

  /** The lower-cased DOI of a record, if it has one. */
  function DoiKey(p: PaperResult): Option<string> {
    if p.doi.Some? then Some(Lower(p.doi.value)) else None
  }

  /** The lower-cased DOIs of the records kept so far (the `seen_dois` set). */
  function SeenDois(kept: seq<PaperResult>): set<string>
    decreases |kept|
  {
    if kept == [] then {}
    else
      var last := kept[|kept| - 1];
      SeenDois(kept[..|kept| - 1]) + if last.doi.Some? then {Lower(last.doi.value)} else {}
  }

  /** A string is a seen DOI exactly when some kept record has that DOI up to case. */
  lemma {:induction false} SeenDoisMember(kept: seq<PaperResult>, d: string)
    ensures d in SeenDois(kept) <==>
              exists i :: 0 <= i < |kept| && kept[i].doi.Some? && Lower(kept[i].doi.value) == d
    decreases |kept|
  {
    if kept != [] {
      var prefix := kept[..|kept| - 1];
      SeenDoisMember(prefix, d);
      if d in SeenDois(prefix) {
        var i :| 0 <= i < |prefix| && prefix[i].doi.Some? && Lower(prefix[i].doi.value) == d;
        assert kept[i] == prefix[i];
      }
      forall i | 0 <= i < |prefix| ensures kept[i] == prefix[i] { }
    }
  }

  /** The normalised titles of `p` and `q` are within edit distance 4. */
  predicate Close(p: PaperResult, q: PaperResult) {
    Levenshtein(NormalizeTitle(p.title), NormalizeTitle(q.title)) < 5
  }

  /** Some kept record's title is close to `p`'s (`deduped.iter().any(..)`). */
  predicate TitleClash(p: PaperResult, kept: seq<PaperResult>)
    decreases |kept|
  {
    kept != [] && (Close(p, kept[|kept| - 1]) || TitleClash(p, kept[..|kept| - 1]))
  }

  lemma {:induction false} TitleClashMember(p: PaperResult, kept: seq<PaperResult>)
    ensures TitleClash(p, kept) <==> exists i :: 0 <= i < |kept| && Close(p, kept[i])
    decreases |kept|
  {
    if kept != [] {
      var prefix := kept[..|kept| - 1];
      TitleClashMember(p, prefix);
      if TitleClash(p, prefix) {
        var i :| 0 <= i < |prefix| && Close(p, prefix[i]);
        assert kept[i] == prefix[i];
      }
      if i :| 0 <= i < |kept| && Close(p, kept[i]) {
        if i < |prefix| {
          assert Close(p, prefix[i]);
        }
      }
    }
  }

  /**
   * Whether `p` is kept after `kept`: a record with a DOI is kept when no kept record has
   * the same DOI up to case; a record without one is kept when its title is not close to
   * the title of any kept record, with or without a DOI.
   */
  predicate Admits(kept: seq<PaperResult>, p: PaperResult) {
    if p.doi.Some? then Lower(p.doi.value) !in SeenDois(kept) else !TitleClash(p, kept)
  }

  /** The records the deduplication loop keeps from `s`, in order. */
  function Dedup(s: seq<PaperResult>): seq<PaperResult> {
    KeepIf(s, Admits)
  }

  lemma SeenDoisSnoc(kept: seq<PaperResult>, p: PaperResult)
    ensures SeenDois(kept + [p]) == SeenDois(kept) + (if p.doi.Some? then {Lower(p.doi.value)} else {})
  {
    assert (kept + [p])[..|kept|] == kept;
  }

  /**
   * Two records are apart when they do not share a DOI up to case, and, when neither has a
   * DOI, their normalised titles are at edit distance 5 or more.
   */
  predicate Apart(p: PaperResult, q: PaperResult) {
    (p.doi.Some? && q.doi.Some? ==> Lower(p.doi.value) != Lower(q.doi.value))
    && (p.doi.None? && q.doi.None? ==> Levenshtein(NormalizeTitle(p.title), NormalizeTitle(q.title)) >= 5)
  }

  /**
   * A record admitted after `kept` is apart from every kept record, and a record without a
   * DOI is far in title from every kept record, with or without a DOI.
   */
  lemma AdmittedApart(kept: seq<PaperResult>, p: PaperResult, m: nat)
    requires Admits(kept, p) && m < |kept|
    ensures Apart(p, kept[m]) && Apart(kept[m], p)
    ensures p.doi.None? ==> Levenshtein(NormalizeTitle(p.title), NormalizeTitle(kept[m].title)) >= 5
  {
    var q := kept[m];
    if p.doi.None? {
      TitleClashMember(p, kept);
    }
    if p.doi.Some? && q.doi.Some? {
      SeenDoisMember(kept, Lower(q.doi.value));
    }
    if p.doi.None? && q.doi.None? {
      TitleClashMember(p, kept);
      LevenshteinSymmetric(NormalizeTitle(p.title), NormalizeTitle(q.title));
    }
  }

  /** Any two records that deduplication keeps are apart. */
  lemma DedupApart(s: seq<PaperResult>)
    ensures Pairwise(Dedup(s), Apart)
  {
    forall kept, p, m | Admits(kept, p) && 0 <= m < |kept|
      ensures Apart(p, kept[m]) && Apart(kept[m], p)
    {
      AdmittedApart(kept, p, m);
    }
    KeepIfPairwise(s, Admits, Apart);
  }

  /** Every DOI in the input is the DOI of some kept record. */
  lemma {:induction false} DedupCoversDois(s: seq<PaperResult>, i: nat)
    requires i < |s| && s[i].doi.Some?
    ensures Lower(s[i].doi.value) in SeenDois(Dedup(s))
    decreases |s|
  {
    var kept := Dedup(s[..|s| - 1]);
    var p := s[|s| - 1];
    if Admits(kept, p) { SeenDoisSnoc(kept, p); }
    if i < |s| - 1 {
      DedupCoversDois(s[..|s| - 1], i);
    }
  }

  /** Every record without a DOI is kept, or its title is close to the title of a kept one. */
  lemma {:induction false} DedupCoversTitles(s: seq<PaperResult>, i: nat)
    requires i < |s| && s[i].doi.None?
    ensures s[i] in Dedup(s) || exists j :: 0 <= j < |Dedup(s)| && Close(s[i], Dedup(s)[j])
    decreases |s|
  {
    var prefix := s[..|s| - 1];
    var kept := Dedup(prefix);
    if i < |s| - 1 {
      DedupCoversTitles(prefix, i);
      assert s[i] == prefix[i];
      if s[i] !in kept {
        var j :| 0 <= j < |kept| && Close(s[i], kept[j]);
        assert Dedup(s)[j] == kept[j];
      }
    } else if !Admits(kept, s[i]) {
      TitleClashMember(s[i], kept);
      var j :| 0 <= j < |kept| && Close(s[i], kept[j]);
      assert Dedup(s)[j] == kept[j];
    }
  }

  /**
   * A kept record with a DOI is the earliest record of `s` with that DOI: any record with
   * the same DOI sits at or after it.
   */
  lemma {:induction false} DedupDoiSurvivor(s: seq<PaperResult>, p: PaperResult, i: nat)
    requires p in Dedup(s) && p.doi.Some?
    requires i < |s| && DoiKey(s[i]) == DoiKey(p)
    ensures exists j :: 0 <= j <= i && s[j] == p
    decreases |s|
  {
    var prefix := s[..|s| - 1];
    var kept := Dedup(prefix);
    if p in kept {
      if i < |s| - 1 {
        DedupDoiSurvivor(prefix, p, i);
        var j :| 0 <= j <= i && prefix[j] == p;
        assert s[j] == p;
      } else {
        KeepIfSubmultiset(prefix, Admits);
        assert p in multiset(prefix);
        var j :| 0 <= j < |prefix| && prefix[j] == p;
        assert s[j] == p;
      }
    } else {
      assert p == s[|s| - 1] && Admits(kept, p);
      if i < |s| - 1 {
        DedupCoversDois(prefix, i);
        assert false;
      }
    }
  }

  // ---------------------------------------------------------------------------
  // Ranking
  // ---------------------------------------------------------------------------

  function ScoreKey(p: PaperResult): real { MetadataScore(p) as real }

  function Citations(p: PaperResult): U32 { p.citationCount.UnwrapOr(0) }

  function Year(p: PaperResult): U32 { p.year.UnwrapOr(0) }

  /** Citation count, then year, as one number (both are below 2^32). */
  function RankKey(p: PaperResult): real {
    (Citations(p) * U32_LIMIT + Year(p)) as real
  }

  /** Comparing rank keys is comparing citation counts, then years. */
  lemma RankKeyLexicographic(a: PaperResult, b: PaperResult)
    ensures RankKey(a) >= RankKey(b) <==>
              Citations(a) > Citations(b) || (Citations(a) == Citations(b) && Year(a) >= Year(b))
  {
    if Citations(a) > Citations(b) {
      assert Citations(a) * U32_LIMIT >= Citations(b) * U32_LIMIT + U32_LIMIT;
    } else if Citations(a) < Citations(b) {
      assert Citations(b) * U32_LIMIT >= Citations(a) * U32_LIMIT + U32_LIMIT;
    }
  }

  /** The records kept by deduplication, after the richness sort. */
  function Kept(results: seq<PaperResult>): seq<PaperResult> {
    Dedup(SortBy(results, ScoreKey))
  }

  /** What `deduplicate_and_rank` returns. */
  function DedupAndRank(results: seq<PaperResult>, limit: nat): seq<PaperResult> {
    Truncate(SortBy(Kept(results), RankKey), limit)
  }

  /**
   * The ranked output: at most `limit` records, each an unchanged input record, pairwise
   * apart, ordered by citations and then year, largest first.
   */
  lemma DedupAndRankProperties(results: seq<PaperResult>, limit: nat)
    ensures |DedupAndRank(results, limit)| <= limit
    ensures multiset(DedupAndRank(results, limit)) <= multiset(results)
    ensures Pairwise(DedupAndRank(results, limit), Apart)
    ensures SortedDesc(DedupAndRank(results, limit), RankKey)
  {
    var sorted := SortBy(results, ScoreKey);
    KeepIfSubmultiset(sorted, Admits);
    DedupApart(sorted);
    SortByPermutes(results, ScoreKey);
    SortTruncate(Dedup(sorted), RankKey, limit, Apart);
  }

  /** Among input records that share a DOI up to case, the one kept has the highest richness score. */
  lemma DoiSurvivorIsRichest(results: seq<PaperResult>, p: PaperResult, r: PaperResult)
    requires p in Kept(results) && p.doi.Some?
    requires r in results && DoiKey(r) == DoiKey(p)
    ensures MetadataScore(r) <= MetadataScore(p)
  {
    var sorted := SortBy(results, ScoreKey);
    var i := SortByIndexOf(results, ScoreKey, r);
    DedupDoiSurvivor(sorted, p, i);
    var j :| 0 <= j <= i && sorted[j] == p;
    SortByOrdered(results, ScoreKey, j, i);
  }

  /** Records with the given DOI key and richness score. */
  function SameDoiAndScore(key: Option<string>, score: nat): PaperResult -> bool {
    q => DoiKey(q) == key && MetadataScore(q) == score
  }

  /**
   * Among input records that share the kept record's DOI and its richness score, the kept
   * record is the first in input order (the richness sort is stable).
   */
  lemma DoiSurvivorIsFirst(results: seq<PaperResult>, p: PaperResult)
    requires p in Kept(results) && p.doi.Some?
    ensures var same := Filter(results, SameDoiAndScore(DoiKey(p), MetadataScore(p)));
            |same| > 0 && same[0] == p
  {
    DoiSurvivorFirstSorted(SortBy(results, ScoreKey), p);
    SortByStable(results, ScoreKey, SameDoiAndScore(DoiKey(p), MetadataScore(p)), MetadataScore(p) as real);
  }

  /** The same among the sorted records the deduplication pass visits. */
  lemma DoiSurvivorFirstSorted(sorted: seq<PaperResult>, p: PaperResult)
    requires p in Dedup(sorted) && p.doi.Some?
    ensures var same := Filter(sorted, SameDoiAndScore(DoiKey(p), MetadataScore(p)));
            |same| > 0 && same[0] == p
  {
    var P := SameDoiAndScore(DoiKey(p), MetadataScore(p));
    KeepIfSubmultiset(sorted, Admits);
    assert p in multiset(sorted);
    var j :| 0 <= j < |sorted| && sorted[j] == p;
    FilterHead(sorted, P, j);
    var k :| 0 <= k <= j && Filter(sorted, P)[0] == sorted[k] && P(sorted[k])
             && forall k' :: 0 <= k' < k ==> !P(sorted[k']);
    DedupDoiSurvivor(sorted, p, k);
    var j' :| 0 <= j' <= k && sorted[j'] == p;
    assert P(sorted[j']);
  }

  /**
   * The loop of `deduplicate_and_rank` over the richness-sorted records: keeps a record
   * unless its DOI was seen already or, lacking a DOI, its title is close to a kept one.
   */
  method DeduplicateSorted(sorted: seq<PaperResult>) returns (deduped: seq<PaperResult>)
    ensures deduped == Dedup(sorted)
  {
    var seenDois: set<string> := {};
    deduped := [];
    var i := 0;
    while i < |sorted|
      invariant 0 <= i <= |sorted|
      invariant deduped == KeepIf(sorted[..i], Admits)
      invariant seenDois == SeenDois(deduped)
    {
      var paper := sorted[i];
      var keep: bool;
      keep, seenDois := AdmitStep(seenDois, deduped, paper);
      KeepIfStep(sorted, Admits, i);
      if keep {
        deduped := deduped + [paper];
      }
      i := i + 1;
    }
    assert sorted[..i] == sorted;
  }

  /**
   * One step of the deduplication loop: whether `paper` is kept after `deduped`, and the
   * DOIs seen once it is.
   */
  method AdmitStep(seenDois: set<string>, deduped: seq<PaperResult>, paper: PaperResult)
    returns (keep: bool, seen: set<string>)
    requires seenDois == SeenDois(deduped)
    ensures keep == Admits(deduped, paper)
    ensures seen == SeenDois(if keep then deduped + [paper] else deduped)
  {
    seen := seenDois;
    if paper.doi.Some? {
      var doiLower := Lower(paper.doi.value);
      keep := doiLower !in seenDois;
      if keep {
        seen := seenDois + {doiLower};
      }
    } else {
      keep := !TitleClash(paper, deduped);
    }
    SeenDoisSnoc(deduped, paper);
  }

  /** `deduplicate_and_rank`: the richness sort, the deduplication loop, the rank sort, the cut. */
  method DeduplicateAndRank(results: seq<PaperResult>, limit: nat) returns (deduped: seq<PaperResult>)
    ensures deduped == DedupAndRank(results, limit)
  {
    if results == [] {
      assert SortBy(results, ScoreKey) == [];
      return results;
    }
    var sorted := SortBy(results, ScoreKey);
    deduped := DeduplicateSorted(sorted);
    deduped := SortBy(deduped, RankKey);
    deduped := Truncate(deduped, limit);
  }

  // ---------------------------------------------------------------------------
  // Federated search
  // ---------------------------------------------------------------------------

  /** How a spawned provider task ended. */
  datatype TaskOutcome = Completed(result: Result<seq<PaperResult>, SourceError>) | Panicked

  /** The records a task contributes: its list if the provider succeeded, otherwise none. */
  function Delivered(o: TaskOutcome): seq<PaperResult> {
    if o.Completed? && o.result.Ok? then o.result.value else []
  }

  /** The records gathered from the tasks, in task order. */
  function Collect(outcomes: seq<TaskOutcome>): seq<PaperResult>
    decreases |outcomes|
  {
    if outcomes == [] then []
    else Collect(outcomes[..|outcomes| - 1]) + Delivered(outcomes[|outcomes| - 1])
  }

  /** A gathered record comes from a provider that succeeded, and every such record is gathered. */
  lemma {:induction false} CollectMember(outcomes: seq<TaskOutcome>, x: PaperResult)
    ensures x in Collect(outcomes) <==>
              exists i :: 0 <= i < |outcomes| && outcomes[i].Completed? && outcomes[i].result.Ok?
                          && x in outcomes[i].result.value
    decreases |outcomes|
  {
    if outcomes != [] {
      var prefix := outcomes[..|outcomes| - 1];
      CollectMember(prefix, x);
      if x in Collect(prefix) {
        var i :| 0 <= i < |prefix| && prefix[i].Completed? && prefix[i].result.Ok?
                 && x in prefix[i].result.value;
        assert outcomes[i] == prefix[i];
      }
      forall i | 0 <= i < |prefix| ensures outcomes[i] == prefix[i] { }
    }
  }

  /** A source takes part when there is no filter or some filter name matches it up to ASCII case. */
  predicate IsActive(filter: Option<seq<string>>, name: string) {
    match filter
    case None => true
    case Some(names) => exists k :: 0 <= k < |names| && EqIgnoreCase(names[k], name)
  }

  function ActiveSources(sources: seq<string>, filter: Option<seq<string>>): seq<string> {
    Filter(sources, name => IsActive(filter, name))
  }

  /** With no filter every source takes part; with one, exactly the matching sources do. */
  lemma ActiveSourcesMember(sources: seq<string>, filter: Option<seq<string>>, name: string)
    ensures name in ActiveSources(sources, filter) <==> name in sources && IsActive(filter, name)
    ensures filter.None? ==> ActiveSources(sources, filter) == sources
  {
    FilterMember(sources, name => IsActive(filter, name), name);
    if filter.None? { FilterAll(sources, filter); }
  }

  lemma {:induction false} FilterAll(sources: seq<string>, filter: Option<seq<string>>)
    requires filter.None?
    ensures Filter(sources, name => IsActive(filter, name)) == sources
    decreases |sources|
  {
    if sources != [] {
      FilterAll(sources[1..], filter);
      assert sources == [sources[0]] + sources[1..];
    }
  }

  /**
   * Records requested from each active source: twice the requested total shared out with
   * integer division, and never fewer than five.
   */
  function PerSourceQuota(maxResults: U32, active: nat): (q: U32)
    requires 0 < active
    requires 2 * maxResults < U32_LIMIT
    ensures q >= 5
    ensures q > 5 ==> q * active <= 2 * maxResults < (q + 1) * active
    ensures q * active + active > 2 * maxResults
  {
    var share := 2 * maxResults / active;
    assert share * active <= 2 * maxResults < share * active + active;
    if share < 5 then 5 else share
  }

  /** One task per active source, each asked for the same quota. */
  function Outcomes(active: seq<string>, query: string, quota: U32,
                    provider: (string, string, U32) -> TaskOutcome): (os: seq<TaskOutcome>)
    ensures |os| == |active|
  {
    seq(|active|, i requires 0 <= i < |active| => provider(active[i], query, quota))
  }

  /**
   * `federated_search`: asks every active source for its quota, gathers the records of
   * the sources that succeeded in source order, and deduplicates and ranks them.
   * `provider` stands for a source's answer to a search.
   */
  method FederatedSearch(sources: seq<string>, query: string, maxResults: U32,
                         sourceFilter: Option<seq<string>>,
                         provider: (string, string, U32) -> TaskOutcome)
    returns (papers: seq<PaperResult>)
    requires 2 * maxResults < U32_LIMIT
    ensures ActiveSources(sources, sourceFilter) == [] ==> papers == []
    ensures var active := ActiveSources(sources, sourceFilter);
            active != [] ==>
              papers == DedupAndRank(Collect(Outcomes(active, query, PerSourceQuota(maxResults, |active|), provider)),
                                     maxResults)
  {
    var active := ActiveSources(sources, sourceFilter);
    if active == [] {
      return [];
    }
    var perSource := PerSourceQuota(maxResults, |active|);
    var outcomes := Outcomes(active, query, perSource, provider);
    var allResults := [];
    var i := 0;
    while i < |outcomes|
      invariant 0 <= i <= |outcomes|
      invariant allResults == Collect(outcomes[..i])
    {
      assert outcomes[..i + 1][..i] == outcomes[..i];
      match outcomes[i] {
        case Completed(Ok(results)) =>
          allResults := allResults + results;
        case Completed(Err(_)) =>
        case Panicked =>
      }
      i := i + 1;
    }
    assert outcomes[..i] == outcomes;
    papers := DeduplicateAndRank(allResults, maxResults);
  }

  // ---------------------------------------------------------------------------
  // The scenarios of the unit tests
  // ---------------------------------------------------------------------------

  /** A record as the unit tests build it. */
  function TestPaper(id: string, title: string, doi: Option<string>, citations: Option<U32>): PaperResult {
    PaperResult(id, title, [], None, Some(2024), "test", doi, None, "", None, citations)
  }

  /** Two records with the same DOI and one with another DOI leave two records. */
  lemma DedupByDoiExample()
    ensures |DedupAndRank([TestPaper("s2:1", "Paper A", Some("10.1234/a"), Some(10)),
                           TestPaper("arxiv:1", "Paper A (arxiv)", Some("10.1234/a"), None),
                           TestPaper("s2:2", "Paper B", Some("10.1234/b"), Some(5))], 10)| == 2
  {
    var p1 := TestPaper("s2:1", "Paper A", Some("10.1234/a"), Some(10));
    var p2 := TestPaper("arxiv:1", "Paper A (arxiv)", Some("10.1234/a"), None);
    var p3 := TestPaper("s2:2", "Paper B", Some("10.1234/b"), Some(5));
    DoiExampleSorted(p1, p2, p3);
    DoiExampleKept(p1, p2, p3);
  }

  /** The three records of the DOI example. */
  predicate DoiExample(p1: PaperResult, p2: PaperResult, p3: PaperResult) {
    && p1 == TestPaper("s2:1", "Paper A", Some("10.1234/a"), Some(10))
    && p2 == TestPaper("arxiv:1", "Paper A (arxiv)", Some("10.1234/a"), None)
    && p3 == TestPaper("s2:2", "Paper B", Some("10.1234/b"), Some(5))
  }

  /** By metadata score the second record, which lacks a citation count, goes last. */
  lemma DoiExampleSorted(p1: PaperResult, p2: PaperResult, p3: PaperResult)
    requires DoiExample(p1, p2, p3)
    ensures SortBy([p1, p2, p3], ScoreKey) == [p1, p3, p2]
  {
    assert MetadataScore(p1) == 5 && MetadataScore(p2) == 4 && MetadataScore(p3) == 5;
    assert [p1, p2, p3][1..] == [p2, p3] && [p2, p3][1..] == [p3] && [p3][1..] == [];
    assert SortBy([p3], ScoreKey) == [p3];
    assert Insert(p2, [p3], ScoreKey) == [p3] + Insert(p2, [], ScoreKey) == [p3, p2];
    assert SortBy([p2, p3], ScoreKey) == [p3, p2];
    assert Insert(p1, [p3, p2], ScoreKey) == [p1, p3, p2];
  }

  /** The record repeating the first one's DOI is dropped. */
  lemma DoiExampleKept(p1: PaperResult, p2: PaperResult, p3: PaperResult)
    requires DoiExample(p1, p2, p3)
    ensures KeepIf([p1, p3, p2], Admits) == [p1, p3]
  {
    DoiExampleKeptTwo(p1, p3);
    var s := [p1, p3, p2];
    assert s[..2] == [p1, p3] && s[..3] == s;
    KeepIfStep(s, Admits, 2);
  }

  /** The first two records, with different DOIs, are both kept. */
  lemma DoiExampleKeptTwo(p1: PaperResult, p3: PaperResult)
    requires p1 == TestPaper("s2:1", "Paper A", Some("10.1234/a"), Some(10))
    requires p3 == TestPaper("s2:2", "Paper B", Some("10.1234/b"), Some(5))
    ensures KeepIf([p1, p3], Admits) == [p1, p3]
    ensures Lower("10.1234/a") in SeenDois([p1, p3])
  {
    var a, b := Lower("10.1234/a"), Lower("10.1234/b");
    assert a != b by { assert a[8] == 'a' && b[8] == 'b'; }
    DoiExampleKeptOne(p1);
    var s := [p1, p3];
    assert s[..1] == [p1] && s[..2] == s;
    KeepIfStep(s, Admits, 1);
    SeenDoisSnoc([p1], p3);
    assert [p1] + [p3] == s;
  }

  /** The first record is kept. */
  lemma DoiExampleKeptOne(p1: PaperResult)
    requires p1 == TestPaper("s2:1", "Paper A", Some("10.1234/a"), Some(10))
    ensures KeepIf([p1], Admits) == [p1]
    ensures SeenDois([p1]) == {Lower("10.1234/a")}
  {
    assert [p1][..0] == [];
  }

  /** Two records without DOIs whose titles differ only in letter case leave one record. */
  lemma DedupByTitleExample()
    ensures |DedupAndRank([TestPaper("s2:1", "Quantum Error Correction Codes", None, Some(10)),
                           TestPaper("arxiv:1", "Quantum Error Correction codes", None, None)], 10)| == 1
  {
    var t1, t2 := "Quantum Error Correction Codes", "Quantum Error Correction codes";
    var q1 := TestPaper("s2:1", t1, None, Some(10));
    var q2 := TestPaper("arxiv:1", t2, None, None);
    assert MetadataScore(q1) == 3 && MetadataScore(q2) == 2;
    assert [q1, q2][1..] == [q2] && [q2][1..] == [];
    assert SortBy([q2], ScoreKey) == [q2];
    var sorted := SortBy([q1, q2], ScoreKey);
    assert sorted == Insert(q1, [q2], ScoreKey) == [q1, q2];
    assert Lower(t1) == Lower(t2) by {
      forall i | 0 <= i < |t1| ensures Lower(t1)[i] == Lower(t2)[i] {
        assert i != 25 ==> t1[i] == t2[i];
      }
    }
    assert Close(q2, q1);
    assert KeepIf([q1], Admits) == [q1] by { assert [q1][..0] == []; }
    assert TitleClash(q2, [q1]) by { assert [q1][..0] == []; }
    assert KeepIf(sorted, Admits) == [q1] by { assert sorted[..1] == [q1]; }
  }

  /** The three records of the citation-ranking example. */
  predicate RankExample(pa: PaperResult, pb: PaperResult, pc: PaperResult) {
    && pa == TestPaper("a", "Low Cited", None, Some(1))
    && pb == TestPaper("b", "High Cited Different Title", None, Some(100))
    && pc == TestPaper("c", "Medium Cited Unique Paper", None, Some(50))
  }

  /**
   * Three records without DOIs whose titles are far apart are all kept and ranked by
   * citation count: b (100), c (50), a (1).
   */
  lemma RankByCitationsExample()
    ensures var r := DedupAndRank([TestPaper("a", "Low Cited", None, Some(1)),
                                   TestPaper("b", "High Cited Different Title", None, Some(100)),
                                   TestPaper("c", "Medium Cited Unique Paper", None, Some(50))], 10);
            |r| == 3 && r[0].id == "b" && r[1].id == "c" && r[2].id == "a"
  {
    var pa := TestPaper("a", "Low Cited", None, Some(1));
    var pb := TestPaper("b", "High Cited Different Title", None, Some(100));
    var pc := TestPaper("c", "Medium Cited Unique Paper", None, Some(50));
    RankExampleKept(pa, pb, pc);
    RankExampleRanked(pa, pb, pc);
  }

  /** All three have the same richness, so the first sort keeps their order and none is dropped. */
  lemma RankExampleKept(pa: PaperResult, pb: PaperResult, pc: PaperResult)
    requires RankExample(pa, pb, pc)
    ensures Kept([pa, pb, pc]) == [pa, pb, pc]
  {
    RankExampleScoreSorted(pa, pb, pc);
    RankExampleDedup(pa, pb, pc);
  }

  lemma RankExampleScoreSorted(pa: PaperResult, pb: PaperResult, pc: PaperResult)
    requires RankExample(pa, pb, pc)
    ensures SortBy([pa, pb, pc], ScoreKey) == [pa, pb, pc]
  {
    assert MetadataScore(pa) == 3 && MetadataScore(pb) == 3 && MetadataScore(pc) == 3;
    assert [pa, pb, pc][1..] == [pb, pc] && [pb, pc][1..] == [pc] && [pc][1..] == [];
    assert SortBy([pc], ScoreKey) == [pc];
    assert SortBy([pb, pc], ScoreKey) == Insert(pb, [pc], ScoreKey) == [pb, pc];
    assert Insert(pa, [pb, pc], ScoreKey) == [pa, pb, pc];
  }

  lemma RankExampleDedup(pa: PaperResult, pb: PaperResult, pc: PaperResult)
    requires RankExample(pa, pb, pc)
    ensures KeepIf([pa, pb, pc], Admits) == [pa, pb, pc]
  {
    RankExampleApart(pa, pb, pc);
    KeepThreeApart(pa, pb, pc);
  }

  /** Three records without DOIs whose titles are pairwise not close are all kept. */
  lemma KeepThreeApart(pa: PaperResult, pb: PaperResult, pc: PaperResult)
    requires pa.doi.None? && pb.doi.None? && pc.doi.None?
    requires !Close(pb, pa) && !Close(pc, pa) && !Close(pc, pb)
    ensures KeepIf([pa, pb, pc], Admits) == [pa, pb, pc]
  {
    var s := [pa, pb, pc];
    assert s[..1] == [pa] && s[..2] == [pa, pb] && s[..3] == s;
    assert [pa][..0] == [] && [pa, pb][..1] == [pa];
    assert KeepIf([pa], Admits) == [pa];
    assert !TitleClash(pb, [pa]);
    KeepIfStep(s, Admits, 1);
    assert KeepIf([pa, pb], Admits) == [pa, pb];
    assert !TitleClash(pc, [pa]);
    assert !TitleClash(pc, [pa, pb]);
    KeepIfStep(s, Admits, 2);
  }

  /** The ranking sort puts the most cited first. */
  lemma RankExampleRanked(pa: PaperResult, pb: PaperResult, pc: PaperResult)
    requires RankExample(pa, pb, pc)
    ensures SortBy([pa, pb, pc], RankKey) == [pb, pc, pa]
  {
    assert RankKey(pa) < RankKey(pc) < RankKey(pb);
    assert [pa, pb, pc][1..] == [pb, pc] && [pb, pc][1..] == [pc] && [pc][1..] == [];
    assert SortBy([pc], RankKey) == [pc];
    assert SortBy([pb, pc], RankKey) == Insert(pb, [pc], RankKey) == [pb, pc];
    assert Insert(pa, [pc], RankKey) == [pc] + Insert(pa, [], RankKey) == [pc, pa];
    assert Insert(pa, [pb, pc], RankKey) == [pb] + Insert(pa, [pc], RankKey);
  }

  /** No two of the example's normalised titles are within edit distance 4. */
  lemma RankExampleApart(pa: PaperResult, pb: PaperResult, pc: PaperResult)
    requires RankExample(pa, pb, pc)
    ensures !Close(pb, pa) && !Close(pc, pa) && !Close(pc, pb)
  {
    RankExampleCounts(pa, pb, pc);
    NotClose(pb, pa, RareLetter);
    NotClose(pc, pa, RareLetter);
    NotClose(pb, pc, RareLetter);
  }

  /**
   * Two records are not close when one normalised title is at least five characters longer,
   * or has at least five more characters satisfying some `P`.
   */
  lemma NotClose(p: PaperResult, q: PaperResult, P: char -> bool)
    requires var np, nq := NormalizeTitle(p.title), NormalizeTitle(q.title);
      |nq| + 5 <= |np| || Occurrences(nq, P) + 5 <= Occurrences(np, P)
    ensures !Close(p, q) && !Close(q, p)
  {
    var np, nq := NormalizeTitle(p.title), NormalizeTitle(q.title);
    LevenshteinOccurrences(np, nq, P);
    LevenshteinSymmetric(np, nq);
  }

  /** The letters of the second example title that the third lacks. */
  predicate RareLetter(c: char) {
    c == 'h' || c == 'g' || c == 'f' || c == 'l'
  }

  /** The lengths and letter counts of the example's normalised titles. */
  lemma RankExampleCounts(pa: PaperResult, pb: PaperResult, pc: PaperResult)
    requires RankExample(pa, pb, pc)
    ensures |NormalizeTitle(pa.title)| + 5 <= |NormalizeTitle(pb.title)|
    ensures |NormalizeTitle(pa.title)| + 5 <= |NormalizeTitle(pc.title)|
    ensures Occurrences(NormalizeTitle(pc.title), RareLetter) + 5 <= Occurrences(NormalizeTitle(pb.title), RareLetter)
  {
    RankExampleTitles(pa, pb, pc);
    RareLetterCounts();
  }

  /** The second normalised title has five rare letters; the third has none. */
  lemma RareLetterCounts()
    ensures Occurrences("medium cited unique paper", RareLetter) + 5
            <= Occurrences("high cited different title", RareLetter)
  {
    RareLettersHigh();
    RareLettersMedium();
  }

  lemma RareLettersHigh()
    ensures 5 <= Occurrences("high cited different title", RareLetter)
  {
    var nb := "high cited different title";
    assert RareLetter(nb[0]) && RareLetter(nb[2]) && RareLetter(nb[3]) && RareLetter(nb[13]) && RareLetter(nb[14]);
    OccurrencesAtLeast(nb, RareLetter, [0, 2, 3, 13, 14]);
  }

  lemma RareLettersMedium()
    ensures Occurrences("medium cited unique paper", RareLetter) == 0
  {
    var nc := "medium cited unique paper";
    assert forall i :: 0 <= i < |nc| ==> !RareLetter(nc[i]);
    OccurrencesNone(nc, RareLetter);
  }

  /** The example's titles normalise to their lower-cased text. */
  lemma RankExampleTitles(pa: PaperResult, pb: PaperResult, pc: PaperResult)
    requires RankExample(pa, pb, pc)
    ensures NormalizeTitle(pa.title) == "low cited"
    ensures NormalizeTitle(pb.title) == "high cited different title"
    ensures NormalizeTitle(pc.title) == "medium cited unique paper"
  {
    LowCitedTitle();
    HighCitedTitle();
    MediumCitedTitle();
  }

  lemma LowCitedTitle()
    ensures NormalizeTitle("Low Cited") == "low cited"
  {
    var ws := ["low", "cited"];
    assert Join(ws, " ") == "low cited";
    assert Lower("Low Cited") == "low cited";
    NormalizeWords("Low Cited", ws, "low cited");
  }

  lemma HighCitedTitle()
    ensures NormalizeTitle("High Cited Different Title") == "high cited different title"
  {
    HighCitedLower();
    HighCitedWords();
    NormalizeWords("High Cited Different Title", ["high", "cited", "different", "title"], "high cited different title");
  }

  lemma HighCitedLower()
    ensures Lower("High Cited Different Title") == "high cited different title"
  {
  }

  lemma HighCitedWords()
    ensures var ws := ["high", "cited", "different", "title"];
      && Join(ws, " ") == "high cited different title"
      && (forall k :: 0 <= k < |ws| ==> IsWord(ws[k]))
      && (forall k, i :: 0 <= k < |ws| && 0 <= i < |ws[k]| ==> IsAlnum(ws[k][i]))
  {
    JoinFourWords(["high", "cited", "different", "title"]);
  }

  lemma MediumCitedTitle()
    ensures NormalizeTitle("Medium Cited Unique Paper") == "medium cited unique paper"
  {
    MediumCitedLower();
    MediumCitedWords();
    NormalizeWords("Medium Cited Unique Paper", ["medium", "cited", "unique", "paper"], "medium cited unique paper");
  }

  lemma MediumCitedLower()
    ensures Lower("Medium Cited Unique Paper") == "medium cited unique paper"
  {
  }

  lemma MediumCitedWords()
    ensures var ws := ["medium", "cited", "unique", "paper"];
      && Join(ws, " ") == "medium cited unique paper"
      && (forall k :: 0 <= k < |ws| ==> IsWord(ws[k]))
      && (forall k, i :: 0 <= k < |ws| && 0 <= i < |ws[k]| ==> IsAlnum(ws[k][i]))
  {
    JoinFourWords(["medium", "cited", "unique", "paper"]);
  }

  /** Four words joined by single spaces. */
  lemma JoinFourWords(ws: seq<string>)
    requires |ws| == 4
    ensures Join(ws, " ") == ws[0] + " " + ws[1] + " " + ws[2] + " " + ws[3]
  {
    assert ws[1..][1..] == ws[2..] && ws[2..][1..] == ws[3..];
    assert Join(ws[3..], " ") == ws[3];
    assert Join(ws[2..], " ") == ws[2] + " " + ws[3];
    assert Join(ws[1..], " ") == ws[1] + " " + (ws[2] + " " + ws[3]);
  }
}
