/**
 * Stable sorting by a key, largest key first. Rust's `sort_by` is a stable sort, and every
 * stable sort produces the same sequence for the same comparator, so the insertion sort
 * below gives exactly the order the library sort gives.
 */
module Sequences {

  ghost predicate SortedDesc<T>(s: seq<T>, key: T -> real) {
    forall i, j :: 0 <= i < j < |s| ==> key(s[i]) >= key(s[j])
  }

  function Filter<T>(s: seq<T>, p: T -> bool): (r: seq<T>)
    ensures |r| <= |s|
    decreases |s|
  {
    if s == [] then [] else (if p(s[0]) then [s[0]] else []) + Filter(s[1..], p)
  }

  /** Places `x` in front of the first element whose key is not larger than its own. */
  function Insert<T>(x: T, s: seq<T>, key: T -> real): (r: seq<T>)
    ensures |r| == |s| + 1
    decreases |s|
  {
    if s == [] || key(x) >= key(s[0]) then [x] + s
    else
      assert s == [s[0]] + s[1..];
      [s[0]] + Insert(x, s[1..], key)
  }

  /** The stable sort of `s`, largest key first. */
  function SortBy<T>(s: seq<T>, key: T -> real): (r: seq<T>)
    ensures |r| == |s|
    decreases |s|
  {
    if s == [] then []
    else
      assert s == [s[0]] + s[1..];
      Insert(s[0], SortBy(s[1..], key), key)
  }

  lemma {:induction false} InsertPermutes<T>(x: T, s: seq<T>, key: T -> real)
    ensures multiset(Insert(x, s, key)) == multiset(s) + multiset{x}
    decreases |s|
  {
    if !(s == [] || key(x) >= key(s[0])) {
      InsertPermutes(x, s[1..], key);
      assert s == [s[0]] + s[1..];
    }
  }

  /** The sort reorders its input and neither adds nor drops an element. */
  lemma {:induction false} SortByPermutes<T>(s: seq<T>, key: T -> real)
    ensures multiset(SortBy(s, key)) == multiset(s)
    decreases |s|
  {
    if s != [] {
      SortByPermutes(s[1..], key);
      InsertPermutes(s[0], SortBy(s[1..], key), key);
      assert s == [s[0]] + s[1..];
    }
  }

  lemma SortedCons<T>(x: T, t: seq<T>, key: T -> real)
    requires SortedDesc(t, key)
    requires forall k :: 0 <= k < |t| ==> key(t[k]) <= key(x)
    ensures SortedDesc([x] + t, key)
  {
    var u := [x] + t;
    forall i, j | 0 <= i < j < |u| ensures key(u[i]) >= key(u[j]) {
      assert u[j] == t[j - 1];
      if i > 0 { assert u[i] == t[i - 1]; }
    }
  }

  lemma {:induction false} InsertSorted<T>(x: T, s: seq<T>, key: T -> real)
    requires SortedDesc(s, key)
    ensures SortedDesc(Insert(x, s, key), key)
    decreases |s|
  {
    if s == [] || key(x) >= key(s[0]) {
      SortedCons(x, s, key);
    } else {
      var t := Insert(x, s[1..], key);
      InsertSorted(x, s[1..], key);
      InsertPermutes(x, s[1..], key);
      forall k | 0 <= k < |t| ensures key(t[k]) <= key(s[0]) {
        assert t[k] in multiset(t);
        assert t[k] == x || t[k] in multiset(s[1..]);
      }
      SortedCons(s[0], t, key);
    }
  }

  /** The sort puts larger keys first. */
  lemma {:induction false} SortBySorted<T>(s: seq<T>, key: T -> real)
    ensures SortedDesc(SortBy(s, key), key)
    decreases |s|
  {
    if s != [] {
      SortBySorted(s[1..], key);
      InsertSorted(s[0], SortBy(s[1..], key), key);
    }
  }

  lemma FilterCons<T>(a: T, t: seq<T>, p: T -> bool)
    ensures Filter([a] + t, p) == (if p(a) then [a] else []) + Filter(t, p)
  {
    assert ([a] + t)[0] == a && ([a] + t)[1..] == t;
  }

  lemma {:induction false} FilterInsert<T>(x: T, s: seq<T>, key: T -> real, p: T -> bool, v: real)
    requires forall y :: p(y) ==> key(y) == v
    ensures Filter(Insert(x, s, key), p) == (if p(x) then [x] else []) + Filter(s, p)
    decreases |s|
  {
    if s == [] || key(x) >= key(s[0]) {
      assert Insert(x, s, key) == [x] + s;
      FilterCons(x, s, p);
    } else {
      var t := Insert(x, s[1..], key);
      assert Insert(x, s, key) == [s[0]] + t;
      FilterInsert(x, s[1..], key, p, v);
      FilterCons(s[0], t, p);
      assert s == [s[0]] + s[1..];
      FilterCons(s[0], s[1..], p);
      if p(x) {
        assert !p(s[0]);
        assert Filter(s, p) == Filter(s[1..], p);
        assert Filter(Insert(x, s, key), p) == Filter(t, p);
      } else {
        assert Filter(t, p) == Filter(s[1..], p);
      }
    }
  }

  /**
   * Stability: among elements that share one key value, the sort keeps their input order.
   * (`p` picks out any set of elements whose keys are all `v`.)
   */
  lemma {:induction false} SortByStable<T>(s: seq<T>, key: T -> real, p: T -> bool, v: real)
    requires forall y :: p(y) ==> key(y) == v
    ensures Filter(SortBy(s, key), p) == Filter(s, p)
    decreases |s|
  {
    if s != [] {
      SortByStable(s[1..], key, p, v);
      FilterInsert(s[0], SortBy(s[1..], key), key, p, v);
    }
  }

  /** `Vec::truncate(limit)` */
  function Truncate<T>(s: seq<T>, limit: nat): (r: seq<T>)
    ensures |r| == if |s| < limit then |s| else limit
    ensures r == s[..|r|]
  {
    if |s| <= limit then s else s[..limit]
  }

  /** `R` holds between the elements at every two distinct positions of `s`. */
  ghost predicate Pairwise<T>(s: seq<T>, R: (T, T) -> bool) {
    forall i, j :: 0 <= i < |s| && 0 <= j < |s| && i != j ==> R(s[i], s[j])
  }

  lemma {:induction false} PairwiseCons<T>(x: T, s: seq<T>, R: (T, T) -> bool)
    requires Pairwise(s, R)
    requires forall y :: y in s ==> R(x, y) && R(y, x)
    ensures Pairwise([x] + s, R)
  {
    var t := [x] + s;
    forall i, j | 0 <= i < |t| && 0 <= j < |t| && i != j ensures R(t[i], t[j]) {
      if i == 0 {
        assert t[j] == s[j - 1];
      } else if j == 0 {
        assert t[i] == s[i - 1];
      } else {
        assert t[i] == s[i - 1] && t[j] == s[j - 1];
      }
    }
  }

  lemma {:induction false} InsertPairwise<T>(x: T, s: seq<T>, key: T -> real, R: (T, T) -> bool)
    requires Pairwise(s, R)
    requires forall y :: y in s ==> R(x, y) && R(y, x)
    ensures Pairwise(Insert(x, s, key), R)
    decreases |s|
  {
    if s == [] || key(x) >= key(s[0]) {
      PairwiseCons(x, s, R);
    } else {
      var t := Insert(x, s[1..], key);
      assert Pairwise(s[1..], R) by {
        forall i, j | 0 <= i < |s[1..]| && 0 <= j < |s[1..]| && i != j ensures R(s[1..][i], s[1..][j]) {
          assert s[1..][i] == s[i + 1] && s[1..][j] == s[j + 1];
        }
      }
      InsertPairwise(x, s[1..], key, R);
      InsertPermutes(x, s[1..], key);
      forall y | y in t ensures R(s[0], y) && R(y, s[0]) {
        assert y in multiset(t);
        if y != x {
          assert y in multiset(s[1..]);
          var k :| 0 <= k < |s[1..]| && s[1..][k] == y;
          assert s[k + 1] == y;
        }
      }
      PairwiseCons(s[0], t, R);
    }
  }

  /** A relation that holds pairwise before sorting still holds pairwise after it. */
  lemma {:induction false} SortByPairwise<T>(s: seq<T>, key: T -> real, R: (T, T) -> bool)
    requires Pairwise(s, R)
    ensures Pairwise(SortBy(s, key), R)
    decreases |s|
  {
    if s != [] {
      assert Pairwise(s[1..], R) by {
        forall i, j | 0 <= i < |s[1..]| && 0 <= j < |s[1..]| && i != j ensures R(s[1..][i], s[1..][j]) {
          assert s[1..][i] == s[i + 1] && s[1..][j] == s[j + 1];
        }
      }
      SortByPairwise(s[1..], key, R);
      SortByPermutes(s[1..], key);
      forall y | y in SortBy(s[1..], key) ensures R(s[0], y) && R(y, s[0]) {
        assert y in multiset(SortBy(s[1..], key));
        var k :| 0 <= k < |s[1..]| && s[1..][k] == y;
        assert s[k + 1] == y;
      }
      InsertPairwise(s[0], SortBy(s[1..], key), key, R);
    }
  }

  /** The first element of `Filter(s, p)` is the first element of `s` that satisfies `p`. */
  lemma {:induction false} FilterHead<T>(s: seq<T>, p: T -> bool, m: nat)
    requires m < |s| && p(s[m])
    ensures |Filter(s, p)| > 0
    ensures exists k :: 0 <= k <= m && Filter(s, p)[0] == s[k] && p(s[k])
                        && forall k' :: 0 <= k' < k ==> !p(s[k'])
    decreases |s|
  {
    if !p(s[0]) {
      FilterHead(s[1..], p, m - 1);
      var k :| 0 <= k <= m - 1 && Filter(s[1..], p)[0] == s[1..][k] && p(s[1..][k])
               && forall k' :: 0 <= k' < k ==> !p(s[1..][k']);
      assert Filter(s, p)[0] == s[k + 1];
      forall k' | 0 <= k' < k + 1 ensures !p(s[k']) {
        if k' > 0 { assert s[k'] == s[1..][k' - 1]; }
      }
    }
  }

  lemma {:induction false} FilterAppend<T>(s: seq<T>, t: seq<T>, p: T -> bool)
    ensures Filter(s + t, p) == Filter(s, p) + Filter(t, p)
    decreases |s|
  {
    if s != [] {
      FilterAppend(s[1..], t, p);
      assert s + t == [s[0]] + (s[1..] + t);
      FilterCons(s[0], s[1..] + t, p);
    } else {
      assert s + t == t;
    }
  }

  /** Filtering by a stronger predicate after a weaker one is filtering by the stronger alone. */
  lemma {:induction false} FilterTwice<T>(s: seq<T>, p: T -> bool, q: T -> bool)
    requires forall x :: q(x) ==> p(x)
    ensures Filter(Filter(s, p), q) == Filter(s, q)
    decreases |s|
  {
    if s != [] {
      FilterTwice(s[1..], p, q);
      if p(s[0]) {
        assert Filter(s, p) == [s[0]] + Filter(s[1..], p);
        FilterCons(s[0], Filter(s[1..], p), q);
      } else {
        assert !q(s[0]);
        assert Filter(s, p) == Filter(s[1..], p);
        assert Filter(s, q) == Filter(s[1..], q);
      }
    }
  }

  /** Nothing survives two filters that exclude each other. */
  lemma {:induction false} FilterDisjoint<T>(s: seq<T>, p: T -> bool, q: T -> bool)
    requires forall x :: q(x) ==> !p(x)
    ensures Filter(Filter(s, p), q) == []
    decreases |s|
  {
    if s != [] {
      FilterDisjoint(s[1..], p, q);
      if p(s[0]) {
        assert Filter(s, p) == [s[0]] + Filter(s[1..], p);
        FilterCons(s[0], Filter(s[1..], p), q);
      } else {
        assert Filter(s, p) == Filter(s[1..], p);
      }
    }
  }

  /** A predicate and its negation split a sequence in two. */
  lemma {:induction false} FilterPartition<T>(s: seq<T>, p: T -> bool, q: T -> bool)
    requires forall x :: q(x) == !p(x)
    ensures |Filter(s, p)| + |Filter(s, q)| == |s|
    decreases |s|
  {
    if s != [] {
      FilterPartition(s[1..], p, q);
    }
  }

  /** Filters by pointwise-equal predicates agree. */
  lemma {:induction false} FilterSame<T>(s: seq<T>, p: T -> bool, q: T -> bool)
    requires forall x :: p(x) == q(x)
    ensures Filter(s, p) == Filter(s, q)
    decreases |s|
  {
    if s != [] {
      FilterSame(s[1..], p, q);
    }
  }

  /** Membership in a filtered sequence. */
  lemma {:induction false} FilterMember<T>(s: seq<T>, p: T -> bool, x: T)
    ensures x in Filter(s, p) <==> x in s && p(x)
    decreases |s|
  {
    if s != [] {
      FilterMember(s[1..], p, x);
      assert s == [s[0]] + s[1..];
    }
  }

  /** Where an input element ends up after sorting. */
  lemma SortByIndexOf<T>(s: seq<T>, key: T -> real, x: T) returns (i: nat)
    requires x in s
    ensures i < |SortBy(s, key)| && SortBy(s, key)[i] == x
  {
    SortByPermutes(s, key);
    assert x in multiset(SortBy(s, key));
    i :| 0 <= i < |SortBy(s, key)| && SortBy(s, key)[i] == x;
  }

  /** In the sorted sequence an earlier element's key is at least a later one's. */
  lemma SortByOrdered<T>(s: seq<T>, key: T -> real, j: nat, i: nat)
    requires j <= i < |SortBy(s, key)|
    ensures key(SortBy(s, key)[j]) >= key(SortBy(s, key)[i])
  {
    SortBySorted(s, key);
  }

  /**
   * Sorting then truncating keeps at most `limit` elements, all taken from the input,
   * ordered by key, and keeps any relation that held pairwise.
   */
  lemma SortTruncate<T>(s: seq<T>, key: T -> real, limit: nat, R: (T, T) -> bool)
    requires Pairwise(s, R)
    ensures |Truncate(SortBy(s, key), limit)| <= limit
    ensures multiset(Truncate(SortBy(s, key), limit)) <= multiset(s)
    ensures Pairwise(Truncate(SortBy(s, key), limit), R)
    ensures SortedDesc(Truncate(SortBy(s, key), limit), key)
  {
    var ranked := SortBy(s, key);
    var out := Truncate(ranked, limit);
    SortByPairwise(s, key, R);
    SortBySorted(s, key);
    SortByPermutes(s, key);
    assert ranked == out + ranked[|out|..];
    assert multiset(out) <= multiset(ranked);
    forall i, j | 0 <= i < |out| && 0 <= j < |out| && i != j ensures R(out[i], out[j]) {
      assert out[i] == ranked[i] && out[j] == ranked[j];
    }
  }

  /** An element the truncated ranking leaves out ranks no higher than any element it keeps. */
  lemma SortTruncateTop<T>(s: seq<T>, key: T -> real, limit: nat, x: T)
    requires x in s && x !in Truncate(SortBy(s, key), limit)
    ensures forall k :: 0 <= k < |Truncate(SortBy(s, key), limit)| ==>
              key(Truncate(SortBy(s, key), limit)[k]) >= key(x)
  {
    var ranked := SortBy(s, key);
    var out := Truncate(ranked, limit);
    SortByPermutes(s, key);
    SortBySorted(s, key);
    assert x in multiset(ranked);
    var i :| 0 <= i < |ranked| && ranked[i] == x;
    assert i >= |out|;
    forall k | 0 <= k < |out| ensures key(out[k]) >= key(x) {
      assert out[k] == ranked[k];
    }
  }

  lemma PairwiseSnoc<T>(s: seq<T>, x: T, R: (T, T) -> bool)
    requires Pairwise(s, R)
    requires forall k :: 0 <= k < |s| ==> R(x, s[k]) && R(s[k], x)
    ensures Pairwise(s + [x], R)
  {
    var t := s + [x];
    forall i, j | 0 <= i < |t| && 0 <= j < |t| && i != j ensures R(t[i], t[j]) {
      if i < |s| { assert t[i] == s[i]; }
      if j < |s| { assert t[j] == s[j]; }
    }
  }

  /**
   * One pass from left to right that keeps an element when `admits` accepts it, given
   * the elements kept before it.
   */
  function KeepIf<T>(s: seq<T>, admits: (seq<T>, T) -> bool): (r: seq<T>)
    ensures |r| <= |s|
    decreases |s|
  {
    if s == [] then []
    else
      var kept := KeepIf(s[..|s| - 1], admits);
      if admits(kept, s[|s| - 1]) then kept + [s[|s| - 1]] else kept
  }

  lemma KeepIfStep<T>(s: seq<T>, admits: (seq<T>, T) -> bool, i: nat)
    requires i < |s|
    ensures KeepIf(s[..i + 1], admits) ==
              if admits(KeepIf(s[..i], admits), s[i]) then KeepIf(s[..i], admits) + [s[i]]
              else KeepIf(s[..i], admits)
  {
    assert s[..i + 1][..i] == s[..i];
  }

  /** The pass only drops elements. */
  lemma {:induction false} KeepIfSubmultiset<T>(s: seq<T>, admits: (seq<T>, T) -> bool)
    ensures multiset(KeepIf(s, admits)) <= multiset(s)
    decreases |s|
  {
    if s != [] {
      KeepIfSubmultiset(s[..|s| - 1], admits);
      assert s == s[..|s| - 1] + [s[|s| - 1]];
    }
  }

  /** What is kept from a prefix is a prefix of what is kept from the whole. */
  lemma {:induction false} KeepIfPrefix<T>(s: seq<T>, admits: (seq<T>, T) -> bool, i: nat)
    requires i <= |s|
    ensures var short := KeepIf(s[..i], admits);
            |short| <= |KeepIf(s, admits)| && KeepIf(s, admits)[..|short|] == short
    decreases |s| - i
  {
    if i < |s| {
      KeepIfPrefix(s, admits, i + 1);
      KeepIfStep(s, admits, i);
    } else {
      assert s[..i] == s;
    }
  }

  /**
   * When everything `admits` accepts stands in relation `R`, both ways round, to each
   * element kept before it, the kept elements are pairwise related.
   */
  lemma {:induction false} KeepIfPairwise<T>(s: seq<T>, admits: (seq<T>, T) -> bool, R: (T, T) -> bool)
    requires forall kept, x, m :: admits(kept, x) && 0 <= m < |kept| ==> R(x, kept[m]) && R(kept[m], x)
    ensures Pairwise(KeepIf(s, admits), R)
    decreases |s|
  {
    if s != [] {
      var kept := KeepIf(s[..|s| - 1], admits);
      KeepIfPairwise(s[..|s| - 1], admits, R);
      if admits(kept, s[|s| - 1]) {
        PairwiseSnoc(kept, s[|s| - 1], R);
      }
    }
  }
}
