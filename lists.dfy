/**
 * The iterator adapters the provider record mappers are built from: `first`, `position`,
 * `find` and `filter_map`, on sequences.
 */
module Lists {
  import opened Wrappers

  /** `slice::first` */
  function First<T>(s: seq<T>): Option<T> {
    if s == [] then None else Some(s[0])
  }

  /** `Iterator::position`: the index of the first element `p` accepts. */
  function FindIndex<T>(s: seq<T>, p: T -> bool): (r: Option<nat>)
    ensures r.Some? ==> r.value < |s| && p(s[r.value])
    ensures r.Some? ==> forall j :: 0 <= j < r.value ==> !p(s[j])
    ensures r.None? <==> forall j :: 0 <= j < |s| ==> !p(s[j])
    decreases |s|
  {
    if s == [] then None
    else if p(s[0]) then Some(0)
    else
      match FindIndex(s[1..], p)
      case None =>
        assert forall j :: 1 <= j < |s| ==> s[j] == s[1..][j - 1];
        None
      case Some(i) =>
        assert forall j :: 1 <= j < i + 1 ==> s[j] == s[1..][j - 1];
        Some(i + 1)
  }

  /** `Iterator::find`: the first element `p` accepts. */
  function Find<T>(s: seq<T>, p: T -> bool): (r: Option<T>)
    ensures r.None? <==> forall j :: 0 <= j < |s| ==> !p(s[j])
    ensures r.Some? ==> p(r.value) && FindIndex(s, p).Some? && r.value == s[FindIndex(s, p).value]
  {
    match FindIndex(s, p)
    case None => None
    case Some(i) => Some(s[i])
  }

  /** The search runs through `a` before it looks at `b`. */
  lemma {:induction false} FindIndexAppend<T>(a: seq<T>, b: seq<T>, p: T -> bool)
    ensures FindIndex(a + b, p) ==
              match FindIndex(a, p)
              case Some(i) => Some(i)
              case None => match FindIndex(b, p) case Some(j) => Some(|a| + j) case None => None
    decreases |a|
  {
    if a == [] {
      assert a + b == b;
    } else if !p(a[0]) {
      assert (a + b)[0] == a[0] && (a + b)[1..] == a[1..] + b;
      FindIndexAppend(a[1..], b, p);
    }
  }

  /** So the first match in `a + b` is the first in `a`, or else the first in `b`. */
  lemma FindAppend<T>(a: seq<T>, b: seq<T>, p: T -> bool)
    ensures Find(a + b, p) == if Find(a, p).Some? then Find(a, p) else Find(b, p)
  {
    FindIndexAppend(a, b, p);
    match FindIndex(a, p)
    case Some(i) =>
      assert (a + b)[i] == a[i];
    case None =>
      match FindIndex(b, p)
      case Some(j) =>
        assert (a + b)[|a| + j] == b[j];
      case None =>
  }

  /** A prefix one longer is the prefix with the next element appended. */
  lemma TakeSnoc<T>(s: seq<T>, i: nat)
    requires i < |s|
    ensures s[..i + 1] == s[..i] + [s[i]]
  {
  }

  /** `Iterator::filter_map`: the values `f` yields, in order, skipping `None`. */
  function FilterMap<T, U>(s: seq<T>, f: T -> Option<U>): (r: seq<U>)
    ensures |r| <= |s|
    decreases |s|
  {
    if s == [] then []
    else (match f(s[0]) case Some(y) => [y] case None => []) + FilterMap(s[1..], f)
  }

  /** Every value comes from some element, and every element with a value contributes it. */
  lemma {:induction false} FilterMapMember<T, U>(s: seq<T>, f: T -> Option<U>, y: U)
    ensures y in FilterMap(s, f) <==> exists i :: 0 <= i < |s| && f(s[i]) == Some(y)
    decreases |s|
  {
    if s != [] {
      FilterMapMember(s[1..], f, y);
      if exists i :: 0 <= i < |s| && f(s[i]) == Some(y) {
        var i :| 0 <= i < |s| && f(s[i]) == Some(y);
        if i > 0 {
          assert s[1..][i - 1] == s[i];
        }
      }
      if exists i :: 0 <= i < |s[1..]| && f(s[1..][i]) == Some(y) {
        var i :| 0 <= i < |s[1..]| && f(s[1..][i]) == Some(y);
        assert s[i + 1] == s[1..][i];
      }
    }
  }

  /** The result for a concatenation is the concatenation of the results. */
  lemma {:induction false} FilterMapAppend<T, U>(a: seq<T>, b: seq<T>, f: T -> Option<U>)
    ensures FilterMap(a + b, f) == FilterMap(a, f) + FilterMap(b, f)
    decreases |a|
  {
    if a == [] {
      assert a + b == b;
    } else {
      assert (a + b)[0] == a[0] && (a + b)[1..] == a[1..] + b;
      FilterMapAppend(a[1..], b, f);
    }
  }

  /** When `f` yields a value for every element, nothing is skipped and the order is kept. */
  lemma {:induction false} FilterMapTotal<T, U>(s: seq<T>, f: T -> Option<U>)
    requires forall i :: 0 <= i < |s| ==> f(s[i]).Some?
    ensures |FilterMap(s, f)| == |s|
    ensures forall i :: 0 <= i < |s| ==> FilterMap(s, f)[i] == f(s[i]).value
    decreases |s|
  {
    if s != [] {
      assert forall i :: 0 <= i < |s[1..]| ==> s[1..][i] == s[i + 1];
      FilterMapTotal(s[1..], f);
    }
  }
}
