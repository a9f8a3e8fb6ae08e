/** Option and Result wrappers, and the two array searches the platform relies on:
    `find`/`findIndex` (first match) and `filter` (all matches, in order). */
module Common {

  datatype Option<+T> = None | Some(value: T)

  /** Outcome of an operation that may throw; `Failure` carries the thrown error. */
  datatype Result<+T, +E> = Success(value: T) | Failure(error: E)

  /** Index of the first element satisfying `p`, as `Array.prototype.findIndex`. */
  function FirstIndex<T>(s: seq<T>, p: T -> bool): (r: Option<nat>)
    ensures r.Some? ==> r.value < |s| && p(s[r.value])
    ensures r.Some? ==> forall j :: 0 <= j < r.value ==> !p(s[j])
    ensures r.None? <==> forall j :: 0 <= j < |s| ==> !p(s[j])
  {
    if s == [] then None
    else if p(s[0]) then Some(0)
    else
      match FirstIndex(s[1..], p)
      case None => None
      case Some(i) => Some(i + 1)
  }

  /** `x` is the first element of `s` that satisfies `p`. */
  ghost predicate FirstMatch<T>(s: seq<T>, p: T -> bool, x: T)
  {
    exists i :: 0 <= i < |s| && x == s[i] && p(s[i]) && forall j :: 0 <= j < i ==> !p(s[j])
  }

  /** The first element satisfying `p`, as `Array.prototype.find`. */
  function Find<T>(s: seq<T>, p: T -> bool): (r: Option<T>)
    ensures r.Some? <==> exists j :: 0 <= j < |s| && p(s[j])
    ensures r.Some? ==> r.value in s && p(r.value)
    ensures r.Some? ==> FirstMatch(s, p, r.value)
  {
    match FirstIndex(s, p)
    case None => None
    case Some(i) => Some(s[i])
  }

  /** `r` holds elements of `s` that satisfy `p`, and every such element of `s` is in `r`. */
  ghost predicate Selects<T>(r: seq<T>, s: seq<T>, p: T -> bool)
  {
    && (forall i :: 0 <= i < |r| ==> r[i] in s && p(r[i]))
    && (forall i :: 0 <= i < |s| && p(s[i]) ==> s[i] in r)
  }

  /** The elements satisfying `p`, in their original order, as `Array.prototype.filter`. */
  function Filter<T>(s: seq<T>, p: T -> bool): (r: seq<T>)
    ensures |r| <= |s|
    ensures Selects(r, s, p)
  {
    if s == [] then []
    else (if p(s[0]) then [s[0]] else []) + Filter(s[1..], p)
  }

  /** Filtering distributes over appending one element at the end: a listing computed after a
      `push` is the old listing, plus the new element when it passes. */
  lemma {:induction false} FilterAppend<T>(s: seq<T>, x: T, p: T -> bool)
    ensures Filter(s + [x], p) == Filter(s, p) + (if p(x) then [x] else [])
  {
    if s == [] {
      assert s + [x] == [x];
    } else {
      assert (s + [x])[1..] == s[1..] + [x];
      FilterAppend(s[1..], x, p);
    }
  }

  /** Filtering keeps every occurrence of an element that passes and none of one that fails. */
  lemma {:induction false} FilterCounts<T>(s: seq<T>, p: T -> bool)
    ensures forall x :: multiset(Filter(s, p))[x] == if p(x) then multiset(s)[x] else 0
  {
    if s != [] {
      FilterCounts(s[1..], p);
      assert s == [s[0]] + s[1..];
    }
  }
}
