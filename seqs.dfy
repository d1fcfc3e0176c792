/**
 * Sequence queries the route handlers rely on: first and last match, filter,
 * count, reverse and an insertion sort. They stand for the store's `findFirst`,
 * `findMany` with `where`, `orderBy` and `take`.
 */
module Seqs {
  import opened Wrappers

  /** The index of the first element satisfying `p`, if any. */
  function FirstIndex<T>(s: seq<T>, p: T -> bool): (r: Option<nat>)
    ensures r.Some? ==> r.value < |s| && p(s[r.value])
    ensures r.Some? ==> forall j :: 0 <= j < r.value ==> !p(s[j])
    ensures r.None? <==> forall j :: 0 <= j < |s| ==> !p(s[j])
  {
    if |s| == 0 then None
    else if p(s[0]) then Some(0)
    else
      match FirstIndex(s[1..], p)
      case None => None
      case Some(k) => Some(k + 1)
  }

  /** The index of the last element satisfying `p`, if any. */
  function LastIndex<T>(s: seq<T>, p: T -> bool): (r: Option<nat>)
    ensures r.Some? ==> r.value < |s| && p(s[r.value])
    ensures r.Some? ==> forall j :: r.value < j < |s| ==> !p(s[j])
    ensures r.None? <==> forall j :: 0 <= j < |s| ==> !p(s[j])
  {
    if |s| == 0 then None
    else if p(s[|s| - 1]) then Some(|s| - 1)
    else LastIndex(s[..|s| - 1], p)
  }

  /** Appending an element changes the last match only if the element matches. */
  lemma LastIndexAppend<T>(s: seq<T>, x: T, p: T -> bool)
    ensures LastIndex(s + [x], p) == if p(x) then Some(|s|) else LastIndex(s, p)
  {
    assert (s + [x])[..|s|] == s;
  }

  /** Appending an element does not move the first match of an earlier element. */
  lemma {:induction false} FirstIndexAppend<T>(s: seq<T>, x: T, p: T -> bool)
    ensures FirstIndex(s + [x], p) == if FirstIndex(s, p).Some? then FirstIndex(s, p) else if p(x) then Some(|s|) else None
  {
    if |s| > 0 {
      assert (s + [x])[0] == s[0];
      assert (s + [x])[1..] == s[1..] + [x];
      FirstIndexAppend(s[1..], x, p);
    } else {
      assert s + [x] == [x];
    }
  }

  /** Two predicates that agree on every element find the same first index. */
  lemma {:induction false} FirstIndexCongruent<T>(s: seq<T>, p: T -> bool, s': seq<T>, p': T -> bool)
    requires |s| == |s'|
    requires forall j :: 0 <= j < |s| ==> p(s[j]) == p'(s'[j])
    ensures FirstIndex(s, p) == FirstIndex(s', p')
  {
    if |s| > 0 && !p(s[0]) {
      FirstIndexCongruent(s[1..], p, s'[1..], p');
    }
  }

  /** The elements satisfying `p`, in their original order. */
  function Filter<T(!new)>(s: seq<T>, p: T -> bool): (r: seq<T>)
    ensures |r| <= |s|
    ensures forall x :: x in r <==> x in s && p(x)
  {
    if |s| == 0 then []
    else if p(s[0]) then [s[0]] + Filter(s[1..], p)
    else Filter(s[1..], p)
  }

  /** Two predicates that agree on every element select the same elements. */
  lemma {:induction false} FilterCongruent<T(!new)>(s: seq<T>, p: T -> bool, p': T -> bool)
    requires forall j :: 0 <= j < |s| ==> p(s[j]) == p'(s[j])
    ensures Filter(s, p) == Filter(s, p')
  {
    if |s| > 0 {
      FilterCongruent(s[1..], p, p');
    }
  }

  /** Filtering distributes over appending one element. */
  lemma FilterAppend<T(!new)>(s: seq<T>, x: T, p: T -> bool)
    ensures Filter(s + [x], p) == Filter(s, p) + (if p(x) then [x] else [])
  {
    if |s| > 0 {
      assert (s + [x])[1..] == s[1..] + [x];
      FilterAppend(s[1..], x, p);
    } else {
      assert s + [x] == [x];
    }
  }

  /** The number of elements satisfying `p`. */
  function Count<T(!new)>(s: seq<T>, p: T -> bool): (n: nat)
    ensures n == |Filter(s, p)|
  {
    if |s| == 0 then 0
    else (if p(s[0]) then 1 else 0) + Count(s[1..], p)
  }

  /** The sequence in the opposite order. */
  function Reverse<T>(s: seq<T>): (r: seq<T>)
    ensures |r| == |s|
    ensures forall k :: 0 <= k < |s| ==> r[k] == s[|s| - 1 - k]
  {
    if |s| == 0 then [] else [s[|s| - 1]] + Reverse(s[..|s| - 1])
  }

  /** The first `n` elements, or all of them when there are fewer. */
  function Take<T>(s: seq<T>, n: nat): (r: seq<T>)
    ensures |r| <= n && |r| <= |s|
    ensures |s| <= n ==> r == s
    ensures r == s[..|r|]
  {
    if |s| <= n then s else s[..n]
  }

  /** `pat` occurs in `s` at position `i`. */
  predicate OccursAt<T(==)>(s: seq<T>, pat: seq<T>, i: nat) {
    i + |pat| <= |s| && s[i..i + |pat|] == pat
  }

  /** The first position at or after `from` where `pat` occurs. */
  function IndexFrom<T(==)>(s: seq<T>, pat: seq<T>, from: nat): (r: Option<nat>)
    requires from <= |s|
    ensures r.Some? ==> from <= r.value && OccursAt(s, pat, r.value)
    ensures r.Some? ==> forall j :: from <= j < r.value ==> !OccursAt(s, pat, j)
    ensures r.None? ==> forall j :: from <= j <= |s| ==> !OccursAt(s, pat, j)
    decreases |s| - from
  {
    if OccursAt(s, pat, from) then Some(from)
    else if from == |s| then None
    else IndexFrom(s, pat, from + 1)
  }

  /** The first position where `pat` occurs (`indexOf`). */
  function IndexOf<T(==)>(s: seq<T>, pat: seq<T>): (r: Option<nat>)
    ensures r.Some? ==> OccursAt(s, pat, r.value) && forall j :: 0 <= j < r.value ==> !OccursAt(s, pat, j)
    ensures r.None? <==> forall j :: 0 <= j <= |s| ==> !OccursAt(s, pat, j)
  {
    IndexFrom(s, pat, 0)
  }

  /** `le` is total and transitive: a sort key order with ties allowed. */
  ghost predicate TotalPreorder<T(!new)>(le: (T, T) -> bool) {
    && (forall a, b :: le(a, b) || le(b, a))
    && (forall a, b, c :: le(a, b) && le(b, c) ==> le(a, c))
  }

  predicate SortedBy<T>(s: seq<T>, le: (T, T) -> bool) {
    forall i, j :: 0 <= i < j < |s| ==> le(s[i], s[j])
  }

  /** `x` inserted before the first element it precedes. */
  function Insert<T>(x: T, s: seq<T>, le: (T, T) -> bool): (r: seq<T>)
    ensures multiset(r) == multiset(s) + multiset{x}
  {
    if |s| == 0 then [x]
    else if le(x, s[0]) then [x] + s
    else
      assert s == [s[0]] + s[1..];
      [s[0]] + Insert(x, s[1..], le)
  }

  /** A lower bound of `x` and of every element of `s` bounds every element of the insertion. */
  lemma {:induction false} InsertBounded<T>(x: T, s: seq<T>, le: (T, T) -> bool, b: T)
    requires le(b, x) && forall k :: 0 <= k < |s| ==> le(b, s[k])
    ensures forall k :: 0 <= k < |Insert(x, s, le)| ==> le(b, Insert(x, s, le)[k])
  {
    if |s| > 0 && !le(x, s[0]) {
      InsertBounded(x, s[1..], le, b);
    }
  }

  lemma {:induction false} InsertSorted<T(!new)>(x: T, s: seq<T>, le: (T, T) -> bool)
    requires TotalPreorder(le) && SortedBy(s, le)
    ensures SortedBy(Insert(x, s, le), le)
  {
    if |s| > 0 && !le(x, s[0]) {
      var rest := Insert(x, s[1..], le);
      InsertSorted(x, s[1..], le);
      InsertBounded(x, s[1..], le, s[0]);
      var r := [s[0]] + rest;
      assert Insert(x, s, le) == r;
      forall i, j | 0 <= i < j < |r| ensures le(r[i], r[j]) {
        if i > 0 {
          assert r[i] == rest[i - 1] && r[j] == rest[j - 1];
        }
      }
    }
  }

  /** Insertion sort: a permutation of `s`. */
  function SortBy<T>(s: seq<T>, le: (T, T) -> bool): (r: seq<T>)
    ensures multiset(r) == multiset(s)
    ensures |r| == |s|
  {
    if |s| == 0 then []
    else
      assert s == [s[0]] + s[1..];
      Insert(s[0], SortBy(s[1..], le), le)
  }

  /** Under a total preorder, the sorted sequence is ordered. */
  lemma {:induction false} SortBySorted<T(!new)>(s: seq<T>, le: (T, T) -> bool)
    requires TotalPreorder(le)
    ensures SortedBy(SortBy(s, le), le)
  {
    if |s| > 0 {
      SortBySorted(s[1..], le);
      InsertSorted(s[0], SortBy(s[1..], le), le);
    }
  }
}
