/** Generic list operations the source gets from Python built-ins and from
    SQL: filtering (`WHERE`, list comprehensions with `if`), `LIMIT n`,
    slicing `xs[:n]`, and the stable sort behind `sorted`, `list.sort` and
    `ORDER BY`. */
module Sequences {

  /** The elements of `s` that satisfy `p`, in their order in `s`. */
  function Filter<T>(s: seq<T>, p: T -> bool): (r: seq<T>)
    ensures |r| <= |s|
    ensures forall i :: 0 <= i < |r| ==> r[i] in s && p(r[i])
    ensures forall i :: 0 <= i < |s| && p(s[i]) ==> s[i] in r
  {
    if s == [] then [] else (if p(s[0]) then [s[0]] else []) + Filter(s[1..], p)
  }

  /** SQLite's `LIMIT n`: the first `n` rows; a negative `n` means no
      limit. */
  function Limit<T>(s: seq<T>, n: int): (r: seq<T>)
    ensures n >= 0 ==> |r| == if n < |s| then n else |s|
    ensures n < 0 ==> r == s
    ensures r <= s
  {
    if n < 0 || |s| <= n then s else s[..n]
  }

  /** A prefix of `s` exactly `n` long is what `Limit(s, n)` keeps. */
  lemma LimitAtCap<T>(t: seq<T>, s: seq<T>, n: int)
    requires t <= s && |t| == n
    ensures Limit(s, n) == t
  {
  }

  /** Python's slice `s[:n]`: a negative `n` counts from the end. */
  function SliceTo<T>(s: seq<T>, n: int): (r: seq<T>)
    ensures r <= s
    ensures 0 <= n ==> |r| == if n < |s| then n else |s|
    ensures n < 0 ==> |r| == if |s| + n < 0 then 0 else |s| + n
  {
    if 0 <= n then (if n < |s| then s[..n] else s)
    else if |s| + n < 0 then [] else s[..|s| + n]
  }

  /** `le` orders any two values one way or the other. */
  ghost predicate Total<T(!new)>(le: (T, T) -> bool) {
    forall a, b :: le(a, b) || le(b, a)
  }

  ghost predicate Transitive<T(!new)>(le: (T, T) -> bool) {
    forall a, b, c :: le(a, b) && le(b, c) ==> le(a, c)
  }

  /** Each element is ordered no later than the next one. */
  predicate Sorted<T>(s: seq<T>, le: (T, T) -> bool) {
    forall i :: 0 < i < |s| ==> le(s[i - 1], s[i])
  }

  /** Puts `x` in front of the first element it is ordered before or level
      with, so it stays ahead of the elements that compare equal to it. */
  function Insert<T(!new)>(x: T, s: seq<T>, le: (T, T) -> bool): (r: seq<T>)
    requires Total(le) && Sorted(s, le)
    ensures Sorted(r, le)
    ensures multiset(r) == multiset(s) + multiset{x}
    ensures |r| == |s| + 1
  {
    if s == [] || le(x, s[0]) then [x] + s
    else
      var t := Insert(x, s[1..], le);
      assert s == [s[0]] + s[1..];
      [s[0]] + t
  }

  /** A stable sort (insertion sort): the result is ordered by `le` and is a
      permutation of `s`; elements that `le` cannot tell apart keep their
      relative order, as Python's `sorted` keeps them. */
  function SortBy<T(!new)>(s: seq<T>, le: (T, T) -> bool): (r: seq<T>)
    requires Total(le)
    ensures Sorted(r, le)
    ensures multiset(r) == multiset(s)
    ensures |r| == |s|
  {
    if s == [] then []
    else
      assert s == [s[0]] + s[1..];
      Insert(s[0], SortBy(s[1..], le), le)
  }

  /** With a transitive order, the neighbour-by-neighbour ordering of
      `Sorted` extends to every pair. */
  lemma {:induction false} SortedPairwise<T(!new)>(s: seq<T>, le: (T, T) -> bool, i: int, j: int)
    requires Transitive(le) && Sorted(s, le)
    requires 0 <= i < j < |s|
    ensures le(s[i], s[j])
  {
    if i + 1 < j {
      SortedPairwise(s, le, i, j - 1);
    }
  }

  /** Filtering a sorted sequence leaves it sorted. */
  lemma {:induction false} FilterSorted<T(!new)>(s: seq<T>, p: T -> bool, le: (T, T) -> bool)
    requires Transitive(le) && Sorted(s, le)
    ensures Sorted(Filter(s, p), le)
    decreases |s|
  {
    if s != [] {
      var rest := Filter(s[1..], p);
      FilterSorted(s[1..], p, le);
      if p(s[0]) && rest != [] {
        assert rest[0] in s[1..];
        var j :| 0 <= j < |s[1..]| && s[1..][j] == rest[0];
        SortedPairwise(s, le, 0, j + 1);
      }
    }
  }

  /** A value held at two positions is counted at least twice. */
  lemma CountAtLeastTwo<T>(s: seq<T>, i: nat, j: nat)
    requires i < j < |s| && s[i] == s[j]
    ensures multiset(s)[s[i]] >= 2
  {
    assert s == s[..j] + [s[j]] + s[j + 1..];
    assert s[i] in s[..j];
  }

  /** Sequences holding the same multiset hold the same elements. */
  lemma SameMembers<T>(a: seq<T>, b: seq<T>)
    requires multiset(a) == multiset(b)
    ensures forall x :: x in a <==> x in b
  {
    forall x
      ensures x in a <==> x in b
    {
      assert x in a <==> x in multiset(a);
      assert x in b <==> x in multiset(b);
    }
  }

  /** No two elements share a key. */
  predicate KeysDistinct<T>(s: seq<T>, key: T -> int) {
    forall i, j :: 0 <= i < j < |s| ==> key(s[i]) != key(s[j])
  }

  /** With distinct keys, no element is held twice. */
  lemma {:induction false} DistinctKeysCountOne<T>(a: seq<T>, key: T -> int, x: T)
    requires KeysDistinct(a, key)
    ensures multiset(a)[x] <= 1
    decreases |a|
  {
    if a != [] {
      var init := a[..|a| - 1];
      assert a == init + [a[|a| - 1]];
      DistinctKeysCountOne(init, key, x);
    }
  }

  /** Reordering keeps the keys distinct. */
  lemma PermutationKeepsKeysDistinct<T>(a: seq<T>, b: seq<T>, key: T -> int)
    requires multiset(a) == multiset(b) && KeysDistinct(a, key)
    ensures KeysDistinct(b, key)
  {
    forall i, j | 0 <= i < j < |b|
      ensures key(b[i]) != key(b[j])
    {
      assert b[i] in multiset(a) && b[j] in multiset(a);
      var p :| 0 <= p < |a| && a[p] == b[i];
      var q :| 0 <= q < |a| && a[q] == b[j];
      if b[i] == b[j] {
        CountAtLeastTwo(b, i, j);
        DistinctKeysCountOne(a, key, b[i]);
      }
    }
  }
}
