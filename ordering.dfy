/**
 * The SQL building blocks the routers use over a table held as a sequence of rows:
 * WHERE (Filter) and ORDER BY key LIMIT k (FirstK).
 */
module Ordering {

  function Min(a: int, b: int): int {
    if a <= b then a else b
  }

  /** Rows are in non-decreasing order of key. */
  ghost predicate SortedBy<T>(s: seq<T>, key: T -> int) {
    forall i, j | 0 <= i < j < |s| :: key(s[i]) <= key(s[j])
  }

  /**
   * The outcome of `ORDER BY key LIMIT k` over the rows `all`: the min(k, |all|) rows with the
   * smallest keys, in order. Rows with equal keys may come in any order.
   */
  ghost predicate IsFirstK<T>(r: seq<T>, all: seq<T>, key: T -> int, k: nat) {
    && |r| == Min(k, |all|)
    && SortedBy(r, key)
    && multiset(r) <= multiset(all)
    && forall i, x | 0 <= i < |r| && x in multiset(all) - multiset(r) :: key(r[i]) <= key(x)
  }

  /** WHERE keep: the rows of s that satisfy keep, each as often as it occurs in s. */
  function Filter<T>(s: seq<T>, keep: T -> bool): (r: seq<T>)
    ensures forall i | 0 <= i < |r| :: keep(r[i]) && r[i] in s
    ensures multiset(r) <= multiset(s)
    ensures forall x | x in s && keep(x) :: multiset(r)[x] == multiset(s)[x]
  {
    if s == [] then []
    else
      assert s == [s[0]] + s[1..];
      var rest := Filter(s[1..], keep);
      if keep(s[0]) then [s[0]] + rest else rest
  }

  function Insert<T>(x: T, s: seq<T>, key: T -> int): (r: seq<T>)
    requires SortedBy(s, key)
    ensures SortedBy(r, key)
    ensures multiset(r) == multiset(s) + multiset{x}
    ensures r[0] == x || (|s| > 0 && r[0] == s[0])
  {
    if s == [] || key(x) <= key(s[0]) then [x] + s
    else
      assert s == [s[0]] + s[1..];
      [s[0]] + Insert(x, s[1..], key)
  }

  /** A sorted permutation of s. */
  function SortBy<T>(s: seq<T>, key: T -> int): (r: seq<T>)
    ensures SortedBy(r, key)
    ensures multiset(r) == multiset(s)
  {
    if s == [] then []
    else
      assert s == [s[0]] + s[1..];
      Insert(s[0], SortBy(s[1..], key), key)
  }

  /** Taking the first k rows of a sorted permutation of all yields ORDER BY key LIMIT k. */
  lemma SortedPrefixIsFirstK<T>(s: seq<T>, all: seq<T>, key: T -> int, k: nat)
    requires SortedBy(s, key)
    requires multiset(s) == multiset(all)
    ensures IsFirstK(s[..Min(k, |s|)], all, key, k)
  {
    var m := Min(k, |s|);
    var p, rest := s[..m], s[m..];
    assert s == p + rest;
    assert |all| == |s| by {
      assert |multiset(all)| == |multiset(s)|;
    }
    assert multiset(all) - multiset(p) == multiset(rest) by {
      assert multiset(s) == multiset(p) + multiset(rest);
    }
    assert SortedBy(p, key);
    forall i, x | 0 <= i < |p| && x in multiset(all) - multiset(p)
      ensures key(p[i]) <= key(x)
    {
      PrefixBelowSuffix(s, key, m, i, x);
    }
  }

  lemma PrefixBelowSuffix<T>(s: seq<T>, key: T -> int, m: nat, i: nat, x: T)
    requires SortedBy(s, key)
    requires i < m <= |s|
    requires x in multiset(s[m..])
    ensures key(s[i]) <= key(x)
  {
  }

  /** ORDER BY key LIMIT k. */
  function FirstK<T>(all: seq<T>, key: T -> int, k: nat): (r: seq<T>)
    ensures IsFirstK(r, all, key, k)
    ensures forall x | x in r :: x in all
  {
    var s := SortBy(all, key);
    SortedPrefixIsFirstK(s, all, key, k);
    var r := s[..Min(k, |s|)];
    assert forall x | x in r :: x in multiset(r);
    r
  }
}
