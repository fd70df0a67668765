/** Generic operations on finite sequences that stand in for the query
    operations of the data store: lookup of the first matching row, filtering,
    and a stable ordering by an integer key. */
module Seqs {

  datatype Option<T> = None | Some(value: T)

  /** The first element that satisfies `wanted`, as a single-row lookup does. */
  function First<T(!new)>(xs: seq<T>, wanted: T -> bool): (r: Option<T>)
    ensures r.Some? ==> r.value in xs && wanted(r.value)
    ensures r.None? <==> forall x :: x in xs ==> !wanted(x)
  {
    if |xs| == 0 then None
    else if wanted(xs[0]) then Some(xs[0])
    else First(xs[1..], wanted)
  }

  /** The elements that satisfy `keep`, in their original order. */
  function Select<T(!new)>(xs: seq<T>, keep: T -> bool): (r: seq<T>)
    ensures forall x :: x in r <==> x in xs && keep(x)
    ensures |r| <= |xs|
  {
    if |xs| == 0 then []
    else if keep(xs[0]) then [xs[0]] + Select(xs[1..], keep)
    else Select(xs[1..], keep)
  }

  /** Selecting keeps every copy of a kept element and no copy of the rest. */
  lemma {:induction false} SelectMultiplicity<T(!new)>(xs: seq<T>, keep: T -> bool, x: T)
    ensures multiset(Select(xs, keep))[x] == if keep(x) then multiset(xs)[x] else 0
  {
    if |xs| > 0 {
      SelectMultiplicity(xs[1..], keep, x);
      assert xs == [xs[0]] + xs[1..];
    }
  }

  /** Elements are in non-decreasing order of `key`. */
  ghost predicate Ascending<T>(xs: seq<T>, key: T -> int) {
    forall i, j :: 0 <= i < j < |xs| ==> key(xs[i]) <= key(xs[j])
  }

  /** No two elements share a `key`. */
  ghost predicate Distinct<T, K>(xs: seq<T>, key: T -> K) {
    forall i, j :: 0 <= i < j < |xs| ==> key(xs[i]) != key(xs[j])
  }

  lemma {:induction false} SelectKeepsAscending<T(!new)>(xs: seq<T>, keep: T -> bool, key: T -> int)
    requires Ascending(xs, key)
    ensures Ascending(Select(xs, keep), key)
  {
    if |xs| > 0 {
      SelectKeepsAscending(xs[1..], keep, key);
      var rest := Select(xs[1..], keep);
      if keep(xs[0]) {
        forall j | 0 <= j < |rest| ensures key(xs[0]) <= key(rest[j]) {
          assert rest[j] in xs[1..];
        }
      }
    }
  }

  lemma {:induction false} SelectKeepsDistinct<T(!new), K>(xs: seq<T>, keep: T -> bool, key: T -> K)
    requires Distinct(xs, key)
    ensures Distinct(Select(xs, keep), key)
  {
    if |xs| > 0 {
      SelectKeepsDistinct(xs[1..], keep, key);
      var rest := Select(xs[1..], keep);
      if keep(xs[0]) {
        forall j | 0 <= j < |rest| ensures key(xs[0]) != key(rest[j]) {
          assert rest[j] in xs[1..];
        }
      }
    }
  }

  /** Inserts `x` in front of the first element whose key is not smaller,
      so that among equal keys the earlier element stays first. */
  function Insert<T>(x: T, ys: seq<T>, key: T -> int): (r: seq<T>)
    ensures multiset(r) == multiset(ys) + multiset{x}
    ensures |r| == |ys| + 1
    ensures r[0] == x || (|ys| > 0 && r[0] == ys[0])
    ensures Ascending(ys, key) ==> Ascending(r, key)
  {
    if |ys| == 0 || key(x) <= key(ys[0]) then [x] + ys
    else
      var rest := Insert(x, ys[1..], key);
      assert ys == [ys[0]] + ys[1..];
      [ys[0]] + rest
  }

  /** Stable insertion sort by `key`, smallest key first. */
  function SortBy<T>(xs: seq<T>, key: T -> int): (r: seq<T>)
    ensures Ascending(r, key)
    ensures multiset(r) == multiset(xs)
    ensures |r| == |xs|
  {
    if |xs| == 0 then []
    else
      assert xs == [xs[0]] + xs[1..];
      Insert(xs[0], SortBy(xs[1..], key), key)
  }

  /** Sorting a sequence that is already in order changes nothing, so a second
      ordering by the same key is redundant. */
  lemma {:induction false} SortSortedIsIdentity<T>(xs: seq<T>, key: T -> int)
    requires Ascending(xs, key)
    ensures SortBy(xs, key) == xs
  {
    if |xs| > 0 {
      SortSortedIsIdentity(xs[1..], key);
      assert xs == [xs[0]] + xs[1..];
    }
  }

  /** Applies `f` to every element. */
  function Map<T, U>(xs: seq<T>, f: T -> U): (r: seq<U>)
    ensures |r| == |xs|
    ensures forall i :: 0 <= i < |xs| ==> r[i] == f(xs[i])
  {
    if |xs| == 0 then [] else [f(xs[0])] + Map(xs[1..], f)
  }
}
