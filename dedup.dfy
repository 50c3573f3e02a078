/**
 * `list(dict.fromkeys(xs))`, the order-preserving deduplication the script
 * applies to every list of IDs, and the list-comprehension filter.
 */
module Dedup {

  predicate NoDuplicates<T(==)>(xs: seq<T>) {
    forall i, j :: 0 <= i < j < |xs| ==> xs[i] != xs[j]
  }

  /** The position of the first occurrence of `x` in `xs`. */
  function FirstIndex<T(==)>(xs: seq<T>, x: T): (k: nat)
    requires x in xs
    ensures k < |xs| && xs[k] == x
    ensures forall j :: 0 <= j < k ==> xs[j] != x
  {
    if xs[0] == x then 0 else 1 + FirstIndex(xs[1..], x)
  }

  /** `list(dict.fromkeys(xs))`: each element is inserted when it is first
      seen, so the result holds every element of `xs` once, in the order of
      first occurrence. */
  function Unique<T(==,!new)>(xs: seq<T>): (r: seq<T>)
    ensures NoDuplicates(r)
    ensures forall x :: x in r <==> x in xs
    ensures forall i, j :: 0 <= i < j < |r| ==> FirstIndex(xs, r[i]) < FirstIndex(xs, r[j])
  {
    if xs == [] then []
    else
      var init := xs[..|xs| - 1];
      var last := xs[|xs| - 1];
      var u := Unique(init);
      assert xs == init + [last];
      UniqueAppend(init, last, u);
      if last in u then u else u + [last]
  }

  /** The first occurrence of an element of a prefix lies in that prefix. */
  lemma FirstIndexInPrefix<T(!new)>(xs: seq<T>, n: nat, y: T)
    requires n <= |xs| && y in xs[..n]
    ensures FirstIndex(xs, y) == FirstIndex(xs[..n], y)
  {
    var k, r := FirstIndex(xs[..n], y), FirstIndex(xs, y);
    assert xs[k] == y;
    assert r <= k;
    assert xs[..n][r] == y;
  }

  /** The step of `Unique`: what holds of the deduplicated prefix carries
      over to the whole list once its last element is inserted if new. */
  lemma UniqueAppend<T(!new)>(init: seq<T>, last: T, u: seq<T>)
    requires NoDuplicates(u)
    requires forall x :: x in u <==> x in init
    requires forall i, j :: 0 <= i < j < |u| ==> FirstIndex(init, u[i]) < FirstIndex(init, u[j])
    ensures var xs, r := init + [last], if last in u then u else u + [last];
      && NoDuplicates(r)
      && (forall x :: x in r <==> x in xs)
      && (forall i, j :: 0 <= i < j < |r| ==> FirstIndex(xs, r[i]) < FirstIndex(xs, r[j]))
  {
    var xs := init + [last];
    assert xs[..|init|] == init;
    forall i | 0 <= i < |u| ensures FirstIndex(xs, u[i]) == FirstIndex(init, u[i]) {
      FirstIndexInPrefix(xs, |init|, u[i]);
    }
    if last !in u {
      var r := u + [last];
      assert last !in init;
      assert FirstIndex(xs, last) == |init|;
      forall i, j | 0 <= i < j < |r| ensures FirstIndex(xs, r[i]) < FirstIndex(xs, r[j]) {
        if j == |u| {
          assert FirstIndex(xs, r[i]) == FirstIndex(init, u[i]) < |init|;
        }
      }
    }
  }

  /** A list without duplicates is its own deduplication. */
  lemma {:induction false} UniqueOfDistinct<T(!new)>(xs: seq<T>)
    requires NoDuplicates(xs)
    ensures Unique(xs) == xs
  {
    if xs != [] {
      var init := xs[..|xs| - 1];
      assert NoDuplicates(init);
      UniqueOfDistinct(init);
      assert xs[|xs| - 1] !in init;
      assert init + [xs[|xs| - 1]] == xs;
    }
  }

  /** `list(dict.fromkeys(...))` is idempotent. */
  lemma UniqueIdempotent<T(!new)>(xs: seq<T>)
    ensures Unique(Unique(xs)) == Unique(xs)
  {
    UniqueOfDistinct(Unique(xs));
  }

  /** `[x for x in xs if keep(x)]`. */
  function Filter<T(!new)>(xs: seq<T>, keep: T -> bool): (r: seq<T>)
    ensures |r| <= |xs|
    ensures forall x :: x in r <==> x in xs && keep(x)
  {
    if xs == [] then []
    else if keep(xs[0]) then [xs[0]] + Filter(xs[1..], keep)
    else Filter(xs[1..], keep)
  }

  /** Filtering keeps the first-occurrence order of the elements it keeps. */
  lemma {:induction false} FilterKeepsFirstOrder<T(!new)>(xs: seq<T>, keep: T -> bool, x: T, y: T)
    requires x in Filter(xs, keep) && y in Filter(xs, keep)
    ensures FirstIndex(xs, x) < FirstIndex(xs, y) <==> FirstIndex(Filter(xs, keep), x) < FirstIndex(Filter(xs, keep), y)
  {
    var f := Filter(xs, keep);
    if xs[0] == x || xs[0] == y {
      assert f[0] == xs[0];
    } else {
      var t := Filter(xs[1..], keep);
      assert x in t && y in t;
      FilterKeepsFirstOrder(xs[1..], keep, x, y);
      if keep(xs[0]) {
        assert f == [xs[0]] + t;
        assert FirstIndex(f, x) == 1 + FirstIndex(t, x);
        assert FirstIndex(f, y) == 1 + FirstIndex(t, y);
      }
    }
  }

  /** Filtering a list without duplicates keeps it without duplicates and
      keeps its order. */
  lemma {:induction false} FilterDistinct<T(!new)>(xs: seq<T>, keep: T -> bool)
    requires NoDuplicates(xs)
    ensures var f := Filter(xs, keep);
      NoDuplicates(f) && forall i, j :: 0 <= i < j < |f| ==> FirstIndex(xs, f[i]) < FirstIndex(xs, f[j])
  {
    if xs != [] {
      var t := Filter(xs[1..], keep);
      assert NoDuplicates(xs[1..]);
      FilterDistinct(xs[1..], keep);
      forall y | y in t
        ensures FirstIndex(xs, y) == 1 + FirstIndex(xs[1..], y)
      {
        assert y != xs[0];
      }
      if keep(xs[0]) {
        assert xs[0] !in t;
      }
    }
  }
}
