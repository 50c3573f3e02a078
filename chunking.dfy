/**
 * `chunk(seq, n)`: consecutive groups of at most `n` elements, the way the
 * fetcher splits its IDs into requests of 200.
 */
module Chunking {

  function Min(a: nat, b: nat): (m: nat)
    ensures m <= a && m <= b && (m == a || m == b)
  {
    if a <= b then a else b
  }

  /** `[list(xs[i:i+n]) for i in range(0, len(xs), n)]`, one group at a time:
      the first `n` elements (or all that are left), then the rest split the
      same way. Every group is non-empty and at most `n` long, and all but the
      last are exactly `n` long. */
  function Chunk<T>(xs: seq<T>, n: nat): (groups: seq<seq<T>>)
    requires n > 0
    ensures forall k :: 0 <= k < |groups| ==> 0 < |groups[k]| <= n
    ensures forall k :: 0 <= k < |groups| - 1 ==> |groups[k]| == n
    ensures xs == [] <==> groups == []
    decreases |xs|
  {
    if xs == [] then []
    else
      var m := Min(n, |xs|);
      [xs[..m]] + Chunk(xs[m..], n)
  }

  /** The groups joined back together. */
  function Flatten<T>(groups: seq<seq<T>>): (xs: seq<T>)
  {
    if groups == [] then [] else groups[0] + Flatten(groups[1..])
  }

  /** Joining the groups gives the input back: every element lands in
      exactly one group, in order. */
  lemma {:induction false} FlattenChunk<T>(xs: seq<T>, n: nat)
    requires n > 0
    ensures Flatten(Chunk(xs, n)) == xs
    decreases |xs|
  {
    if xs != [] {
      var m := Min(n, |xs|);
      var groups := Chunk(xs, n);
      assert groups[1..] == Chunk(xs[m..], n);
      FlattenChunk(xs[m..], n);
      assert xs[..m] + xs[m..] == xs;
    }
  }

  /** Every element of a group is an element of the input. */
  lemma {:induction false} ChunkMember<T>(xs: seq<T>, n: nat, k: nat, j: nat)
    requires n > 0 && k < |Chunk(xs, n)| && j < |Chunk(xs, n)[k]|
    ensures Chunk(xs, n)[k][j] in xs
    decreases k
  {
    var m := Min(n, |xs|);
    if k > 0 {
      ChunkMember(xs[m..], n, k - 1, j);
      assert Chunk(xs, n)[k] == Chunk(xs[m..], n)[k - 1];
    } else {
      assert Chunk(xs, n)[0] == xs[..m];
    }
  }

  /** The number of groups is `len(xs) / n` rounded up: `c` groups hold
      more than `c - 1` full groups' worth of elements and at most `c`. */
  lemma {:induction false} ChunkCount<T>(xs: seq<T>, n: nat)
    requires n > 0
    ensures var c := |Chunk(xs, n)|; (c - 1) * n < |xs| <= c * n
    decreases |xs|
  {
    if xs != [] {
      var m := Min(n, |xs|);
      var c := |Chunk(xs[m..], n)|;
      ChunkCount(xs[m..], n);
      assert |Chunk(xs, n)| == c + 1;
      assert (c + 1) * n == c * n + n;
      if c > 0 {
        assert c * n == (c - 1) * n + n;
      }
    }
  }

  /** The fetcher's split of 450 IDs: two full groups of 200 and one of
      50. */
  lemma ChunkOf450<T>(xs: seq<T>)
    requires |xs| == 450
    ensures var groups := Chunk(xs, 200);
      |groups| == 3 && |groups[0]| == 200 && |groups[1]| == 200 && |groups[2]| == 50
  {
    ChunkCount(xs, 200);
    var groups := Chunk(xs, 200);
    FlattenChunk(xs, 200);
    assert groups[1..] == Chunk(xs[200..], 200);
    assert groups[2..] == Chunk(xs[400..], 200);
  }
}
