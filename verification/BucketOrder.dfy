/** Sorted small buckets, what sorting or scanning one does to the others, and what they add up to. */
module BucketOrder {
  import opened Rotations
  import opened Permutations
  import opened Bwt
  import opened ThreeWay
  import opened ShellSort
  import opened MainOrder
  import opened MainSimple
  import opened SmallBuckets

  ghost predicate BucketSorted(b: seq<int>, starts: seq<int>, f: seq<int>, k: int) {
    |starts| == 65537 && 0 <= k < 65536 && Ascending(f, RotOrder(b), starts[k], starts[k + 1] - 1)
  }

  /** The small buckets flagged in ftab are sorted. */
  ghost predicate FlagsSorted(b: seq<int>, starts: seq<int>, f: seq<int>, flags: seq<bool>) {
    |flags| == 65536 && forall k :: 0 <= k < 65536 && flags[k] ==> BucketSorted(b, starts, f, k)
  }

  lemma PlacedAtKey(b: seq<int>, starts: seq<int>, f: seq<int>, p: int)
    requires Placed(b, starts, f) && 0 <= p < |b|
    ensures p < |f| && 0 <= f[p] < |b| && InBucket(starts, Key(b, f[p]), p)
  { hide InBucket, IsStarts, Key; }

  lemma PlacedStarts(b: seq<int>, starts: seq<int>, f: seq<int>)
    requires Placed(b, starts, f)
    ensures IsStarts(starts, |b|) && Bytes(b) && |b| <= |f|
  { hide InBucket, IsStarts, Key; }

  lemma BucketPair(b: seq<int>, starts: seq<int>, f: seq<int>, k: int, p: int, q: int)
    requires BucketSorted(b, starts, f, k) && InBucket(starts, k, p) && InBucket(starts, k, q) && p < q
    ensures 0 <= p && q < |f| && RotOrder(b)(f[p], f[q])
  { hide RotOrder; }

  /** Sorted small buckets next to each other make one sorted range. */
  lemma RunOfBuckets(b: seq<int>, starts: seq<int>, f: seq<int>, k0: int, k1: int)
    requires Placed(b, starts, f) && |b| >= 2 && 0 <= k0 <= k1 <= 65536 && |starts| == 65537
    requires forall k :: k0 <= k < k1 ==> BucketSorted(b, starts, f, k)
    ensures Ascending(f, RotOrder(b), starts[k0], starts[k1] - 1)
  {
    hide Placed, RotOrder, Key, BucketSorted, InBucket, IsStarts;
    PlacedStarts(b, starts, f);
    StartsRange(starts, |b|, k0, k1);
    forall p, q | starts[k0] <= p < q <= starts[k1] - 1
      ensures RotOrder(b)(f[p], f[q])
    {
      PairInRun(b, starts, f, k0, k1, p, q);
    }
  }

  lemma StartsRange(starts: seq<int>, n: nat, k0: int, k1: int)
    requires IsStarts(starts, n) && 0 <= k0 <= k1 <= 65536
    ensures 0 <= starts[k0] <= starts[k1] <= n
  {
    assert starts[0] <= starts[k0] && starts[k1] <= starts[65536];
  }

  lemma PairInRun(b: seq<int>, starts: seq<int>, f: seq<int>, k0: int, k1: int, p: int, q: int)
    requires Placed(b, starts, f) && |b| >= 2 && 0 <= k0 <= k1 <= 65536 && |starts| == 65537
    requires forall k :: k0 <= k < k1 ==> BucketSorted(b, starts, f, k)
    requires starts[k0] <= p < q < starts[k1]
    ensures 0 <= p && q < |f| && RotOrder(b)(f[p], f[q])
  {
    hide Placed, RotOrder, Key, BucketSorted, InBucket, IsStarts;
    PlacedStarts(b, starts, f);
    StartsRange(starts, |b|, k0, k1);
    PlacedAtKey(b, starts, f, p);
    PlacedAtKey(b, starts, f, q);
    var i, j := Key(b, f[p]), Key(b, f[q]);
    BucketWithin(starts, |b|, k0, k1, i, p);
    BucketOrder(starts, |b|, i, p, j, q);
    if i == j {
      BucketPair(b, starts, f, i, p, q);
    } else {
      KeysDecide(b, f[p], f[q]);
    }
  }

  lemma BucketWithin(starts: seq<int>, n: nat, k0: int, k1: int, k: int, p: int)
    requires IsStarts(starts, n) && 0 <= k0 <= k1 <= 65536 && starts[k0] <= p < starts[k1] && InBucket(starts, k, p)
    ensures k0 <= k < k1
  { }

  lemma BucketOrder(starts: seq<int>, n: nat, i: int, p: int, j: int, q: int)
    requires IsStarts(starts, n) && InBucket(starts, i, p) && InBucket(starts, j, q) && p < q
    ensures i <= j
  { }

  /** All small buckets sorted: the rotations are. */
  lemma AllSorted(b: seq<int>, starts: seq<int>, f: seq<int>, flags: seq<bool>)
    requires Placed(b, starts, f) && |b| >= 2 && FlagsSorted(b, starts, f, flags)
    requires forall k :: 0 <= k < 65536 ==> flags[k]
    ensures |b| <= |f| && SortedRotations(b, f[..|b|])
  {
    hide RotOrder, Key, BucketSorted, InBucket;
    RunOfBuckets(b, starts, f, 0, 65536);
    var p := f[..|b|];
    forall x, y | 0 <= x <= y < |b|
      ensures RotLe(b, p[x], p[y])
    {
      if x == y {
        CmpReflexive(b, p[x], |b|);
      } else {
        OrderIsLe(b, p[x], p[y]);
      }
    }
  }

  lemma OrderIsLe(b: seq<int>, u: int, v: int)
    requires RotOrder(b)(u, v)
    ensures 0 <= u < |b| && 0 <= v < |b| && RotLe(b, u, v)
  { }

  // ----- One small bucket sorted -----

  /** The rotations of a small bucket share two bytes. */
  lemma BucketPrefixed(b: seq<int>, starts: seq<int>, f: seq<int>, k: int)
    requires Placed(b, starts, f) && |b| >= 2 && 0 <= k < 65536 && |starts| == 65537
    ensures Prefixed(b, f, starts[k], starts[k + 1] - 1, 2)
  {
    hide Placed, Key, RotOrder, IsStarts;
    PlacedStarts(b, starts, f);
    StartsRange(starts, |b|, k, k + 1);
    forall p, q | starts[k] <= p <= starts[k + 1] - 1 && starts[k] <= q <= starts[k + 1] - 1
      ensures Agree(b, f[p], f[q], 2)
    {
      BucketKey(b, starts, f, k, p);
      BucketKey(b, starts, f, k, q);
      KeysDecide(b, f[p], f[q]);
    }
  }

  /** Rearranging inside a small bucket keeps every rotation in its bucket. */
  lemma RearrangedPlaced(b: seq<int>, starts: seq<int>, f: seq<int>, g: seq<int>, k: int)
    requires Placed(b, starts, f) && 0 <= k < 65536 && |starts| == 65537
    requires Rearranged(f, g, starts[k], starts[k + 1] - 1)
    ensures Placed(b, starts, g)
  {
    hide Placed, Key, IsStarts, SameBag;
    PlacedStarts(b, starts, f);
    StartsRange(starts, |b|, k, k + 1);
    forall p | 0 <= p < |b|
      ensures 0 <= g[p] < |b| && InBucket(starts, Key(b, g[p]), p)
    {
      PlacedAtKey(b, starts, f, p);
      if starts[k] <= p < starts[k + 1] {
        var z := ComesFrom(f, g, starts[k], starts[k + 1] - 1, p);
        BucketKey(b, starts, f, k, z);
      }
    }
    RearrangedOnce(b, starts, f, g, k);
    PlacedFromParts(b, starts, g);
  }

  lemma RearrangedOnce(b: seq<int>, starts: seq<int>, f: seq<int>, g: seq<int>, k: int)
    requires Placed(b, starts, f) && 0 <= k < 65536 && |starts| == 65537
    requires Rearranged(f, g, starts[k], starts[k + 1] - 1)
    ensures |g| == |f| >= |b| && forall p, q :: 0 <= p < q < |b| ==> g[p] != g[q]
  {
    hide Key, InBucket, SameBag;
    StartsRange(starts, |b|, k, k + 1);
    var n := |b|;
    PrefixBag(f, g, starts[k], starts[k + 1] - 1, n);
    assert Distinct(f[..n]);
    BagDistinct(f[..n], g[..n]);
    forall p, q | 0 <= p < q < n
      ensures g[p] != g[q]
    {
      assert g[..n][p] != g[..n][q];
    }
  }

  lemma PrefixBag(f: seq<int>, g: seq<int>, l: int, r: int, n: int)
    requires Rearranged(f, g, l, r) && r < n && 0 <= n <= |f| && |g| == |f|
    ensures multiset(f[..n]) == multiset(g[..n])
  {
    assert f == f[..n] + f[n..] && g == g[..n] + g[n..];
    assert f[n..] == g[n..];
    assert multiset(f[..n]) == multiset(f) - multiset(f[n..]);
    assert multiset(g[..n]) == multiset(g) - multiset(g[n..]);
  }

  lemma PlacedFromParts(b: seq<int>, starts: seq<int>, g: seq<int>)
    requires IsStarts(starts, |b|) && Bytes(b) && |b| <= |g|
    requires forall p :: 0 <= p < |b| ==> 0 <= g[p] < |b| && InBucket(starts, Key(b, g[p]), p)
    requires forall p, q :: 0 <= p < q < |b| ==> g[p] != g[q]
    ensures Placed(b, starts, g)
  { hide IsStarts, InBucket, Key; }

  /** The other small buckets do not notice. */
  lemma OneMoreSorted(b: seq<int>, starts: seq<int>, f: seq<int>, g: seq<int>, flags: seq<bool>, k: int)
    requires IsStarts(starts, |b|) && FlagsSorted(b, starts, f, flags) && 0 <= k < 65536 && |starts| == 65537
    requires Rearranged(f, g, starts[k], starts[k + 1] - 1) && Ascending(g, RotOrder(b), starts[k], starts[k + 1] - 1)
    ensures FlagsSorted(b, starts, g, flags[k := true])
  {
    hide RotOrder, SameBag, Ascending, IsStarts;
    forall m | 0 <= m < 65536 && flags[k := true][m]
      ensures BucketSorted(b, starts, g, m)
    {
      if m != k {
        assert BucketSorted(b, starts, f, m);
        BucketsApart(starts, |b|, k, m);
        SameRange(f, g, RotOrder(b), starts[m], starts[m + 1] - 1);
      }
    }
  }

  lemma BucketsApart(starts: seq<int>, n: nat, k: int, m: int)
    requires IsStarts(starts, n) && 0 <= k < 65536 && 0 <= m < 65536 && k != m
    ensures starts[m + 1] <= starts[k] || starts[k + 1] <= starts[m]
  { }

  lemma SameRange(f: seq<int>, g: seq<int>, le: (int, int) -> bool, lo: int, hi: int)
    requires Ascending(f, le, lo, hi) && |f| == |g| && forall p :: lo <= p <= hi && 0 <= p < |f| ==> g[p] == f[p]
    ensures Ascending(g, le, lo, hi)
  { }
}
