/** The 65536 small buckets of mainSort (blocksort.c), one for every pair of first bytes, and what a run
    of one byte means for the order of rotations. */
module SmallBuckets {
  import opened Rotations
  import opened Permutations
  import opened MainOrder

  // ----- Small buckets -----

  /** The two bytes a rotation starts with. */
  ghost function Key(b: seq<int>, r: nat): int
    requires r < |b|
  {
    256 * b[r] + b[Next(|b|, r)]
  }

  ghost predicate Bytes(b: seq<int>) {
    forall i :: 0 <= i < |b| ==> 0 <= b[i] < 256
  }

  /** Where each of the 65536 small buckets starts, and where the last one ends. */
  ghost predicate IsStarts(starts: seq<int>, n: nat) {
    && |starts| == 65537 && starts[0] == 0 && starts[65536] == n
    && forall j, k :: 0 <= j <= k <= 65536 ==> starts[j] <= starts[k]
  }

  /** Position `x` is in small bucket `k`. */
  ghost predicate InBucket(starts: seq<int>, k: int, x: int) {
    |starts| == 65537 && 0 <= k < 65536 && starts[k] <= x < starts[k + 1]
  }

  /** Every rotation is listed once, in its bucket. */
  ghost predicate Placed(b: seq<int>, starts: seq<int>, f: seq<int>) {
    && Bytes(b) && IsStarts(starts, |b|) && |b| <= |f|
    && (forall x :: 0 <= x < |b| ==> 0 <= f[x] < |b|)
    && (forall x :: 0 <= x < |b| ==> InBucket(starts, Key(b, f[x]), x))
    && (forall x, y :: 0 <= x < y < |b| ==> f[x] != f[y])
  }

  lemma OneBucket(starts: seq<int>, n: nat, j: int, k: int, x: int)
    requires IsStarts(starts, n) && InBucket(starts, j, x) && InBucket(starts, k, x)
    ensures j == k
  { }

  /** What a small bucket holds. */
  lemma BucketKey(b: seq<int>, starts: seq<int>, f: seq<int>, k: int, x: int)
    requires Placed(b, starts, f) && InBucket(starts, k, x)
    ensures 0 <= x < |b| && 0 <= f[x] < |b| && Key(b, f[x]) == k
  {
    assert starts[0] <= starts[k] && starts[k + 1] <= starts[65536];
    OneBucket(starts, |b|, Key(b, f[x]), k, x);
  }

  /** Where a rotation is listed. */
  lemma Listed(b: seq<int>, starts: seq<int>, f: seq<int>, r: nat) returns (x: int)
    requires Placed(b, starts, f) && r < |b|
    ensures 0 <= x < |b| && f[x] == r && InBucket(starts, Key(b, r), x)
  {
    var p := f[..|b|];
    assert IsPerm(p, |b|);
    PermOnto(p, |b|, r);
    x :| 0 <= x < |b| && p[x] == r;
  }

  /** A smaller key is a smaller rotation. */
  lemma KeysDecide(b: seq<int>, u: nat, v: nat)
    requires Bytes(b) && u < |b| && v < |b| && |b| >= 2
    ensures Key(b, u) < Key(b, v) ==> RotOrder(b)(u, v)
    ensures Key(b, u) == Key(b, v) ==> b[u] == b[v] && Cmp(b, u, v, 2) == 0
  {
    assert Cmp(b, Next(|b|, u), Next(|b|, v), 1) == if b[Next(|b|, u)] < b[Next(|b|, v)] then -1
        else if b[Next(|b|, u)] > b[Next(|b|, v)] then 1 else 0 by {
      assert Cmp(b, Next(|b|, Next(|b|, u)), Next(|b|, Next(|b|, v)), 0) == 0;
    }
    assert Cmp(b, u, v, 2) == if b[u] < b[v] then -1 else if b[u] > b[v] then 1
        else Cmp(b, Next(|b|, u), Next(|b|, v), 1);
    CmpDecided(b, u, v, 2);
  }

  // ----- Runs of one byte -----

  /** The rotation is greater than the one starting a place later. */
  ghost predicate Descends(b: seq<int>, r: int) { 0 <= r < |b| && Cmp(b, r, Next(|b|, r), |b|) > 0 }

  ghost predicate Ascends(b: seq<int>, r: int) { 0 <= r < |b| && Cmp(b, r, Next(|b|, r), |b|) < 0 }

  /** A place back in a run nothing changes. */
  lemma RunStep(b: seq<int>, r: nat)
    requires r < |b| && b[r] == b[Next(|b|, r)]
    ensures Descends(b, r) == Descends(b, Next(|b|, r)) && Ascends(b, r) == Ascends(b, Next(|b|, r))
  {
    CmpStep(b, r, Next(|b|, r));
  }

  /** At the end of a run the next byte tells. */
  lemma RunEnd(b: seq<int>, r: nat)
    requires r < |b| && b[r] != b[Next(|b|, r)]
    ensures Descends(b, r) <==> b[r] > b[Next(|b|, r)]
    ensures Ascends(b, r) <==> b[r] < b[Next(|b|, r)]
  { }

  /** Of two rotations starting with the same byte, a descending one comes before an ascending one. */
  lemma {:induction false} DescendsFirst(b: seq<int>, r: nat, q: nat, h: nat)
    requires r < |b| && q < |b| && b[r] == b[q] && Descends(b, r) && Ascends(b, q)
    ensures Cmp(b, r, q, h) <= 0
    decreases h
  {
    if h > 0 {
      var r', q' := Next(|b|, r), Next(|b|, q);
      if b[r] != b[r'] { RunEnd(b, r); } else { RunStep(b, r); }
      if b[q] != b[q'] { RunEnd(b, q); } else { RunStep(b, q); }
      hide Descends, Ascends;
      if b[r'] == b[q'] {
        DescendsFirst(b, r', q', h - 1);
      } else if h > 1 {
        assert b[r'] < b[q'];
      }
    }
  }

  /** A rotation equal to the one a place later is one long run. */
  lemma {:induction false} NeitherUniform(b: seq<int>, r: nat, h: nat)
    requires r < |b| && h < |b| && Cmp(b, r, Next(|b|, r), |b|) == 0
    ensures b[Shift(|b|, r, h)] == b[r]
    decreases h
  {
    if h > 0 {
      NeitherUniform(b, r, h - 1);
      EqualAt(b, r, Next(|b|, r), |b|, h - 1);
      assert Shift(|b|, Next(|b|, r), h - 1) == Shift(|b|, r, h);
    }
  }

  /** Strings that compare equal are equal at every place. */
  lemma {:induction false} EqualAt(b: seq<int>, i: nat, j: nat, h: nat, t: nat)
    requires i < |b| && j < |b| && t < h <= |b| && Cmp(b, i, j, h) == 0
    ensures b[Shift(|b|, i, t)] == b[Shift(|b|, j, t)]
    decreases t
  {
    if t > 0 {
      EqualAt(b, Next(|b|, i), Next(|b|, j), h - 1, t - 1);
      assert Shift(|b|, Next(|b|, i), t - 1) == Shift(|b|, i, t) && Shift(|b|, Next(|b|, j), t - 1) == Shift(|b|, j, t);
    }
  }

  ghost predicate Uniform(b: seq<int>, c: int) {
    forall i :: 0 <= i < |b| ==> b[i] == c
  }

  lemma StillIsUniform(b: seq<int>, r: nat)
    requires r < |b| && !Descends(b, r) && !Ascends(b, r)
    ensures Uniform(b, b[r])
  {
    forall i | 0 <= i < |b|
      ensures b[i] == b[r]
    {
      var h := if r <= i then i - r else i + |b| - r;
      NeitherUniform(b, r, h);
      assert Shift(|b|, r, h) == i;
    }
  }

  /** All rotations of one long run are equal. */
  lemma {:induction false} UniformEqual(b: seq<int>, c: int, u: nat, v: nat, h: nat)
    requires Uniform(b, c) && u < |b| && v < |b|
    ensures Cmp(b, u, v, h) == 0
    decreases h
  {
    if h > 0 { UniformEqual(b, c, Next(|b|, u), Next(|b|, v), h - 1); }
  }
}
