/** A block mainSort (blocksort.c) receives on which a smaller quadrant does not precede: two bytes in turn. */
module QuadrantTies {
  import opened Rotations
  import opened Power
  import opened Bits
  import opened InverseBwt
  import opened Bwt
  import opened MainOrder
  import opened Multiples
  import opened ShellSort
  import opened SmallBuckets
  import opened Quadrants
  import MainSort

  /** 0, 1, 0, 1, ... */
  function Alternating(n: nat): (b: seq<int>)
    ensures |b| == n
  {
    seq(n, i => i % 2)
  }

  /** All rotations that start with the same byte are equal. */
  lemma {:induction false} AlternatingEqual(n: nat, i: nat, j: nat, h: nat)
    requires n % 2 == 0 && i < n && j < n && i % 2 == j % 2
    ensures Cmp(Alternating(n), i, j, h) == 0
    decreases h
  {
    if h > 0 { AlternatingEqual(n, Next(n, i), Next(n, j), h - 1); }
  }

  /** Its rotations in order: the even ones, then the odd ones. */
  function EvenOdd(n: nat): (f: seq<int>)
    ensures |f| == n
  {
    seq(n, p => if p < n / 2 then 2 * p else 2 * (p - n / 2) + 1)
  }

  /** The small bucket of bytes 0, 1 comes first, then that of 1, 0. */
  ghost function EvenOddStarts(n: nat): (starts: seq<int>)
    ensures |starts| == 65537
  {
    seq(65537, k => if k <= 1 then 0 else if k <= 256 then n / 2 else n)
  }

  lemma EvenOddPlaced(n: nat)
    requires n % 2 == 0 && n > 0
    ensures Placed(Alternating(n), EvenOddStarts(n), EvenOdd(n))
  {
    var b, f := Alternating(n), EvenOdd(n);
    forall x | 0 <= x < n
      ensures 0 <= f[x] < n && InBucket(EvenOddStarts(n), Key(b, f[x]), x)
    {
      EvenOddAt(n, x);
    }
  }

  lemma EvenOddAt(n: nat, x: nat)
    requires n % 2 == 0 && x < n
    ensures 0 <= EvenOdd(n)[x] < n && Alternating(n)[EvenOdd(n)[x]] == if x < n / 2 then 0 else 1
    ensures InBucket(EvenOddStarts(n), Key(Alternating(n), EvenOdd(n)[x]), x)
  {
    var b, r := Alternating(n), EvenOdd(n)[x];
    assert b[r] == r % 2 && b[Next(n, r)] == Next(n, r) % 2;
    assert Next(n, r) % 2 == 1 - r % 2;
  }

  lemma EvensInOrder(n: nat)
    requires n % 2 == 0 && n > 0
    ensures Ascending(EvenOdd(n), RotOrder(Alternating(n)), 0, n / 2 - 1)
  {
    var b, f := Alternating(n), EvenOdd(n);
    hide RotOrder, Ascending, Cmp, RotEq;
    forall x, y | 0 <= x < y <= n / 2 - 1
      ensures RotOrder(b)(f[x], f[y])
    {
      assert f[x] == 2 * x && f[y] == 2 * y;
      EvensEqual(n, x, y);
      EqualIsOrdered(b, f[x], f[y]);
    }
    AscendingFrom(f, RotOrder(b), 0, n / 2 - 1);
  }

  lemma EvensEqual(n: nat, x: nat, y: nat)
    requires n % 2 == 0 && x < n / 2 && y < n / 2
    ensures RotEq(Alternating(n), 2 * x, 2 * y)
  {
    AlternatingEqual(n, 2 * x, 2 * y, n);
  }

  lemma EqualIsOrdered(b: seq<int>, i: nat, j: nat)
    requires i < |b| && j < |b| && RotEq(b, i, j)
    ensures RotOrder(b)(i, j)
  {
  }

  lemma AscendingFrom(f: seq<int>, le: (int, int) -> bool, lo: nat, hi: int)
    requires hi < |f| && forall x, y :: lo <= x < y <= hi ==> le(f[x], f[y])
    ensures Ascending(f, le, lo, hi)
  {
  }

  /** Step 3 on the bucket of byte 0 gives its first and its last rotation, which are equal, different
      quadrants, shifted or not. */
  method TieRun(n: nat) returns (quadrant: array<u16>)
    requires n % 2 == 0 && 10000 <= n <= 900000
    ensures quadrant.Length == n + N_OVERSHOOT && QuadOk(Alternating(n), quadrant[..n]) &&
        !QuadStrict(Alternating(n), quadrant[..n])
  {
    hide QuadStrict, LeastShift, Placed, Ascending, RotOrder, RotEq, BucketStrict, Primitive, Divides;
    ghost var b := Alternating(n);
    quadrant := new u16[n + N_OVERSHOOT](_ => 0);
    EvenOddPlaced(n);
    EvensInOrder(n);
    ghost var g, shifts := MainSort.UpdateQuadrants(EvenOdd(n), quadrant, 0, n / 2, 0, n, b, EvenOddStarts(n));
    LastWindow(n / 2, shifts);
    EvensEqual(n, 0, n / 2 - 1);
    TiesAreNotStrict(b, quadrant[..n], g[0], g[n / 2 - 1]);
  }

  /** The first and the last position of a bucket are never in one window. */
  lemma LastWindow(size: nat, shifts: nat)
    requires size >= 2 && LeastShift(size, shifts)
    ensures Shr(0, shifts) == 0 < Shr(size - 1, shifts)
  {
    assert Pow2(0) == 1;
    hide Shr, Pow2;
    FirstWindow(0, shifts);
    FirstWindow(size - 1, shifts);
    if shifts > 0 {
      assert Shr(size, shifts - 1) > 65534;
      ShrMore(size, shifts - 1);
      ShrWindow(size, shifts);
      TimesMonotone(2, Shr(size, shifts), Pow2(shifts));
      TimesAdd(1, 1, Pow2(shifts));
      TimesStep(1, Pow2(shifts));
    }
  }
}
