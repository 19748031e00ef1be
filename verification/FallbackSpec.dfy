/** What fallbackSort keeps while it refines buckets of rotations: orders and bucket heads at a
    depth, class numbers, and the step from depth h to 2h. */
module FallbackSpec {
  import opened Rotations
  import opened Permutations
  import opened Bwt
  import opened InverseBwt
  import opened ThreeWay

  // ----- The first, one-byte, bucket sort -----

  /** Where the bucket sort puts position `x`: buckets fill from their ends downwards. */
  ghost function BucketSlot(b: seq<int>, x: nat): int
    requires x < |b|
  {
    CountBelow(b, |b|, b[x] + 1) - CountEq(b, x, b[x]) - 1
  }

  lemma BucketSlotByte(b: seq<int>, x: nat)
    requires x < |b|
    ensures 0 <= BucketSlot(b, x) < |b|
    ensures IsFirstByte(b, BucketSlot(b, x), b[x])
  {
    CountsBound(b, |b|, b[x]);
    CountsBound(b, |b|, b[x] + 1);
    CountEqMonotone(b, x, |b|, b[x]);
  }

  lemma BucketSlotsDiffer(b: seq<int>, x: nat, y: nat)
    requires x < y < |b|
    ensures BucketSlot(b, x) != BucketSlot(b, y)
  {
    BucketSlotByte(b, x);
    BucketSlotByte(b, y);
    if b[x] == b[y] {
      CountEqMonotone(b, x, y, b[x]);
    } else if BucketSlot(b, x) == BucketSlot(b, y) {
      FirstByteUnique(b, BucketSlot(b, x), b[x], b[y]);
    }
  }

  ghost function BucketSlots(b: seq<int>): (r: seq<int>)
    ensures IsPerm(r, |b|)
    ensures forall x :: 0 <= x < |b| ==> r[x] == BucketSlot(b, x)
  {
    var r := seq(|b|, x requires 0 <= x < |b| => BucketSlot(b, x));
    assert forall x :: 0 <= x < |b| ==> 0 <= r[x] < |b| by {
      forall x | 0 <= x < |b| ensures 0 <= r[x] < |b| { BucketSlotByte(b, x); }
    }
    assert Distinct(r) by {
      forall x, y | 0 <= x < y < |b| ensures r[x] != r[y] { BucketSlotsDiffer(b, x, y); }
    }
    r
  }

  /** Position `y` of the listing holds a rotation that starts with the byte due there. */
  ghost predicate FirstColumn(b: seq<int>, f: seq<int>) {
    && IsPerm(f, |b|)
    && forall y :: 0 <= y < |b| ==> IsFirstByte(b, y, b[f[y]])
  }

  /** The listing `f` of rotations is in order as far as the first `h` bytes tell. */
  ghost predicate Orders(b: seq<int>, f: seq<int>, h: nat) {
    && IsPerm(f, |b|)
    && forall x, y :: 0 <= x <= y < |b| ==> Cmp(b, f[x], f[y], h) <= 0
  }

  /** Position `y` starts a bucket of rotations equal on `h` bytes. */
  ghost predicate Head(b: seq<int>, f: seq<int>, y: nat, h: nat)
    requires IsPerm(f, |b|) && y < |b|
  {
    y == 0 || Cmp(b, f[y - 1], f[y], h) != 0
  }

  ghost predicate Heads(b: seq<int>, f: seq<int>, bh: seq<bool>, h: nat)
    requires IsPerm(f, |b|)
  {
    && |b| <= |bh|
    && forall y :: 0 <= y < |b| ==> (bh[y] <==> Head(b, f, y, h))
  }

  lemma CmpOne(b: seq<int>, i: nat, j: nat)
    requires i < |b| && j < |b|
    ensures Cmp(b, i, j, 1) == if b[i] < b[j] then -1 else if b[i] > b[j] then 1 else 0
  {
  }

  lemma BucketsInverse(b: seq<int>, f: seq<int>)
    requires |f| == |b| && forall x :: 0 <= x < |b| ==> 0 <= BucketSlot(b, x) < |b| && f[BucketSlot(b, x)] == x
    ensures FirstColumn(b, f)
  {
    var slots := BucketSlots(b);
    forall y | 0 <= y < |b|
      ensures 0 <= f[y] < |b| && BucketSlot(b, f[y]) == y && IsFirstByte(b, y, b[f[y]])
    {
      var x := IndexOf(slots, |b|, y);
      assert slots[x] == BucketSlot(b, x);
      BucketSlotByte(b, x);
    }
  }

  lemma FirstColumnOrders(b: seq<int>, f: seq<int>)
    requires FirstColumn(b, f)
    ensures Orders(b, f, 1)
  {
    forall x, y | 0 <= x <= y < |b|
      ensures Cmp(b, f[x], f[y], 1) <= 0
    {
      CmpOne(b, f[x], f[y]);
      if b[f[y]] < b[f[x]] {
        CountBelowMonotone(b, |b|, b[f[y]], b[f[x]]);
        CountsBound(b, |b|, b[f[y]]);
      }
    }
  }

  /** Inside a bucket no bucket starts. */
  lemma NoStartInside(b: seq<int>, y: nat, c: int, e: int)
    requires 0 < y < |b| && IsFirstByte(b, y, c) && IsFirstByte(b, y - 1, c)
    ensures CountBelow(b, |b|, e) != y
  {
    hide CountBelow;
    if e <= c {
      BelowMonotone(b, e, c);
    } else {
      BelowMonotone(b, c + 1, e);
    }
  }

  /** Where the first byte changes a bucket starts. */
  lemma StartAtChange(b: seq<int>, y: nat, c: int, d: int)
    requires 0 < y < |b| && IsFirstByte(b, y, c) && IsFirstByte(b, y - 1, d) && c != d
    ensures CountBelow(b, |b|, c) == y
  {
    hide CountBelow;
    if c < d {
      BelowMonotone(b, c + 1, d);
    } else {
      BelowMonotone(b, d + 1, c);
    }
  }

  ghost predicate BucketStart(b: seq<int>, y: int) {
    exists c :: 0 <= c < 256 && CountBelow(b, |b|, c) == y
  }

  lemma FirstHeadIff(b: seq<int>, f: seq<int>, y: nat)
    requires FirstColumn(b, f) && y < |b|
    requires forall x :: 0 <= x < |b| ==> 0 <= b[x] < 256
    ensures BucketStart(b, y) <==> Head(b, f, y, 1)
  {
    if y == 0 {
      NoneBelowZero(b, |b|);
      assert CountBelow(b, |b|, 0) == y;
    } else {
      hide CountBelow;
      var c, d := b[f[y]], b[f[y - 1]];
      CmpOne(b, f[y - 1], f[y]);
      if c == d {
        forall e
          ensures CountBelow(b, |b|, e) != y
        {
          NoStartInside(b, y, c, e);
        }
      } else {
        StartAtChange(b, y, c, d);
      }
    }
  }

  /** The bits set at the bucket starts are exactly the heads at depth one. */
  lemma FirstHeads(b: seq<int>, f: seq<int>, bh: seq<bool>)
    requires FirstColumn(b, f) && |b| <= |bh|
    requires forall x :: 0 <= x < |b| ==> 0 <= b[x] < 256
    requires forall y :: 0 <= y < |b| ==> (bh[y] <==> BucketStart(b, y))
    ensures Heads(b, f, bh, 1)
  {
    forall y | 0 <= y < |b|
      ensures bh[y] <==> Head(b, f, y, 1)
    {
      FirstHeadIff(b, f, y);
    }
  }

  lemma BelowMonotone(b: seq<int>, c: int, d: int)
    ensures c <= d ==> CountBelow(b, |b|, c) <= CountBelow(b, |b|, d)
    ensures CountBelow(b, |b|, d) < CountBelow(b, |b|, c) ==> d < c
  {
    if c < d {
      CountBelowMonotone(b, |b|, c, d);
    }
  }

  // ----- Class numbers -----

  /** The start of the bucket position `i` is in: the last head at or before it. */
  ghost function BucketOf(bh: seq<bool>, i: nat): (r: nat)
    requires i < |bh| && bh[0]
    ensures r <= i && bh[r]
    decreases i
  {
    if bh[i] then i else BucketOf(bh, i - 1)
  }

  /** Positions compare as their bucket starts do. */
  lemma {:induction false} StartsCompare(b: seq<int>, f: seq<int>, bh: seq<bool>, h: nat, x: nat, y: nat)
    requires Orders(b, f, h) && Heads(b, f, bh, h) && x <= y < |b| && bh[0]
    ensures if Cmp(b, f[x], f[y], h) == 0 then BucketOf(bh, y) == BucketOf(bh, x)
        else BucketOf(bh, x) <= x < BucketOf(bh, y)
    decreases y
  {
    if x == y {
      CmpReflexive(b, f[x], h);
    } else {
      StartsCompare(b, f, bh, h, x, y - 1);
      assert Cmp(b, f[x], f[y - 1], h) <= 0 && Cmp(b, f[y - 1], f[y], h) <= 0;
      CmpTransitive(b, f[x], f[y - 1], f[y], h);
      assert bh[y] <==> Head(b, f, y, h);
      if Cmp(b, f[x], f[y - 1], h) == 0 && !bh[y] {
        CmpAntisymmetric(b, f[x], f[y - 1], h);
        CmpAntisymmetric(b, f[y - 1], f[y], h);
        CmpTransitive(b, f[y], f[y - 1], f[x], h);
        CmpAntisymmetric(b, f[y], f[x], h);
      }
    }
  }

  /** The position `h` places before `i`. */
  function Back(n: nat, i: nat, h: nat): (r: nat)
    requires i < n && h <= n
    ensures r < n && Shift(n, r, h) == i
  {
    if h <= i then i - h else i - h + n
  }

  /** `e` ranks every rotation by the `h` bytes that start `h` places on. */
  ghost predicate IsClass(b: seq<int>, e: seq<int>, h: nat)
    requires h <= |b|
  {
    && |e| >= |b|
    && (forall k :: 0 <= k < |b| ==> 0 <= e[k])
    && forall k, m :: 0 <= k < |b| && 0 <= m < |b| ==>
         (e[k] < e[m] <==> Cmp(b, Shift(|b|, k, h), Shift(|b|, m, h), h) < 0)
  }

  lemma StartsAreClasses(b: seq<int>, f: seq<int>, bh: seq<bool>, e: seq<int>, h: nat)
    requires h <= |b| <= |e| && Orders(b, f, h) && Heads(b, f, bh, h) && (|b| > 0 ==> bh[0])
    requires forall x :: 0 <= x < |b| ==> e[Back(|b|, f[x], h)] == BucketOf(bh, x)
    ensures IsClass(b, e, h)
  {
    var n := |b|;
    forall k, m | 0 <= k < n && 0 <= m < n
      ensures 0 <= e[k]
      ensures e[k] < e[m] <==> Cmp(b, Shift(n, k, h), Shift(n, m, h), h) < 0
    {
      var x, y := IndexOf(f, n, Shift(n, k, h)), IndexOf(f, n, Shift(n, m, h));
      assert Back(n, f[x], h) == k && Back(n, f[y], h) == m;
      if x <= y {
        StartsCompare(b, f, bh, h, x, y);
        assert Cmp(b, f[x], f[y], h) <= 0;
      } else {
        StartsCompare(b, f, bh, h, y, x);
        CmpAntisymmetric(b, f[y], f[x], h);
        assert Cmp(b, f[y], f[x], h) <= 0;
      }
    }
  }

  // ----- One pass: from depth h to depth 2h -----

  /** The pass has reached position `k`, the start of a bucket: below it everything is in order and
      marked to depth 2h, from it on to depth h. */
  ghost predicate Pass(b: seq<int>, f: seq<int>, bh: seq<bool>, k: nat, h: nat) {
    && 0 < h <= |b| <= |bh| && k <= |b| && bh[0]
    && FirstColumn(b, f) && Orders(b, f, h)
    && (k < |b| ==> bh[k])
    && (forall x, y :: 0 <= x <= y < k ==> Cmp(b, f[x], f[y], h + h) <= 0)
    && (forall y :: 0 <= y < k ==> (bh[y] <==> Head(b, f, y, h + h)))
    && (forall y :: k <= y < |b| ==> (bh[y] <==> Head(b, f, y, h)))
  }

  lemma CmpDeepens(b: seq<int>, i: nat, j: nat, h: nat)
    requires i < |b| && j < |b| && h <= |b|
    ensures Cmp(b, i, j, h) != 0 ==> Cmp(b, i, j, h + h) == Cmp(b, i, j, h)
  {
    CmpSplit(b, i, j, h, h);
  }

  /** Rotations on two sides of a head differ within `h` bytes. */
  lemma AcrossHead(b: seq<int>, f: seq<int>, x: nat, z: nat, y: nat, h: nat)
    requires Orders(b, f, h) && x < z <= y < |b| && Head(b, f, z, h)
    ensures Cmp(b, f[x], f[y], h) < 0
  {
    assert Cmp(b, f[x], f[z - 1], h) <= 0 && Cmp(b, f[z - 1], f[z], h) <= 0 && Cmp(b, f[z], f[y], h) <= 0;
    CmpTransitive(b, f[x], f[z - 1], f[z], h);
    CmpTransitive(b, f[x], f[z], f[y], h);
  }

  /** Buckets of one rotation need no work. */
  lemma PassSkip(b: seq<int>, f: seq<int>, bh: seq<bool>, k: nat, l: nat, h: nat)
    requires Pass(b, f, bh, k, h) && k <= l <= |b|
    requires forall y :: k <= y <= l && y < |b| ==> bh[y]
    ensures Pass(b, f, bh, l, h)
  {
    var g := h + h;
    forall y | k <= y < l
      ensures Head(b, f, y, g)
    {
      assert Head(b, f, y, h);
      if y > 0 {
        CmpDeepens(b, f[y - 1], f[y], h);
      }
    }
    forall x, y | 0 <= x <= y < l
      ensures Cmp(b, f[x], f[y], h + h) <= 0
    {
      SkippedPair(b, f, bh, k, x, y, h);
    }
  }

  lemma SkippedPair(b: seq<int>, f: seq<int>, bh: seq<bool>, k: nat, x: nat, y: nat, h: nat)
    requires Pass(b, f, bh, k, h) && x <= y < |b| && (k <= y ==> bh[y])
    ensures Cmp(b, f[x], f[y], h + h) <= 0
  {
    if x == y {
      CmpReflexive(b, f[x], h + h);
    } else if y >= k {
      assert Head(b, f, y, h);
      AcrossHead(b, f, x, y, y, h);
      CmpDeepens(b, f[x], f[y], h);
    }
  }

  /** Between heads, rotations agree on `h` bytes. */
  lemma {:induction false} BucketAgrees(b: seq<int>, f: seq<int>, l: nat, x: nat, h: nat)
    requires IsPerm(f, |b|) && l <= x < |b|
    requires forall y :: l < y <= x ==> !Head(b, f, y, h)
    ensures Cmp(b, f[l], f[x], h) == 0
    decreases x
  {
    if l == x {
      CmpReflexive(b, f[l], h);
    } else {
      BucketAgrees(b, f, l, x - 1, h);
      assert !Head(b, f, x, h);
      EqualTransitive(b, f[l], f[x - 1], f[x], h);
    }
  }

  lemma EqualTransitive(b: seq<int>, i: nat, j: nat, k: nat, h: nat)
    requires i < |b| && j < |b| && k < |b|
    requires Cmp(b, i, j, h) == 0 && Cmp(b, j, k, h) == 0
    ensures Cmp(b, i, k, h) == 0
  {
    CmpTransitive(b, i, j, k, h);
    CmpAntisymmetric(b, i, j, h);
    CmpAntisymmetric(b, j, k, h);
    CmpTransitive(b, k, j, i, h);
    CmpAntisymmetric(b, k, i, h);
  }

  /** Replacing both sides by rotations that agree with them does not change a comparison. */
  lemma CmpCongruent(b: seq<int>, i: nat, i2: nat, j: nat, j2: nat, h: nat)
    requires i < |b| && j < |b| && i2 < |b| && j2 < |b|
    requires Cmp(b, i, i2, h) == 0 && Cmp(b, j, j2, h) == 0
    ensures Cmp(b, i, j, h) == Cmp(b, i2, j2, h)
  {
    CmpAntisymmetric(b, i, i2, h);
    CmpAntisymmetric(b, j, j2, h);
    CmpAntisymmetric(b, i, j, h);
    CmpAntisymmetric(b, i2, j2, h);
    if Cmp(b, i, j, h) <= 0 {
      CmpTransitive(b, i2, i, j, h);
      CmpTransitive(b, i2, j, j2, h);
    }
    if Cmp(b, j, i, h) <= 0 {
      CmpTransitive(b, j2, j, i, h);
      CmpTransitive(b, j2, i, i2, h);
    }
    if Cmp(b, i2, j2, h) <= 0 {
      CmpTransitive(b, i, i2, j2, h);
      CmpTransitive(b, i, j2, j, h);
    }
    if Cmp(b, j2, i2, h) <= 0 {
      CmpTransitive(b, j, j2, i2, h);
      CmpTransitive(b, j, i2, i, h);
    }
  }

  /** `g` has, position by position, rotations that agree with those of `f` on `h` bytes. */
  ghost predicate Agree(b: seq<int>, f: seq<int>, g: seq<int>, h: nat) {
    && IsPerm(f, |b|) && IsPerm(g, |b|)
    && forall x :: 0 <= x < |b| ==> Cmp(b, f[x], g[x], h) == 0
  }

  lemma BucketRearranged(b: seq<int>, f: seq<int>, g: seq<int>, l: nat, r: nat, h: nat)
    requires IsPerm(f, |b|) && l <= r < |b| && Rearranged(f, g, l, r)
    requires forall y :: l < y <= r ==> !Head(b, f, y, h)
    ensures Agree(b, f, g, h)
  {
    MultisetPerm(f, g, |b|);
    forall x | 0 <= x < |b|
      ensures Cmp(b, f[x], g[x], h) == 0
    {
      if l <= x <= r {
        var z := ComesFrom(f, g, l, r, x);
        BucketAgrees(b, f, l, x, h);
        BucketAgrees(b, f, l, z, h);
        CmpAntisymmetric(b, f[l], f[x], h);
        EqualTransitive(b, f[x], f[l], f[z], h);
      } else {
        CmpReflexive(b, f[x], h);
      }
    }
  }

  lemma AgreeOrders(b: seq<int>, f: seq<int>, g: seq<int>, h: nat)
    requires Agree(b, f, g, h) && Orders(b, f, h)
    ensures Orders(b, g, h)
    ensures forall y :: 0 <= y < |b| ==> (Head(b, f, y, h) <==> Head(b, g, y, h))
  {
    forall x, y | 0 <= x <= y < |b|
      ensures Cmp(b, g[x], g[y], h) <= 0
    {
      CmpCongruent(b, f[x], g[x], f[y], g[y], h);
    }
    forall y | 0 <= y < |b|
      ensures Head(b, f, y, h) <==> Head(b, g, y, h)
    {
      if y > 0 {
        CmpCongruent(b, f[y - 1], g[y - 1], f[y], g[y], h);
      }
    }
  }

  lemma AgreeFirstColumn(b: seq<int>, f: seq<int>, g: seq<int>, h: nat)
    requires Agree(b, f, g, h) && FirstColumn(b, f) && 0 < h
    ensures FirstColumn(b, g)
  {
    forall y | 0 <= y < |b|
      ensures IsFirstByte(b, y, b[g[y]])
    {
      assert Cmp(b, f[y], g[y], h) == 0;
      assert b[f[y]] == b[g[y]];
      assert IsFirstByte(b, y, b[f[y]]);
    }
  }

  /** Two rotations that agree on `h` bytes compare to depth 2h as their classes do. */
  lemma ClassDecides(b: seq<int>, e: seq<int>, k: nat, m: nat, h: nat)
    requires h <= |b| && IsClass(b, e, h) && k < |b| && m < |b| && Cmp(b, k, m, h) == 0
    ensures e[k] <= e[m] <==> Cmp(b, k, m, h + h) <= 0
    ensures e[k] == e[m] <==> Cmp(b, k, m, h + h) == 0
  {
    CmpSplit(b, k, m, h, h);
    CmpAntisymmetric(b, Shift(|b|, k, h), Shift(|b|, m, h), h);
  }

  /** The bits of the bucket l..r after it has been sorted by class: the old head, and a new one
      wherever the class changes. */
  ghost predicate Marked(g: seq<int>, e: seq<int>, bh: seq<bool>, bh2: seq<bool>, l: nat, r: nat)
    requires l <= r < |g| && Indexes(g, e, 0, l, r)
  {
    && |bh| == |bh2| && r < |bh|
    && (forall y :: 0 <= y < |bh| && (y < l || r < y) ==> bh2[y] == bh[y])
    && (forall y :: l <= y <= r ==> (bh2[y] <==> y == l || e[g[y]] != e[g[y - 1]]))
  }

  /** A bucket sorted by class is in order to depth 2h. */
  lemma SortedBucket(b: seq<int>, g: seq<int>, e: seq<int>, l: nat, r: nat, x: nat, y: nat, h: nat)
    requires IsPerm(g, |b|) && h <= |b| && IsClass(b, e, h) && l <= x <= y <= r < |b|
    requires SortedRange(g, e, 0, l, r) && Cmp(b, g[x], g[y], h) == 0
    ensures Cmp(b, g[x], g[y], h + h) <= 0
    ensures Cmp(b, g[x], g[y], h + h) == 0 <==> e[g[x]] == e[g[y]]
  {
    assert KeyAt(g, e, 0, x) <= KeyAt(g, e, 0, y);
    ClassDecides(b, e, g[x], g[y], h);
  }

  /** What the pass knows about its next bucket. */
  ghost predicate Bucket(b: seq<int>, f: seq<int>, bh: seq<bool>, l: nat, r: nat, h: nat) {
    && Pass(b, f, bh, l, h) && l <= r < |b|
    && (forall y :: l < y <= r ==> !bh[y])
    && (r + 1 < |b| ==> bh[r + 1])
  }

  lemma BucketOrder(b: seq<int>, f: seq<int>, g: seq<int>, bh: seq<bool>, e: seq<int>, l: nat, r: nat, h: nat)
    requires Bucket(b, f, bh, l, r, h) && IsClass(b, e, h)
    requires Rearranged(f, g, l, r) && SortedRange(g, e, 0, l, r)
    ensures Agree(b, f, g, h) && Orders(b, g, h) && FirstColumn(b, g)
    ensures forall x, y :: 0 <= x <= y <= r ==> Cmp(b, g[x], g[y], h + h) <= 0
  {
    assert forall y :: l < y <= r ==> !Head(b, f, y, h);
    BucketRearranged(b, f, g, l, r, h);
    AgreeOrders(b, f, g, h);
    AgreeFirstColumn(b, f, g, h);
    forall x, y | 0 <= x <= y <= r
      ensures Cmp(b, g[x], g[y], h + h) <= 0
    {
      PairInOrder(b, f, g, bh, e, l, r, x, y, h);
    }
  }

  lemma PairInOrder(b: seq<int>, f: seq<int>, g: seq<int>, bh: seq<bool>, e: seq<int>, l: nat, r: nat, x: nat, y: nat,
                    h: nat)
    requires Bucket(b, f, bh, l, r, h) && IsClass(b, e, h)
    requires Rearranged(f, g, l, r) && SortedRange(g, e, 0, l, r)
    requires Agree(b, f, g, h) && Orders(b, g, h) && x <= y <= r
    ensures Cmp(b, g[x], g[y], h + h) <= 0
  {
    if l <= x {
      BucketAgrees(b, f, l, x, h);
      BucketAgrees(b, f, l, y, h);
      CmpAntisymmetric(b, f[l], f[x], h);
      EqualTransitive(b, f[x], f[l], f[y], h);
      CmpCongruent(b, f[x], g[x], f[y], g[y], h);
      SortedBucket(b, g, e, l, r, x, y, h);
    } else if y < l {
      assert Cmp(b, f[x], f[y], h + h) <= 0;
    } else {
      assert Head(b, f, l, h);
      AcrossHead(b, f, x, l, y, h);
      CmpCongruent(b, f[x], g[x], f[y], g[y], h);
      CmpDeepens(b, g[x], g[y], h);
    }
  }

  lemma MarkedHeads(b: seq<int>, f: seq<int>, g: seq<int>, bh: seq<bool>, bh2: seq<bool>, e: seq<int>, l: nat, r: nat,
                    y: nat, h: nat)
    requires Bucket(b, f, bh, l, r, h) && IsClass(b, e, h)
    requires Rearranged(f, g, l, r) && SortedRange(g, e, 0, l, r)
    requires Indexes(g, e, 0, l, r) && Marked(g, e, bh, bh2, l, r)
    requires Agree(b, f, g, h) && y < |b|
    ensures bh2[y] <==> if y <= r then Head(b, g, y, h + h) else Head(b, g, y, h)
  {
    if l < y <= r {
      BucketAgrees(b, f, l, y, h);
      BucketAgrees(b, f, l, y - 1, h);
      CmpAntisymmetric(b, f[l], f[y - 1], h);
      EqualTransitive(b, f[y - 1], f[l], f[y], h);
      CmpCongruent(b, f[y - 1], g[y - 1], f[y], g[y], h);
      SortedBucket(b, g, e, l, r, y - 1, y, h);
    } else if y == l {
      assert Head(b, f, l, h);
      if l > 0 {
        CmpCongruent(b, f[l - 1], g[l - 1], f[l], g[l], h);
        CmpDeepens(b, g[l - 1], g[l], h);
      }
    } else if y < l {
      assert bh[y] <==> Head(b, f, y, h + h);
    } else {
      assert bh[y] <==> Head(b, f, y, h);
      CmpCongruent(b, f[y - 1], g[y - 1], f[y], g[y], h);
    }
  }

  /** Sorting a bucket by class and marking it carries the pass past it. */
  lemma PassSort(b: seq<int>, f: seq<int>, g: seq<int>, bh: seq<bool>, bh2: seq<bool>, e: seq<int>, l: nat, r: nat,
                 h: nat)
    requires Bucket(b, f, bh, l, r, h) && IsClass(b, e, h)
    requires Rearranged(f, g, l, r) && SortedRange(g, e, 0, l, r)
    requires Indexes(g, e, 0, l, r) && Marked(g, e, bh, bh2, l, r)
    ensures Pass(b, g, bh2, r + 1, h)
  {
    BucketOrder(b, f, g, bh, e, l, r, h);
    forall y | 0 <= y < |b|
      ensures bh2[y] <==> if y <= r then Head(b, g, y, h + h) else Head(b, g, y, h)
    {
      MarkedHeads(b, f, g, bh, bh2, e, l, r, y, h);
    }
  }

  /** A finished pass is a listing in order and marked to twice the depth. */
  lemma PassDone(b: seq<int>, f: seq<int>, bh: seq<bool>, h: nat)
    requires Pass(b, f, bh, |b|, h)
    ensures FirstColumn(b, f) && Orders(b, f, h + h) && Heads(b, f, bh, h + h)
  {
  }

  lemma PassStarts(b: seq<int>, f: seq<int>, bh: seq<bool>, h: nat)
    requires 0 < h <= |b| && FirstColumn(b, f) && Orders(b, f, h) && Heads(b, f, bh, h)
    ensures Pass(b, f, bh, 0, h)
  {
  }

  /** The loop may stop once the depth has reached the block length, or once every rotation is a
      bucket of its own. */
  lemma SortedAtLast(b: seq<int>, f: seq<int>, bh: seq<bool>, h: nat)
    requires Orders(b, f, h) && Heads(b, f, bh, h)
    requires h > |b| || forall y :: 0 <= y < |b| ==> bh[y]
    ensures SortedRotations(b, f)
  {
    forall x, y | 0 <= x <= y < |b|
      ensures RotLe(b, f[x], f[y])
    {
      CmpDecided(b, f[x], f[y], h);
      if x == y {
        CmpReflexive(b, f[x], |b|);
      } else if h <= |b| {
        assert bh[y] && Head(b, f, y, h);
        AcrossHead(b, f, x, y, y, h);
      }
    }
  }
}
