/** mainQSort3 (blocksort.c): three-way string quicksort of rotations, on an explicit stack of 100
    ranges that it provably never overruns. */
module MainQSort {
  import opened Rotations
  import opened ThreeWay
  import opened ShellSort
  import opened MainOrder
  import opened MainSimple

  const STACK_SIZE := 100
  const SMALL_THRESH := 20
  /** BZ_N_RADIX + BZ_N_QSORT. */
  const DEPTH_THRESH := 14

  /** A range, and how many bytes its entries are known to share. */
  datatype Part = Part(lo: int, hi: int, d: nat)

  ghost function Size(p: Part): nat { if p.hi < p.lo then 0 else p.hi - p.lo + 1 }

  /** The ranges without their depths. */
  ghost function Ranges(st: seq<Part>): (r: seq<(int, int)>)
    ensures |r| == |st| && forall s :: 0 <= s < |st| ==> r[s] == (st[s].lo, st[s].hi)
  {
    seq(|st|, s requires 0 <= s < |st| => (st[s].lo, st[s].hi))
  }

  lemma RangesAppend(st: seq<Part>, more: seq<Part>)
    ensures Ranges(st + more) == Ranges(st) + Ranges(more)
  { }

  // ----- How deep the stack gets -----

  /** 2^(s/2). */
  ghost function HalfPow(s: nat): nat { if s < 2 then 1 else 2 * HalfPow(s - 2) }

  lemma {:induction false} HalfPowGrows(s: nat)
    ensures HalfPow(s) <= HalfPow(s + 1) <= 2 * HalfPow(s)
  {
    if s >= 2 { HalfPowGrows(s - 2); }
  }

  lemma {:induction false} HalfPowMonotone(s: nat, t: nat)
    requires s <= t
    ensures HalfPow(s) <= HalfPow(t)
    decreases t
  {
    if s < t {
      HalfPowMonotone(s, t - 1);
      HalfPowGrows(t - 1);
    }
  }

  /** Two levels up the stack the ranges are at most half as long. */
  ghost predicate Shrinking(st: seq<Part>, total: nat) {
    forall s :: 0 <= s < |st| ==> Size(st[s]) * HalfPow(s) <= total
  }

  lemma ShrinkingTop(below: seq<Part>, top: Part, total: nat)
    requires Shrinking(below + [top], total)
    ensures Shrinking(below, total) && Size(top) * HalfPow(|below|) <= total
  {
    hide HalfPow, Size;
    var st := below + [top];
    assert st[|below|] == top;
    forall s | 0 <= s < |below|
      ensures Size(below[s]) * HalfPow(s) <= total
    {
      assert st[s] == below[s];
    }
  }

  lemma ShrinkingPush(below: seq<Part>, x: Part, total: nat)
    requires Shrinking(below, total) && Size(x) * HalfPow(|below|) <= total
    ensures Shrinking(below + [x], total)
  {
    hide HalfPow, Size;
  }

  lemma Scaled(x: nat, y: nat, p: nat)
    requires x <= y
    ensures x * p <= y * p && p * x <= p * y
  { }

  /** The largest part goes lowest. */
  lemma ShrinkingThree(below: seq<Part>, top: Part, x: Part, y: Part, z: Part, total: nat)
    requires Shrinking(below + [top], total) && Size(x) >= Size(y) >= Size(z) &&
        Size(x) + Size(y) + Size(z) == Size(top)
    ensures Shrinking(below + [x, y, z], total)
  {
    hide HalfPow, Size, Shrinking;
    var k := |below|;
    ShrinkingTop(below, top, total);
    var a, b, c, n := Size(x), Size(y), Size(z), Size(top);
    HalfPowGrows(k);
    HalfPowTwo(k);
    var p := HalfPow(k);
    Scaled(a, n, p);
    Scaled(2 * b, n, p);
    Scaled(2 * c, n, p);
    Scaled(HalfPow(k + 1), 2 * p, b);
    assert b * HalfPow(k + 1) <= b * (2 * p) == (2 * b) * p;
    assert c * (2 * p) == (2 * c) * p;
    ShrinkingPush(below, x, total);
    ShrinkingPush(below + [x], y, total);
    ShrinkingPush(below + [x] + [y], z, total);
    assert below + [x] + [y] + [z] == below + [x, y, z];
  }

  lemma HalfPowTwo(k: nat)
    ensures HalfPow(k + 2) == 2 * HalfPow(k)
  { }

  /** A range worth splitting lies below slot 32. */
  lemma SplitLow(below: seq<Part>, top: Part, total: nat)
    requires Shrinking(below + [top], total) && total <= 900000 && Size(top) > SMALL_THRESH
    ensures |below| < 32
  {
    ShrinkingTop(below, top, total);
    if |below| >= 32 {
      HalfPowMonotone(32, |below|);
      HalfPowAt32();
      hide HalfPow;
      Scaled(21, Size(top), HalfPow(|below|));
    }
  }

  lemma HalfPowAt32()
    ensures HalfPow(32) == 65536
  {
    assert HalfPow(16) == 256;
  }

  // ----- Termination -----

  ghost function Weight(st: seq<Part>): nat {
    if st == [] then 0 else Weight(st[..|st| - 1]) + Cost(st[|st| - 1])
  }

  /** What can still happen to a range: splits, and looks one byte deeper. */
  ghost function Cost(p: Part): nat {
    1 + 3 * Size(p) * (if p.d < 17 then 17 - p.d else 0)
  }

  lemma WeightTop(below: seq<Part>, top: Part)
    ensures Weight(below + [top]) == Weight(below) + Cost(top)
  {
    assert (below + [top])[..|below|] == below;
  }

  lemma WeightThree(below: seq<Part>, top: Part, x: Part, y: Part, z: Part)
    requires Cost(x) + Cost(y) + Cost(z) < Cost(top)
    ensures Weight(below + [x, y, z]) < Weight(below + [top])
  {
    hide Cost;
    WeightTop(below, top);
    WeightTop(below, x);
    WeightTop(below + [x], y);
    WeightTop(below + [x] + [y], z);
    assert below + [x] + [y] + [z] == below + [x, y, z];
  }

  lemma SplitCost(top: Part, n: int, m: int)
    requires top.lo - 1 <= n && n + 1 < m <= top.hi + 1 && top.d <= 15
    ensures Cost(Part(top.lo, n, top.d)) + Cost(Part(m, top.hi, top.d)) + Cost(Part(n + 1, m - 1, top.d + 1))
            < Cost(top)
  {
    var a, b, c, k := n - top.lo + 1, top.hi - m + 1, m - 1 - n, 17 - top.d;
    assert Size(top) == a + b + c;
    assert (a + b + c) * k == a * k + b * k + c * k;
    assert c * (k - 1) == c * k - c;
  }

  // ----- The parts of a split -----

  /** The three parts in some order. */
  ghost predicate ThreeOf(a: Part, b: Part, c: Part, x: Part, y: Part, z: Part) {
    || (x, y, z) == (a, b, c) || (x, y, z) == (a, c, b) || (x, y, z) == (b, a, c)
    || (x, y, z) == (b, c, a) || (x, y, z) == (c, a, b) || (x, y, z) == (c, b, a)
  }

  /** mnextsize. */
  function NextSize(p: Part): int { p.hi - p.lo }

  /** The three conditional mnextswaps: largest part first. */
  method BySize(a: Part, b: Part, c: Part) returns (x: Part, y: Part, z: Part)
    ensures ThreeOf(a, b, c, x, y, z) && NextSize(x) >= NextSize(y) >= NextSize(z)
  {
    var next := new Part[3];
    next[0], next[1], next[2] := a, b, c;
    if NextSize(next[0]) < NextSize(next[1]) { next[0], next[1] := next[1], next[0]; }
    if NextSize(next[1]) < NextSize(next[2]) { next[1], next[2] := next[2], next[1]; }
    if NextSize(next[0]) < NextSize(next[1]) { next[0], next[1] := next[1], next[0]; }
    x, y, z := next[0], next[1], next[2];
  }

  /** mmed3. */
  function Med3(a0: int, b0: int, c0: int): (m: int)
    ensures m == a0 || m == b0 || m == c0
    ensures (a0 <= m || b0 <= m) && (a0 <= m || c0 <= m) && (b0 <= m || c0 <= m)
    ensures (m <= a0 || m <= b0) && (m <= a0 || m <= c0) && (m <= b0 || m <= c0)
  {
    var a, b := if a0 > b0 then b0 else a0, if a0 > b0 then a0 else b0;
    if b > c0 then (if a > c0 then a else c0) else b
  }

  // ----- What a split settles -----

  lemma KeyDecides(b: seq<int>, block: seq<int>, u: int, v: int, d: nat)
    requires Overshot(b, block) && d <= 15 && Agree(b, u, v, d)
    ensures u + d < |block| && v + d < |block|
    ensures block[u + d] == block[v + d] ==> Agree(b, u, v, d + 1)
    ensures block[u + d] < block[v + d] ==> RotOrder(b)(u, v)
  {
    CmpSplit(b, u, v, d, 1);
    var p, q := Shift(|b|, u, d), Shift(|b|, v, d);
    assert Wrap(|b|, u + d) == p && Wrap(|b|, v + d) == q;
    assert Cmp(b, Next(|b|, p), Next(|b|, q), 0) == 0;
    CmpDecided(b, u, v, d + 1);
  }

  lemma PrefixedIndexes(b: seq<int>, block: seq<int>, f: seq<int>, lo: int, hi: int, d: nat)
    requires Overshot(b, block) && d <= 15 && Prefixed(b, f, lo, hi, d)
    ensures Indexes(f, block, d, lo, hi)
  {
    forall x | lo <= x <= hi
      ensures 0 <= f[x] && f[x] + d < |block|
    {
      PrefixedPair(b, f, lo, hi, d, x, x);
    }
  }

  lemma KeyIs(b: seq<int>, block: seq<int>, f: seq<int>, lo: int, hi: int, d: nat, x: int)
    requires Overshot(b, block) && d <= 15 && Prefixed(b, f, lo, hi, d) && lo <= x <= hi
    ensures 0 <= f[x] && f[x] + d < |block| && KeyAt(f, block, d, x) == block[f[x] + d]
  {
    PrefixedIndexes(b, block, f, lo, hi, d);
  }

  /** Entries with equal keys share one byte more. */
  lemma EqualDeeper(b: seq<int>, block: seq<int>, f: seq<int>, lo: int, hi: int, d: nat, lo2: int, hi2: int, med: int)
    requires Overshot(b, block) && d <= 15 && Prefixed(b, f, lo, hi, d) && lo <= lo2 && hi2 <= hi
    requires forall x :: lo2 <= x <= hi2 ==> KeyAt(f, block, d, x) == med
    ensures Prefixed(b, f, lo2, hi2, d + 1)
  {
    hide Agree, Overshot, KeyAt;
    forall x, y | lo2 <= x <= hi2 && lo2 <= y <= hi2
      ensures Agree(b, f[x], f[y], d + 1)
    {
      PrefixedPair(b, f, lo, hi, d, x, y);
      KeyIs(b, block, f, lo, hi, d, x);
      KeyIs(b, block, f, lo, hi, d, y);
      KeyDecides(b, block, f[x], f[y], d);
    }
  }

  /** Entries of different parts are in order. */
  lemma PartsOrdered(b: seq<int>, block: seq<int>, f: seq<int>, d: nat, med: int, lo: int, n: int, m: int, hi: int,
                     x: int, y: int)
    requires Overshot(b, block) && d <= 15 && Prefixed(b, f, lo, hi, d) && Split(f, block, d, med, lo, n, m, hi)
    requires lo <= x < y <= hi
    ensures RotOrder(b)(f[x], f[y]) || y <= n || m <= x || (n + 1 <= x && y <= m - 1)
  {
    hide Agree, Overshot, RotOrder;
    PrefixedPair(b, f, lo, hi, d, x, y);
    KeyIs(b, block, f, lo, hi, d, x);
    KeyIs(b, block, f, lo, hi, d, y);
    KeyDecides(b, block, f[x], f[y], d);
    hide KeyAt;
  }

  // ----- What the outer loop keeps -----

  /** Every range on the stack shares its depth. */
  ghost predicate Deep(b: seq<int>, f: seq<int>, st: seq<Part>) {
    forall s :: 0 <= s < |st| ==> st[s].d <= 15 && Prefixed(b, f, st[s].lo, st[s].hi, st[s].d)
  }

  ghost predicate Sorting(b: seq<int>, f0: seq<int>, f: seq<int>, st: seq<Part>, lo: int, hi: int) {
    && 0 <= lo <= hi < |f| && Rearranged(f0, f, lo, hi)
    && Apart(Ranges(st), lo, hi) && Shrinking(st, hi - lo + 1)
    && OrderedBut(f, RotOrder(b), Ranges(st), lo, hi) && Deep(b, f, st)
  }

  lemma TopFacts(b: seq<int>, f0: seq<int>, f: seq<int>, below: seq<Part>, top: Part, lo: int, hi: int)
    requires Sorting(b, f0, f, below + [top], lo, hi) && hi - lo + 1 <= 900000
    ensures 0 <= lo <= top.lo <= top.hi + 1 && top.hi <= hi < |f|
    ensures top.d <= 15 && Prefixed(b, f, top.lo, top.hi, top.d)
    ensures top.hi - top.lo >= SMALL_THRESH ==> |below| < 32
  {
    hide OrderedBut, RotOrder, Prefixed, Rearranged, HalfPow;
    var st := below + [top];
    assert st[|below|] == top && Ranges(st)[|below|] == (top.lo, top.hi);
    if top.hi - top.lo >= SMALL_THRESH { SplitLow(below, top, hi - lo + 1); }
  }

  /** The ranges below do not notice what happens in the top range. */
  lemma DeepBelow(b: seq<int>, f: seq<int>, g: seq<int>, below: seq<Part>, top: Part, lo: int, hi: int)
    requires Deep(b, f, below + [top]) && Apart(Ranges(below + [top]), lo, hi) && Rearranged(f, g, top.lo, top.hi)
    ensures Deep(b, g, below)
  {
    hide Agree, SameBag;
    var st := below + [top];
    forall s | 0 <= s < |below|
      ensures below[s].d <= 15 && Prefixed(b, g, below[s].lo, below[s].hi, below[s].d)
    {
      assert st[s] == below[s] && st[|below|] == top;
      assert Ranges(st)[s] == (below[s].lo, below[s].hi) && Ranges(st)[|below|] == (top.lo, top.hi);
      assert forall x :: below[s].lo <= x <= below[s].hi ==> g[x] == f[x];
    }
  }

  lemma DeepPush(b: seq<int>, g: seq<int>, below: seq<Part>, x: Part)
    requires Deep(b, g, below) && x.d <= 15 && Prefixed(b, g, x.lo, x.hi, x.d)
    ensures Deep(b, g, below + [x])
  { hide Prefixed; }

  /** The top range gives way to `children`. */
  lemma Replace(b: seq<int>, f0: seq<int>, f: seq<int>, g: seq<int>, below: seq<Part>, top: Part, children: seq<Part>,
                lo: int, hi: int)
    requires Sorting(b, f0, f, below + [top], lo, hi) && Rearranged(f, g, top.lo, top.hi)
    requires Apart(Ranges(children), top.lo, top.hi) && 0 <= top.lo && top.hi < |g| &&
        OrderedBut(g, RotOrder(b), Ranges(children), top.lo, top.hi)
    requires Deep(b, g, below + children) && Shrinking(below + children, hi - lo + 1)
    ensures Sorting(b, f0, g, below + children, lo, hi)
  {
    var st := below + [top];
    assert st[|below|] == top && Ranges(st)[|below|] == (top.lo, top.hi);
    RangesAppend(below, [top]);
    assert Ranges([top]) == [(top.lo, top.hi)];
    RangesAppend(below, children);
    hide OrderedBut, RotOrder, Deep, Shrinking, SameBag, SameOutside, Ranges;
    TopInside(Ranges(below), (top.lo, top.hi), lo, hi);
    StackStep(f, g, RotOrder(b), Ranges(below), (top.lo, top.hi), Ranges(children), lo, hi);
    ApartRefined(Ranges(below), (top.lo, top.hi), Ranges(children), lo, hi);
    RearrangedWiden(f, g, top.lo, top.hi, lo, hi);
    RearrangedTrans(f0, f, g, lo, hi);
  }

  lemma SortingParts(b: seq<int>, f0: seq<int>, f: seq<int>, st: seq<Part>, lo: int, hi: int)
    requires Sorting(b, f0, f, st, lo, hi)
    ensures Apart(Ranges(st), lo, hi) && Shrinking(st, hi - lo + 1) && Deep(b, f, st) && 0 <= lo <= hi < |f|
  { }

  /** A range that is in order leaves the stack. */
  lemma RangeDone(b: seq<int>, f0: seq<int>, f: seq<int>, g: seq<int>, below: seq<Part>, top: Part, lo: int, hi: int)
    requires Sorting(b, f0, f, below + [top], lo, hi)
    requires Rearranged(f, g, top.lo, top.hi) && Ascending(g, RotOrder(b), top.lo, top.hi)
    ensures Sorting(b, f0, g, below, lo, hi)
  {
    SortingParts(b, f0, f, below + [top], lo, hi);
    InOrder(g, RotOrder(b), top.lo, top.hi);
    assert Ranges([]) == [];
    hide Sorting, OrderedBut, RotOrder, Deep, Shrinking, Rearranged, Ascending, Ranges;
    DeepBelow(b, f, g, below, top, lo, hi);
    ShrinkingTop(below, top, hi - lo + 1);
    assert below + [] == below;
    Replace(b, f0, f, g, below, top, [], lo, hi);
  }

  lemma InOrder(g: seq<int>, le: (int, int) -> bool, lo: int, hi: int)
    requires Ascending(g, le, lo, hi)
    ensures 0 <= lo && hi < |g| && OrderedBut(g, le, [], lo, hi)
  { }

  /** A range whose keys are all equal is looked at one byte deeper. */
  lemma RangeDeeper(b: seq<int>, block: seq<int>, f0: seq<int>, f: seq<int>, g: seq<int>, below: seq<Part>, top: Part,
                    med: int, lo: int, hi: int)
    requires Sorting(b, f0, f, below + [top], lo, hi) && Overshot(b, block) && top.d < 15 && 0 <= top.lo <= top.hi < |g|
    requires Rearranged(f, g, top.lo, top.hi) && Prefixed(b, g, top.lo, top.hi, top.d)
    requires forall x :: top.lo <= x <= top.hi ==> KeyAt(g, block, top.d, x) == med
    ensures Sorting(b, f0, g, below + [Part(top.lo, top.hi, top.d + 1)], lo, hi)
  {
    SortingParts(b, f0, f, below + [top], lo, hi);
    var deeper := Part(top.lo, top.hi, top.d + 1);
    OneRange(g, RotOrder(b), deeper);
    hide Sorting, OrderedBut, RotOrder, Deep, Shrinking, Rearranged, Ranges, KeyAt, Overshot;
    DeepBelow(b, f, g, below, top, lo, hi);
    ShrinkingTop(below, top, hi - lo + 1);
    ShrinkingPush(below, deeper, hi - lo + 1);
    EqualDeeper(b, block, g, top.lo, top.hi, top.d, top.lo, top.hi, med);
    hide Prefixed;
    DeepPush(b, g, below, deeper);
    Replace(b, f0, f, g, below, top, [deeper], lo, hi);
  }

  lemma OneRange(g: seq<int>, le: (int, int) -> bool, p: Part)
    requires 0 <= p.lo <= p.hi < |g|
    ensures Apart(Ranges([p]), p.lo, p.hi) && OrderedBut(g, le, Ranges([p]), p.lo, p.hi)
  {
    assert Ranges([p]) == [(p.lo, p.hi)];
    assert forall x, y :: p.lo <= x < y <= p.hi ==> InSome([(p.lo, p.hi)], x, y) by {
      assert [(p.lo, p.hi)][0] == (p.lo, p.hi);
    }
  }

  /** Three ranges side by side, in any order, cover every pair that is not in order yet. */
  lemma ThreeRanges(b: seq<int>, block: seq<int>, g: seq<int>, top: Part, med: int, n: int, m: int, x: Part, y: Part,
                    z: Part)
    requires Overshot(b, block) && top.d <= 15 && 0 <= top.lo <= top.hi < |g| && Prefixed(b, g, top.lo, top.hi, top.d)
    requires Split(g, block, top.d, med, top.lo, n, m, top.hi)
    requires ThreeOf(Part(top.lo, n, top.d), Part(m, top.hi, top.d), Part(n + 1, m - 1, top.d + 1), x, y, z)
    ensures Apart(Ranges([x, y, z]), top.lo, top.hi) && OrderedBut(g, RotOrder(b), Ranges([x, y, z]), top.lo, top.hi)
  {
    var rs := Ranges([x, y, z]);
    assert rs == [(x.lo, x.hi), (y.lo, y.hi), (z.lo, z.hi)];
    assert top.lo - 1 <= n < m <= top.hi + 1;
    hide Ranges;
    assert rs[0] == (x.lo, x.hi) && rs[1] == (y.lo, y.hi) && rs[2] == (z.lo, z.hi);
    forall i, j | top.lo <= i < j <= top.hi
      ensures RotOrder(b)(g[i], g[j]) || InSome(rs, i, j)
    {
      hide Split, Prefixed, Overshot, RotOrder;
      PartsOrdered(b, block, g, top.d, med, top.lo, n, m, top.hi, i, j);
      if x.lo <= i && j <= x.hi { assert InSome(rs, i, j); }
      if y.lo <= i && j <= y.hi { assert InSome(rs, i, j); }
      if z.lo <= i && j <= z.hi { assert InSome(rs, i, j); }
    }
  }

  /** A split range is replaced by its three parts, the largest lowest. */
  lemma RangeSplit(b: seq<int>, block: seq<int>, f0: seq<int>, f: seq<int>, g: seq<int>, below: seq<Part>, top: Part,
                   med: int, n: int, m: int,
                   x: Part, y: Part, z: Part, lo: int, hi: int)
    requires Sorting(b, f0, f, below + [top], lo, hi) && Overshot(b, block) && top.d < 15 && 0 <= top.lo <= top.hi < |g|
    requires Rearranged(f, g, top.lo, top.hi) && Prefixed(b, g, top.lo, top.hi, top.d)
    requires Split(g, block, top.d, med, top.lo, n, m, top.hi) && n + 1 < m
    requires ThreeOf(Part(top.lo, n, top.d), Part(m, top.hi, top.d), Part(n + 1, m - 1, top.d + 1), x, y, z)
    requires NextSize(x) >= NextSize(y) >= NextSize(z)
    ensures Sorting(b, f0, g, below + [x, y, z], lo, hi)
    ensures Weight(below + [x, y, z]) < Weight(below + [top])
  {
    SortingParts(b, f0, f, below + [top], lo, hi);
    ThreeRanges(b, block, g, top, med, n, m, x, y, z);
    ThreeDeep(b, block, g, top, med, n, m, x, y, z);
    ThreeSizes(g, block, top, med, n, m, x, y, z);
    hide Sorting, OrderedBut, RotOrder, Deep, Shrinking, Rearranged, Ranges, KeyAt, Overshot, Prefixed, Split, ThreeOf;
    hide Apart, Weight, Cost;
    WeightThree(below, top, x, y, z);
    DeepBelow(b, f, g, below, top, lo, hi);
    DeepPush(b, g, below, x);
    DeepPush(b, g, below + [x], y);
    DeepPush(b, g, below + [x] + [y], z);
    assert below + [x] + [y] + [z] == below + [x, y, z];
    ShrinkingThree(below, top, x, y, z, hi - lo + 1);
    Replace(b, f0, f, g, below, top, [x, y, z], lo, hi);
  }

  lemma ThreeDeep(b: seq<int>, block: seq<int>, g: seq<int>, top: Part, med: int, n: int, m: int, x: Part, y: Part,
                  z: Part)
    requires Overshot(b, block) && top.d < 15 && 0 <= top.lo <= top.hi < |g| && Prefixed(b, g, top.lo, top.hi, top.d)
    requires Split(g, block, top.d, med, top.lo, n, m, top.hi)
    requires ThreeOf(Part(top.lo, n, top.d), Part(m, top.hi, top.d), Part(n + 1, m - 1, top.d + 1), x, y, z)
    ensures x.d <= 15 && Prefixed(b, g, x.lo, x.hi, x.d)
    ensures y.d <= 15 && Prefixed(b, g, y.lo, y.hi, y.d)
    ensures z.d <= 15 && Prefixed(b, g, z.lo, z.hi, z.d)
  {
    hide Overshot, KeyAt, Prefixed;
    PrefixedPart(b, g, top.lo, top.hi, top.d, top.lo, n);
    PrefixedPart(b, g, top.lo, top.hi, top.d, m, top.hi);
    EqualDeeper(b, block, g, top.lo, top.hi, top.d, n + 1, m - 1, med);
  }

  lemma ThreeSizes(g: seq<int>, block: seq<int>, top: Part, med: int, n: int, m: int, x: Part, y: Part, z: Part)
    requires 0 <= top.lo <= top.hi && top.d < 15 && Split(g, block, top.d, med, top.lo, n, m, top.hi) && n + 1 < m
    requires ThreeOf(Part(top.lo, n, top.d), Part(m, top.hi, top.d), Part(n + 1, m - 1, top.d + 1), x, y, z)
    requires NextSize(x) >= NextSize(y) >= NextSize(z)
    ensures Size(x) >= Size(y) >= Size(z) && Size(x) + Size(y) + Size(z) == Size(top)
    ensures Cost(x) + Cost(y) + Cost(z) < Cost(top)
  {
    assert top.lo - 1 <= n < m <= top.hi + 1;
    hide Split, Cost;
    SplitCost(top, n, m);
  }

  // ----- The stack in its arrays -----

  ghost predicate Holds(stackLo: seq<int>, stackHi: seq<int>, stackD: seq<nat>, st: seq<Part>) {
    && |st| <= |stackLo| == |stackHi| == |stackD| == STACK_SIZE
    && forall s :: 0 <= s < |st| ==> st[s] == Part(stackLo[s], stackHi[s], stackD[s])
  }

  class Stack {
    const stackLo: array<int>
    const stackHi: array<int>
    const stackD: array<nat>
    var sp: nat

    constructor ()
      ensures Is([]) && fresh(stackLo) && fresh(stackHi) && fresh(stackD)
    {
      stackLo, stackHi, stackD, sp := new int[STACK_SIZE], new int[STACK_SIZE], new nat[STACK_SIZE], 0;
    }

    ghost predicate Is(st: seq<Part>)
      reads this, stackLo, stackHi, stackD
    {
      stackLo != stackHi && sp == |st| && Holds(stackLo[..], stackHi[..], stackD[..], st)
    }

    /** mpush. */
    method Push(lz: int, hz: int, dz: nat, ghost st: seq<Part>)
      requires Is(st) && |st| < STACK_SIZE
      modifies this, stackLo, stackHi, stackD
      ensures Is(st + [Part(lz, hz, dz)])
    {
      stackLo[sp], stackHi[sp], stackD[sp] := lz, hz, dz;
      sp := sp + 1;
    }

    /** mpop. */
    method Pop(ghost st: seq<Part>) returns (lz: int, hz: int, dz: nat)
      requires Is(st) && st != []
      modifies this
      ensures Is(st[..|st| - 1]) && st[|st| - 1] == Part(lz, hz, dz)
    {
      sp := sp - 1;
      lz, hz, dz := stackLo[sp], stackHi[sp], stackD[sp];
    }
  }

  /** The key of the split: the median of three. */
  method PickMedian(ptr: array<int>, block: seq<int>, lo: int, hi: int, d: nat) returns (med: int)
    requires 0 <= lo <= hi < ptr.Length && Indexes(ptr[..], block, d, lo, hi)
    ensures exists x :: lo <= x <= hi && KeyAt(ptr[..], block, d, x) == med
  {
    var mid := (lo + hi) / 2;
    med := Med3(block[ptr[lo] + d], block[ptr[hi] + d], block[ptr[mid] + d]);
    assert KeyAt(ptr[..], block, d, lo) == block[ptr[lo] + d];
    assert KeyAt(ptr[..], block, d, hi) == block[ptr[hi] + d];
    assert KeyAt(ptr[..], block, d, mid) == block[ptr[mid] + d];
  }

  lemma DeeperCost(top: Part)
    requires top.lo <= top.hi && top.d < 15
    ensures Cost(Part(top.lo, top.hi, top.d + 1)) < Cost(top)
  {
    var n, k := Size(top), 17 - top.d;
    assert n * (k - 1) == n * k - n;
  }

  /** The top range: sorted outright if short or deep, otherwise split or looked at one byte deeper. */
  method Turn(ptr: array<int>, stack: Stack, block: seq<int>, quadrant: seq<int>, nblock: nat, budget0: int,
              ghost b: seq<int>, ghost f0: seq<int>, ghost st: seq<Part>, ghost loSt: int, ghost hiSt: int)
    returns (budget: int, ghost st': seq<Part>)
    requires nblock == |b| && Readable(b, block, quadrant) && ptr != stack.stackLo && ptr != stack.stackHi &&
        ptr != stack.stackD as object
    requires stack.Is(st) && st != [] && |st| <= 35 && Sorting(b, f0, ptr[..], st, loSt, hiSt) &&
        hiSt - loSt + 1 <= 900000
    modifies ptr, stack, stack.stackLo, stack.stackHi, stack.stackD
    ensures budget <= budget0 && Rearranged(f0, ptr[..], loSt, hiSt)
    ensures budget >= 0 ==>
        stack.Is(st') && |st'| <= 35 && Sorting(b, f0, ptr[..], st', loSt, hiSt) && Weight(st') < Weight(st)
  {
    hide Readable, Sorting, Prefixed, Ascending, RotOrder, Rearranged, Weight, Cost, KeyAt, Split, Stack.Is, Overshot;
    hide ThreeOf, Indexes;
    ghost var below, top, f := st[..|st| - 1], st[|st| - 1], ptr[..];
    assert below + [top] == st;
    budget := budget0;
    var lo, hi, d := stack.Pop(st);
    assert top == Part(lo, hi, d);
    TopFacts(b, f0, f, below, top, loSt, hiSt);
    WeightTop(below, top);
    CostPositive(top);
    if hi - lo < SMALL_THRESH || d > DEPTH_THRESH {
      budget := MainSimpleSort(ptr, block, quadrant, nblock, lo, hi, d, budget, b);
      Kept(b, f0, f, ptr[..], st, top, loSt, hiSt);
      if budget >= 0 { RangeDone(b, f0, f, ptr[..], below, top, loSt, hiSt); }
      return budget, below;
    }
    ReadableOvershot(b, block, quadrant);
    PrefixedIndexes(b, block, f, lo, hi, d);
    var med := PickMedian(ptr, block, lo, hi, d);
    var allEqual, n, m := Partition(ptr, block, d, med, lo, hi);
    PrefixedRearranged(b, f, ptr[..], lo, hi, d);
    Kept(b, f0, f, ptr[..], st, top, loSt, hiSt);
    ghost var g := ptr[..];
    if allEqual {
      stack.Push(lo, hi, d + 1, below);
      st' := below + [Part(lo, hi, d + 1)];
      RangeDeeper(b, block, f0, f, g, below, top, med, loSt, hiSt);
      WeightTop(below, Part(lo, hi, d + 1));
      DeeperCost(top);
      return;
    }
    var x, y, z := BySize(Part(lo, n, d), Part(m, hi, d), Part(n + 1, m - 1, d + 1));
    stack.Push(x.lo, x.hi, x.d, below);
    stack.Push(y.lo, y.hi, y.d, below + [x]);
    stack.Push(z.lo, z.hi, z.d, below + [x] + [y]);
    st' := below + [x, y, z];
    assert below + [x] + [y] + [z] == st';
    RangeSplit(b, block, f0, f, g, below, top, med, n, m, x, y, z, loSt, hiSt);
  }

  lemma CostPositive(p: Part)
    ensures Cost(p) > 0
  { }

  lemma ReadableOvershot(b: seq<int>, block: seq<int>, quadrant: seq<int>)
    requires Readable(b, block, quadrant)
    ensures Overshot(b, block)
  { }

  lemma Kept(b: seq<int>, f0: seq<int>, f: seq<int>, g: seq<int>, st: seq<Part>, top: Part, lo: int, hi: int)
    requires Sorting(b, f0, f, st, lo, hi) && lo <= top.lo && top.hi <= hi && Rearranged(f, g, top.lo, top.hi)
    ensures Rearranged(f0, g, lo, hi)
  {
    RearrangedWiden(f, g, top.lo, top.hi, lo, hi);
    RearrangedTrans(f0, f, g, lo, hi);
  }

  lemma Start(b: seq<int>, f: seq<int>, lo: int, hi: int, d: nat)
    requires 0 <= lo <= hi < |f| && d <= 15 && Prefixed(b, f, lo, hi, d)
    ensures Sorting(b, f, f, [Part(lo, hi, d)], lo, hi)
  {
    OneRange(f, RotOrder(b), Part(lo, hi, d));
    assert HalfPow(0) == 1;
    hide Prefixed, OrderedBut;
    assert [Part(lo, hi, d)][0] == Part(lo, hi, d);
  }

  lemma Done(b: seq<int>, f0: seq<int>, f: seq<int>, lo: int, hi: int)
    requires Sorting(b, f0, f, [], lo, hi)
    ensures Rearranged(f0, f, lo, hi) && Ascending(f, RotOrder(b), lo, hi)
  {
    assert Ranges([]) == [];
    hide RotOrder;
    StackEmpty(f, RotOrder(b), lo, hi);
  }

  /** mainQSort3: unless the budget runs out, lo..hi is in order afterwards; the stack assertion
      never fires. */
  method QSort3(ptr: array<int>, block: seq<int>, quadrant: seq<int>, nblock: nat, loSt: int, hiSt: int, dSt: nat,
                budget0: int, ghost b: seq<int>)
    returns (budget: int)
    requires nblock == |b| && Readable(b, block, quadrant) && 0 <= loSt <= hiSt < ptr.Length &&
        hiSt - loSt + 1 <= 900000
    requires budget0 >= 0 && dSt <= 15 && Prefixed(b, ptr[..], loSt, hiSt, dSt)
    modifies ptr
    ensures Rearranged(old(ptr[..]), ptr[..], loSt, hiSt) && budget <= budget0
    ensures budget >= 0 ==> Ascending(ptr[..], RotOrder(b), loSt, hiSt)
  {
    ghost var f0 := ptr[..];
    var stack := new Stack();
    ghost var st := [Part(loSt, hiSt, dSt)];
    assert [] + st == st;
    Start(b, f0, loSt, hiSt, dSt);
    RearrangedRefl(f0, loSt, hiSt);
    hide Readable, Sorting, Prefixed, Ascending, RotOrder, Rearranged, Weight;
    stack.Push(loSt, hiSt, dSt, []);
    budget := budget0;
    while stack.sp > 0
      invariant fresh(stack) && fresh(stack.stackLo) && fresh(stack.stackHi) && fresh(stack.stackD)
      invariant stack.Is(st) && |st| <= 35 && Sorting(b, f0, ptr[..], st, loSt, hiSt)
      invariant budget <= budget0
      decreases Weight(st)
    {
      assert stack.sp < 98;
      budget, st := Turn(ptr, stack, block, quadrant, nblock, budget, b, f0, st, loSt, hiSt);
      if budget < 0 { return; }
    }
    Done(b, f0, ptr[..], loSt, hiSt);
  }
}
