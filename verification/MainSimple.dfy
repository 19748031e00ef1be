/** mainSimpleSort (blocksort.c): shell sort of rotations that agree on their first `d` bytes. */
module MainSimple {
  import opened Rotations
  import opened ThreeWay
  import opened ShellSort
  import opened MainOrder

  /** Rotations `u` and `v` agree on `d` bytes. */
  ghost predicate Agree(b: seq<int>, u: int, v: int, d: nat) {
    0 <= u < |b| && 0 <= v < |b| && Cmp(b, u, v, d) == 0
  }

  /** All of lo..hi agree on `d` bytes. */
  ghost predicate Prefixed(b: seq<int>, f: seq<int>, lo: int, hi: int, d: nat) {
    0 <= lo && hi < |f| && forall x, y :: lo <= x <= hi && lo <= y <= hi ==> Agree(b, f[x], f[y], d)
  }

  lemma PrefixedPair(b: seq<int>, f: seq<int>, lo: int, hi: int, d: nat, x: int, y: int)
    requires Prefixed(b, f, lo, hi, d) && lo <= x <= hi && lo <= y <= hi
    ensures Agree(b, f[x], f[y], d)
  { }

  lemma PrefixedRearranged(b: seq<int>, f: seq<int>, g: seq<int>, lo: int, hi: int, d: nat)
    requires Prefixed(b, f, lo, hi, d) && Rearranged(f, g, lo, hi)
    ensures Prefixed(b, g, lo, hi, d)
  {
    hide Agree;
    forall x, y | lo <= x <= hi && lo <= y <= hi
      ensures Agree(b, g[x], g[y], d)
    {
      var u := ComesFrom(f, g, lo, hi, x);
      var v := ComesFrom(f, g, lo, hi, y);
      PrefixedPair(b, f, lo, hi, d, u, v);
    }
  }

  /** What mainGtU says about two rotations `d` places on holds of the rotations. */
  lemma Ranked(b: seq<int>, u: int, v: int, d: nat)
    requires Agree(b, u, v, d) && d < |b|
    ensures u + d < 2 * |b| && v + d < 2 * |b|
    ensures RotLe(b, Wrap(|b|, u + d), Wrap(|b|, v + d)) ==> RotOrder(b)(u, v)
    ensures RotLe(b, Wrap(|b|, v + d), Wrap(|b|, u + d)) ==> RotOrder(b)(v, u)
  {
    TailsDecide(b, u, v, d);
    LeFromCmp(b, u, v);
    LeFromCmp(b, Wrap(|b|, u + d), Wrap(|b|, v + d));
    assert Wrap(|b|, u + d) == Shift(|b|, u, d) && Wrap(|b|, v + d) == Shift(|b|, v, d);
  }

  lemma RotOrderIsTransitive(b: seq<int>)
    ensures Transitive(RotOrder(b))
  {
    forall u, v, w | RotOrder(b)(u, v) && RotOrder(b)(v, w)
      ensures RotOrder(b)(u, w)
    {
      RotOrderTransitive(b, u, v, w);
    }
  }

  /** One comparison of two entries of a range. */
  method GreaterAt(u: int, v: int, d: nat, block: seq<int>, quadrant: seq<int>, nblock: nat, budget0: int,
                   ghost b: seq<int>)
    returns (gt: bool, budget: int)
    requires nblock == |b| && Readable(b, block, quadrant) && d <= 15 && Agree(b, u, v, d)
    ensures gt ==> RotOrder(b)(v, u)
    ensures !gt ==> RotOrder(b)(u, v)
    ensures budget <= budget0
  {
    Long(b, block, quadrant);
    Ranked(b, u, v, d);
    InBlock(b, u, v, d);
    hide Readable, RotLe, Agree, RotOrder;
    gt, budget := MainGtU(u + d, v + d, block, quadrant, nblock, budget0, b);
  }

  lemma InBlock(b: seq<int>, u: int, v: int, d: nat)
    requires Agree(b, u, v, d)
    ensures 0 <= u < |b| && 0 <= v < |b|
  { }

  /** Entry `i` sinks to its place among the entries a multiple of `h` below it. */
  method Sink(ptr: array<int>, lo: int, i: int, h: int, d: nat, block: seq<int>, quadrant: seq<int>, nblock: nat,
              budget0: int, ghost b: seq<int>)
    returns (budget: int)
    requires nblock == |b| && Readable(b, block, quadrant) && d <= 15
    requires 0 <= lo && 0 < h && lo + h <= i < ptr.Length && Prefixed(b, ptr[..], lo, i, d)
    requires h == 1 ==> Ascending(ptr[..], RotOrder(b), lo, i - 1)
    modifies ptr
    ensures Rearranged(old(ptr[..]), ptr[..], lo, i)
    ensures h == 1 ==> Ascending(ptr[..], RotOrder(b), lo, i)
    ensures budget <= budget0
  {
    hide Readable, Prefixed, Agree, Ascending, Sinking, Rearranged, Slid, RotOrder, Transitive;
    ghost var f, le := ptr[..], RotOrder(b);
    ghost var cur := f;
    RotOrderIsTransitive(b);
    SinkStart(f, le, lo, i, h);
    budget := budget0;
    var v := ptr[i];
    var j := i;
    while true
      invariant lo + h <= j <= i && budget <= budget0
      invariant cur == ptr[..] && Sinking(f, cur, le, lo, j, i, h)
      decreases j
    {
      Below(f, cur, le, lo, j, i, h);
      PrefixedPair(b, f, lo, i, d, j - h, i);
      var gt: bool;
      gt, budget := GreaterAt(ptr[j - h], v, d, block, quadrant, nblock, budget, b);
      if !gt { break; }
      SinkStep(f, cur, le, lo, j, i, h);
      ptr[j] := ptr[j - h];
      cur := cur[j := cur[j - h]];
      j := j - h;
      if j <= lo + h - 1 { break; }
    }
    SinkDone(f, cur, le, lo, j, i, h);
    ptr[j] := v;
  }

  lemma Below(f: seq<int>, cur: seq<int>, le: (int, int) -> bool, lo: int, j: int, i: int, h: int)
    requires Sinking(f, cur, le, lo, j, i, h) && lo <= j - h
    ensures cur[j - h] == f[j - h]
  {
    assert cur[j - h] == cur[..j][j - h];
  }

  /** Knuth's increments. */
  const INCS: seq<int> := [1, 4, 13, 40, 121, 364, 1093, 3280, 9841, 29524, 88573, 265720, 797161, 2391484]

  /** Each increment is three times the one before, and one more. */
  lemma Increments()
    ensures |INCS| == 14 && INCS[0] == 1 && forall i :: 0 < i < 14 ==> INCS[i] == 3 * INCS[i - 1] + 1
  { }

  /** All the insertions at one stride; given up when the budget is spent. */
  method Stride(ptr: array<int>, lo: int, hi: int, h: int, d: nat, block: seq<int>, quadrant: seq<int>, nblock: nat,
                budget0: int, ghost b: seq<int>)
    returns (budget: int, done: bool)
    requires nblock == |b| && Readable(b, block, quadrant) && d <= 15
    requires 0 <= lo <= hi < ptr.Length && 0 < h && Prefixed(b, ptr[..], lo, hi, d)
    modifies ptr
    ensures Rearranged(old(ptr[..]), ptr[..], lo, hi)
    ensures budget <= budget0 && (!done ==> budget < 0)
    ensures done && h == 1 ==> Ascending(ptr[..], RotOrder(b), lo, hi)
  {
    hide Readable, Prefixed, Agree, Ascending, Rearranged, RotOrder;
    ghost var f := ptr[..];
    Refl(f, lo, hi, RotOrder(b));
    budget := budget0;
    var i := lo + h;
    while true
      invariant lo + h <= i && budget <= budget0
      invariant h == 1 ==> i <= hi + 1
      invariant Rearranged(f, ptr[..], lo, hi)
      invariant h == 1 ==> Ascending(ptr[..], RotOrder(b), lo, i - 1)
      decreases if i > hi then 0 else hi + 1 - i
    {
      // the three copies of the insertion
      ghost var from := i;
      for copy := 0 to 3
        invariant lo + h <= i == from + copy && budget <= budget0 && (copy > 0 ==> from <= hi)
        invariant h == 1 ==> i <= hi + 1
        invariant Rearranged(f, ptr[..], lo, hi)
        invariant h == 1 ==> Ascending(ptr[..], RotOrder(b), lo, i - 1)
      {
        if i > hi { return budget, true; }
        ghost var g := ptr[..];
        PrefixedRearranged(b, f, g, lo, hi, d);
        PrefixedPart(b, g, lo, hi, d, lo, i);
        budget := Sink(ptr, lo, i, h, d, block, quadrant, nblock, budget, b);
        Settled(f, g, ptr[..], lo, i, hi);
        i := i + 1;
      }
      if budget < 0 { return budget, false; }
    }
  }

  /** mainSimpleSort. */
  method MainSimpleSort(ptr: array<int>, block: seq<int>, quadrant: seq<int>, nblock: nat, lo: int, hi: int, d: nat,
                        budget0: int, ghost b: seq<int>)
    returns (budget: int)
    requires nblock == |b| && Readable(b, block, quadrant) && d <= 15
    requires 0 <= lo <= hi + 1 && hi < ptr.Length && hi - lo < 900000 && Prefixed(b, ptr[..], lo, hi, d)
    modifies ptr
    ensures Rearranged(old(ptr[..]), ptr[..], lo, hi)
    ensures budget <= budget0
    ensures budget >= 0 ==> Ascending(ptr[..], RotOrder(b), lo, hi)
  {
    hide Readable, Prefixed, Agree, Rearranged, RotOrder;
    ghost var f := ptr[..];
    RearrangedRefl(f, lo, hi);
    var bigN := hi - lo + 1;
    if bigN < 2 { return budget0; }
    hide Ascending;
    budget := budget0;
    var hp := 0;
    while INCS[hp] < bigN
      invariant 0 <= hp < |INCS|
      decreases |INCS| - hp
    {
      hp := hp + 1;
    }
    hp := hp - 1;
    Increments();
    while hp >= 0
      invariant -1 <= hp < |INCS| && budget <= budget0
      invariant Rearranged(f, ptr[..], lo, hi)
      invariant hp == -1 ==> Ascending(ptr[..], RotOrder(b), lo, hi)
    {
      ghost var g := ptr[..];
      PrefixedRearranged(b, f, g, lo, hi, d);
      var done;
      budget, done := Stride(ptr, lo, hi, INCS[hp], d, block, quadrant, nblock, budget, b);
      RearrangedTrans(f, g, ptr[..], lo, hi);
      if !done { return; }
      hp := hp - 1;
    }
  }

  lemma Refl(f: seq<int>, lo: int, hi: int, le: (int, int) -> bool)
    requires 0 <= lo <= hi < |f|
    ensures Rearranged(f, f, lo, hi) && Ascending(f, le, lo, lo)
  { }

  lemma PrefixedPart(b: seq<int>, f: seq<int>, lo: int, hi: int, d: nat, lo2: int, hi2: int)
    requires Prefixed(b, f, lo, hi, d) && lo <= lo2 && hi2 <= hi
    ensures Prefixed(b, f, lo2, hi2, d)
  { hide Agree; }

  lemma Settled(f: seq<int>, g: seq<int>, h: seq<int>, lo: int, i: int, hi: int)
    requires Rearranged(f, g, lo, hi) && Rearranged(g, h, lo, i) && i <= hi
    ensures Rearranged(f, h, lo, hi)
  {
    RearrangedWiden(g, h, lo, i, lo, hi);
    RearrangedTrans(f, g, h, lo, hi);
  }
}
