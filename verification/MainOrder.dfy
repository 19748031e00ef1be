/** How mainSort (blocksort.c) compares rotations: bytes read past the end of the block, and the
    quadrants that cache what is already sorted. */
module MainOrder {
  import opened Rotations
  import opened Bwt

  /** BZ_N_OVERSHOOT. */
  const N_OVERSHOOT := 34

  /** A place in the block or in the overshoot area, as a place in the block. */
  function Wrap(n: nat, i: nat): (r: nat)
    requires i < 2 * n
    ensures r < n
  {
    if i < n then i else i - n
  }

  /** The block is followed by its own first bytes. */
  ghost predicate Overshot(b: seq<int>, block: seq<int>) {
    && N_OVERSHOOT < |b| && |b| + N_OVERSHOOT <= |block|
    && forall x :: 0 <= x < |b| + N_OVERSHOOT ==> block[x] == b[Wrap(|b|, x)]
  }

  /** Of two rotations with the same first byte, the one with the smaller quadrant is not the greater. */
  ghost predicate QuadOk(b: seq<int>, q: seq<int>) {
    && |q| == |b|
    && forall i, j :: 0 <= i < |b| && 0 <= j < |b| && b[i] == b[j] && q[i] < q[j] ==> RotLe(b, i, j)
  }

  /** The same with strict precedence, as the comment at blocksort.c:964-985 puts it. */
  ghost predicate QuadStrict(b: seq<int>, q: seq<int>) {
    && |q| == |b|
    && forall i, j :: 0 <= i < |b| && 0 <= j < |b| && b[i] == b[j] && q[i] < q[j] ==> Cmp(b, i, j, |b|) < 0
  }

  /** Strict precedence is what not-greater means in a block that does not repeat itself... */
  lemma StrictIfPrimitive(b: seq<int>, q: seq<int>)
    requires QuadOk(b, q) && Primitive(b)
    ensures QuadStrict(b, q)
  {
    forall i, j | 0 <= i < |b| && 0 <= j < |b| && b[i] == b[j] && q[i] < q[j]
      ensures Cmp(b, i, j, |b|) < 0
    {
      assert RotLe(b, i, j);
      if RotEq(b, i, j) { EqualMeansRepeats(b, i, j); }
    }
  }

  /** ...and fails wherever two equal rotations have different quadrants. */
  lemma TiesAreNotStrict(b: seq<int>, q: seq<int>, i: nat, j: nat)
    requires |q| == |b| && i < |b| && j < |b| && RotEq(b, i, j) && q[i] != q[j]
    ensures !QuadStrict(b, q)
  {
    CmpAntisymmetric(b, i, j, |b|);
    assert b[i] == b[j];
    if q[i] < q[j] { assert Cmp(b, i, j, |b|) == 0; } else { assert Cmp(b, j, i, |b|) == 0; }
  }

  /** The order the sorters establish. */
  ghost function RotOrder(b: seq<int>): (int, int) -> bool {
    (u, v) => 0 <= u < |b| && 0 <= v < |b| && RotLe(b, u, v)
  }

  /** Comparing `p1` with `p2` is what is left of comparing `a1` with `a2` after `depth` equal bytes. */
  ghost predicate Follows(b: seq<int>, a1: nat, a2: nat, p1: nat, p2: nat, depth: nat)
    requires a1 < |b| && a2 < |b| && p1 < |b| && p2 < |b|
  {
    forall h: nat :: Cmp(b, a1, a2, depth + h) == Cmp(b, p1, p2, h)
  }

  lemma FollowsStart(b: seq<int>, a1: nat, a2: nat)
    requires a1 < |b| && a2 < |b|
    ensures Follows(b, a1, a2, a1, a2, 0)
  { }

  lemma FollowsStep(b: seq<int>, a1: nat, a2: nat, p1: nat, p2: nat, depth: nat)
    requires a1 < |b| && a2 < |b| && p1 < |b| && p2 < |b|
    requires Follows(b, a1, a2, p1, p2, depth) && b[p1] == b[p2]
    ensures Follows(b, a1, a2, Next(|b|, p1), Next(|b|, p2), depth + 1)
  {
    forall h: nat
      ensures Cmp(b, a1, a2, depth + 1 + h) == Cmp(b, Next(|b|, p1), Next(|b|, p2), h)
    {
      assert Cmp(b, p1, p2, h + 1) == Cmp(b, Next(|b|, p1), Next(|b|, p2), h);
      assert Cmp(b, a1, a2, depth + (h + 1)) == Cmp(b, p1, p2, h + 1);
    }
  }

  /** Rotations that agree on `d` bytes compare as their tails do. */
  lemma TailsDecide(b: seq<int>, u: nat, v: nat, d: nat)
    requires u < |b| && v < |b| && d <= |b| && Cmp(b, u, v, d) == 0
    ensures Cmp(b, u, v, |b|) == Cmp(b, Shift(|b|, u, d), Shift(|b|, v, d), |b|)
  {
    CmpSplit(b, u, v, d, |b|);
    CmpBeyond(b, u, v, d + |b|);
  }

  lemma LeFromCmp(b: seq<int>, u: nat, v: nat)
    requires u < |b| && v < |b|
    ensures RotLe(b, u, v) <==> Cmp(b, u, v, |b|) <= 0
    ensures RotLe(b, v, u) <==> Cmp(b, u, v, |b|) >= 0
  {
    CmpAntisymmetric(b, u, v, |b|);
  }

  lemma RotOrderTransitive(b: seq<int>, u: int, v: int, w: int)
    requires RotOrder(b)(u, v) && RotOrder(b)(v, w)
    ensures RotOrder(b)(u, w)
  {
    CmpTransitive(b, u, v, w, |b|);
  }

  // ----- mainGtU -----

  /** What mainGtU reads. */
  ghost predicate Readable(b: seq<int>, block: seq<int>, quadrant: seq<int>) {
    && Overshot(b, block) && |b| <= |quadrant| && QuadOk(b, quadrant[..|b|]) && Overshot(quadrant[..|b|], quadrant)
    && forall x :: 0 <= x < |quadrant| ==> 0 <= quadrant[x] < 65536
  }

  lemma ReadAt(b: seq<int>, block: seq<int>, quadrant: seq<int>, i: nat)
    requires Readable(b, block, quadrant) && i < |b| + 34
    ensures i < 2 * |b| && i < |block| && i < |quadrant|
    ensures block[i] == b[Wrap(|b|, i)] && quadrant[i] == quadrant[Wrap(|b|, i)] && 0 <= quadrant[i] < 65536
    ensures i + 1 < 2 * |b| && Wrap(|b|, i + 1) == Next(|b|, Wrap(|b|, i))
  { }

  /** A byte and its quadrant as one number: the order in which mainGtU looks at them. */
  ghost function Keyed(b: seq<int>, quadrant: seq<int>): (r: seq<int>)
    requires |b| <= |quadrant|
    ensures |r| == |b|
  {
    seq(|b|, x requires 0 <= x < |b| => 65536 * b[x] + quadrant[x])
  }

  /** What comparing bytes and quadrants finds out never contradicts the order of the rotations. */
  lemma {:induction false} KeyedDecides(b: seq<int>, block: seq<int>, quadrant: seq<int>, p1: nat, p2: nat, h: nat)
    requires Readable(b, block, quadrant) && |b| <= |quadrant| && p1 < |b| && p2 < |b|
    ensures Cmp(Keyed(b, quadrant), p1, p2, h) < 0 ==> Cmp(b, p1, p2, |b|) <= 0
    ensures Cmp(Keyed(b, quadrant), p1, p2, h) > 0 ==> Cmp(b, p1, p2, |b|) >= 0
    ensures Cmp(Keyed(b, quadrant), p1, p2, h) == 0 ==> Cmp(b, p1, p2, h) == 0
    decreases h
  {
    if h > 0 {
      var q := quadrant[..|b|];
      assert q[p1] == quadrant[p1] && q[p2] == quadrant[p2];
      assert 0 <= quadrant[p1] < 65536 && 0 <= quadrant[p2] < 65536;
      CmpDecided(b, p1, p2, 1);
      LeFromCmp(b, p1, p2);
      if b[p1] == b[p2] && quadrant[p1] == quadrant[p2] {
        CmpStep(b, p1, p2);
        KeyedDecides(b, block, quadrant, Next(|b|, p1), Next(|b|, p2), h - 1);
      }
    }
  }

  datatype Verdict = Greater | NotGreater | Undecided

  /** The comparison of `key` from `s1` and from `s2` so far: decided within `depth` places, or equal. */
  ghost predicate Judged(key: seq<int>, s1: nat, s2: nat, i1: nat, i2: nat, depth: nat, v: Verdict)
    requires s1 < |key| && s2 < |key|
  {
    match v
    case Greater => Cmp(key, s1, s2, depth) > 0
    case NotGreater => Cmp(key, s1, s2, depth) < 0
    case Undecided => i1 < 2 * |key| && i2 < 2 * |key| && Follows(key, s1, s2, Wrap(|key|, i1), Wrap(|key|, i2), depth)
  }

  /** Nothing found out is lost further on. */
  lemma StaysJudged(key: seq<int>, s1: nat, s2: nat, i1: nat, i2: nat, depth: nat, k1: nat, k2: nat, more: nat,
                    v: Verdict)
    requires s1 < |key| && s2 < |key| && v != Undecided && Judged(key, s1, s2, i1, i2, depth, v) && depth <= more
    ensures Judged(key, s1, s2, k1, k2, more, v)
  {
    CmpMore(key, s1, s2, depth, more);
  }

  lemma {:induction false} CmpMore(key: seq<int>, i: nat, j: nat, h: nat, more: nat)
    requires i < |key| && j < |key| && Cmp(key, i, j, h) != 0 && h <= more
    ensures Cmp(key, i, j, more) == Cmp(key, i, j, h)
    decreases h
  {
    if h > 0 && key[i] == key[j] { CmpMore(key, Next(|key|, i), Next(|key|, j), h - 1, more - 1); }
  }

  /** What the comparison looks at: bytes alone, or bytes with their quadrants. */
  ghost function KeyOf(b: seq<int>, quadrant: seq<int>, bytesOnly: bool): (r: seq<int>)
    requires |b| <= |quadrant|
    ensures |r| == |b|
  {
    if bytesOnly then b else Keyed(b, quadrant)
  }

  /** One step of the unrolled comparison: a byte and, unless `bytesOnly`, its quadrant. */
  method CompareOne(i1: nat, i2: nat, block: seq<int>, quadrant: seq<int>, bytesOnly: bool, ghost b: seq<int>,
                    ghost s1: nat, ghost s2: nat, ghost depth: nat)
    returns (v: Verdict)
    requires Readable(b, block, quadrant) && i1 < |b| + N_OVERSHOOT && i2 < |b| + N_OVERSHOOT && s1 < |b| &&
        s2 < |b| <= |quadrant|
    requires Judged(KeyOf(b, quadrant, bytesOnly), s1, s2, i1, i2, depth, Undecided)
    ensures Judged(KeyOf(b, quadrant, bytesOnly), s1, s2, i1 + 1, i2 + 1, depth + 1, v)
  {
    hide Readable, Follows;
    ReadAt(b, block, quadrant, i1);
    ReadAt(b, block, quadrant, i2);
    ghost var key := KeyOf(b, quadrant, bytesOnly);
    ghost var p1, p2 := Wrap(|b|, i1), Wrap(|b|, i2);
    FollowsOne(key, s1, s2, p1, p2, depth);
    if block[i1] != block[i2] { return if block[i1] > block[i2] then Greater else NotGreater; }
    if !bytesOnly && quadrant[i1] != quadrant[i2] {
      return if quadrant[i1] > quadrant[i2] then Greater else NotGreater;
    }
    FollowsStep(key, s1, s2, p1, p2, depth);
    v := Undecided;
  }

  lemma FollowsOne(key: seq<int>, s1: nat, s2: nat, p1: nat, p2: nat, depth: nat)
    requires s1 < |key| && s2 < |key| && p1 < |key| && p2 < |key| && Follows(key, s1, s2, p1, p2, depth)
    ensures Cmp(key, s1, s2, depth + 1) == if key[p1] < key[p2] then -1 else if key[p1] > key[p2] then 1 else 0
  {
    assert Cmp(key, Next(|key|, p1), Next(|key|, p2), 0) == 0;
    assert Cmp(key, s1, s2, depth + 1) == Cmp(key, p1, p2, 1);
  }

  /** `count` steps in a row. */
  method CompareRun(i1: nat, i2: nat, count: nat, block: seq<int>, quadrant: seq<int>, bytesOnly: bool,
                    ghost b: seq<int>, ghost s1: nat, ghost s2: nat, ghost depth: nat)
    returns (v: Verdict)
    requires Readable(b, block, quadrant) && i1 + count <= |b| + N_OVERSHOOT && i2 + count <= |b| + N_OVERSHOOT &&
        s1 < |b| && s2 < |b| <= |quadrant|
    requires Judged(KeyOf(b, quadrant, bytesOnly), s1, s2, i1, i2, depth, Undecided)
    ensures Judged(KeyOf(b, quadrant, bytesOnly), s1, s2, i1 + count, i2 + count, depth + count, v)
  {
    hide Readable, Judged, KeyOf;
    v := Undecided;
    for t := 0 to count
      invariant v == Undecided && Judged(KeyOf(b, quadrant, bytesOnly), s1, s2, i1 + t, i2 + t, depth + t, Undecided)
    {
      v := CompareOne(i1 + t, i2 + t, block, quadrant, bytesOnly, b, s1, s2, depth + t);
      if v != Undecided {
        StaysJudged(KeyOf(b, quadrant, bytesOnly), s1, s2, i1 + t + 1, i2 + t + 1, depth + t + 1, i1 + count,
            i2 + count, depth + count, v);
        return;
      }
    }
  }

  /** The rounds of eight there are at most. */
  function Rounds(nblock: nat): nat { (nblock + 8) / 8 + 1 }

  /** The answer and the rounds paid for, exactly: twelve bytes decide at no cost; after that the first place
      where byte or quadrant differ decides, at the cost of the rounds before it. */
  ghost predicate GtIs(b: seq<int>, quadrant: seq<int>, a1: nat, a2: nat, gt: bool, spent: int)
    requires a1 < |b| && a2 < |b| <= |quadrant| && N_OVERSHOOT < |b|
  {
    var key := Keyed(b, quadrant);
    var s1, s2 := Shift(|b|, a1, 12), Shift(|b|, a2, 12);
    if Cmp(b, a1, a2, 12) != 0 then gt == (Cmp(b, a1, a2, 12) > 0) && spent == 0
    else
      && gt == (Cmp(key, s1, s2, |b|) > 0)
      && 0 <= spent <= Rounds(|b|) && Cmp(key, s1, s2, 8 * spent) == 0
      && (spent < Rounds(|b|) ==> Cmp(key, s1, s2, 8 * spent + 8) != 0)
  }

  /** Equal rotations are told apart by their quadrants alone: not greater if those agree. */
  lemma EqualByQuadrants(b: seq<int>, quadrant: seq<int>, a1: nat, a2: nat, gt: bool, spent: int)
    requires a1 < |b| && a2 < |b| <= |quadrant| && N_OVERSHOOT < |b| && GtIs(b, quadrant, a1, a2, gt, spent) &&
        RotEq(b, a1, a2)
    requires forall x :: 0 <= x < |quadrant| ==> 0 <= quadrant[x] < 65536
    ensures gt <==> Cmp(quadrant[..|b|], Shift(|b|, a1, 12), Shift(|b|, a2, 12), |b|) > 0
  {
    var n := |b|;
    CmpDecided(b, a1, a2, 12);
    CmpSplit(b, a1, a2, 12, n);
    CmpBeyond(b, a1, a2, 12 + n);
    KeyedIsQuadrants(b, quadrant, Shift(n, a1, 12), Shift(n, a2, 12), n);
  }

  lemma {:induction false} KeyedIsQuadrants(b: seq<int>, quadrant: seq<int>, p1: nat, p2: nat, h: nat)
    requires p1 < |b| && p2 < |b| <= |quadrant| && Cmp(b, p1, p2, h) == 0
    requires forall x :: 0 <= x < |quadrant| ==> 0 <= quadrant[x] < 65536
    ensures Cmp(Keyed(b, quadrant), p1, p2, h) == Cmp(quadrant[..|b|], p1, p2, h)
    decreases h
  {
    if h > 0 { KeyedIsQuadrants(b, quadrant, Next(|b|, p1), Next(|b|, p2), h - 1); }
  }

  /** The exact answer agrees with the order of the rotations. */
  lemma GtIsRight(b: seq<int>, block: seq<int>, quadrant: seq<int>, a1: nat, a2: nat, gt: bool, spent: int)
    requires Readable(b, block, quadrant) && a1 < |b| && a2 < |b| <= |quadrant| && N_OVERSHOOT < |b|
    requires GtIs(b, quadrant, a1, a2, gt, spent)
    ensures if gt then RotLe(b, a2, a1) else RotLe(b, a1, a2)
  {
    hide Readable, Keyed;
    var n := |b|;
    LeFromCmp(b, a1, a2);
    CmpDecided(b, a1, a2, 12);
    CmpSplit(b, a1, a2, 12, n);
    CmpBeyond(b, a1, a2, 12 + n);
    KeyedDecides(b, block, quadrant, Shift(n, a1, 12), Shift(n, a2, 12), n);
  }

  /**
   * mainGtU: twelve bytes, then rounds of eight bytes with their quadrants, never past the
   * overshoot area.
   */
  method MainGtU(i1: nat, i2: nat, block: seq<int>, quadrant: seq<int>, nblock: nat, budget0: int, ghost b: seq<int>)
    returns (gt: bool, budget: int)
    requires nblock == |b| && Readable(b, block, quadrant) && i1 < nblock + 15 && i2 < nblock + 15
    ensures i1 < 2 * nblock && i2 < 2 * nblock && N_OVERSHOOT < nblock <= |quadrant|
    ensures if gt then RotLe(b, Wrap(nblock, i2), Wrap(nblock, i1)) else RotLe(b, Wrap(nblock, i1), Wrap(nblock, i2))
    ensures GtIs(b, quadrant, Wrap(nblock, i1), Wrap(nblock, i2), gt, budget0 - budget)
    ensures budget <= budget0
  {
    hide Readable, Judged, RotLe, Cmp, Keyed, GtIs, Follows;
    Long(b, block, quadrant);
    ghost var a1, a2 := Wrap(nblock, i1), Wrap(nblock, i2);
    StartJudged(b, quadrant, i1, i2);
    budget := budget0;
    var v := CompareRun(i1, i2, 12, block, quadrant, true, b, a1, a2, 0);
    if v != Undecided {
      gt := v == Greater;
      DecidedEarly(b, quadrant, a1, a2, i1 + 12, i2 + 12, v);
    } else {
      GoOn(b, quadrant, a1, a2, i1, i2);
      gt, budget := GtRounds(i1 + 12, i2 + 12, block, quadrant, nblock, budget, b, a1, a2);
    }
    SpentNothing(b, quadrant, a1, a2, gt, budget0 - budget);
    GtIsRight(b, block, quadrant, a1, a2, gt, budget0 - budget);
  }

  lemma SpentNothing(b: seq<int>, quadrant: seq<int>, a1: nat, a2: nat, gt: bool, spent: int)
    requires a1 < |b| && a2 < |b| <= |quadrant| && N_OVERSHOOT < |b| && GtIs(b, quadrant, a1, a2, gt, spent)
    ensures 0 <= spent
  { }

  lemma StartJudged(b: seq<int>, quadrant: seq<int>, i1: nat, i2: nat)
    requires i1 < 2 * |b| && i2 < 2 * |b| && |b| <= |quadrant|
    ensures Judged(KeyOf(b, quadrant, true), Wrap(|b|, i1), Wrap(|b|, i2), i1, i2, 0, Undecided)
  {
    FollowsStart(b, Wrap(|b|, i1), Wrap(|b|, i2));
  }

  lemma DecidedEarly(b: seq<int>, quadrant: seq<int>, a1: nat, a2: nat, i1: nat, i2: nat, v: Verdict)
    requires a1 < |b| && a2 < |b| <= |quadrant| && N_OVERSHOOT < |b| && v != Undecided
    requires Judged(KeyOf(b, quadrant, true), a1, a2, i1, i2, 12, v)
    ensures GtIs(b, quadrant, a1, a2, v == Greater, 0)
  { hide Keyed, Cmp; }

  /** Twelve equal bytes: the comparison of bytes and quadrants starts behind them. */
  lemma GoOn(b: seq<int>, quadrant: seq<int>, a1: nat, a2: nat, i1: nat, i2: nat)
    requires N_OVERSHOOT < |b| <= |quadrant| && i1 < |b| + 15 && i2 < |b| + 15 && a1 == Wrap(|b|, i1) &&
        a2 == Wrap(|b|, i2)
    requires Judged(KeyOf(b, quadrant, true), a1, a2, i1 + 12, i2 + 12, 12, Undecided)
    ensures Cmp(b, a1, a2, 12) == 0
    ensures Wrap(|b|, i1 + 12) == Shift(|b|, a1, 12) && Wrap(|b|, i2 + 12) == Shift(|b|, a2, 12)
    ensures Judged(KeyOf(b, quadrant, false), Shift(|b|, a1, 12), Shift(|b|, a2, 12), i1 + 12, i2 + 12, 0, Undecided)
  {
    hide Keyed;
    var p1, p2 := Wrap(|b|, i1 + 12), Wrap(|b|, i2 + 12);
    assert Cmp(b, a1, a2, 12 + 0) == Cmp(b, p1, p2, 0);
    FollowsStart(Keyed(b, quadrant), p1, p2);
  }

  /** The rounds of eight. */
  method GtRounds(i1: nat, i2: nat, block: seq<int>, quadrant: seq<int>, nblock: nat, budget0: int, ghost b: seq<int>,
                  ghost a1: nat, ghost a2: nat)
    returns (gt: bool, budget: int)
    requires nblock == |b| && Readable(b, block, quadrant) && i1 < nblock + 27 && i2 < nblock + 27 && a1 < |b| &&
        a2 < |b|
    requires N_OVERSHOOT < |b| <= |quadrant| && Cmp(b, a1, a2, 12) == 0
    requires Judged(KeyOf(b, quadrant, false), Shift(|b|, a1, 12), Shift(|b|, a2, 12), i1, i2, 0, Undecided)
    ensures GtIs(b, quadrant, a1, a2, gt, budget0 - budget)
  {
    hide Readable, Judged, Cmp, Keyed, KeyOf, GtIs;
    ghost var s1, s2 := Shift(|b|, a1, 12), Shift(|b|, a2, 12);
    budget := budget0;
    var k: int := nblock + 8;
    var j1: nat, j2: nat := i1, i2;
    ghost var spent := 0;
    while true
      invariant 0 <= k <= nblock + 8 && 8 * spent + k == nblock + 8 && budget == budget0 - spent
      invariant j1 < nblock + 27 && j2 < nblock + 27
      invariant Judged(KeyOf(b, quadrant, false), s1, s2, j1, j2, 8 * spent, Undecided)
      decreases k
    {
      var v := CompareRun(j1, j2, 8, block, quadrant, false, b, s1, s2, 8 * spent);
      if v != Undecided {
        DecidedIn(b, quadrant, a1, a2, j1, j2, j1 + 8, j2 + 8, spent, v);
        return v == Greater, budget;
      }
      TurnAround(KeyOf(b, quadrant, false), s1, s2, j1 + 8, j2 + 8, 8 * spent + 8);
      j1 := if j1 + 8 >= nblock then j1 + 8 - nblock else j1 + 8;
      j2 := if j2 + 8 >= nblock then j2 + 8 - nblock else j2 + 8;
      k := k - 8;
      budget := budget - 1;
      spent := spent + 1;
      if k < 0 { break; }
    }
    FullTurn(b, quadrant, a1, a2, j1, j2, spent);
    gt := false;
  }

  lemma Long(b: seq<int>, block: seq<int>, quadrant: seq<int>)
    requires Readable(b, block, quadrant)
    ensures N_OVERSHOOT < |b| <= |quadrant|
  { }

  /** A difference in the round after `spent` rounds. */
  lemma DecidedIn(b: seq<int>, quadrant: seq<int>, a1: nat, a2: nat, j1: nat, j2: nat, i1: nat, i2: nat, spent: nat,
                  v: Verdict)
    requires a1 < |b| && a2 < |b| <= |quadrant| && N_OVERSHOOT < |b| && Cmp(b, a1, a2, 12) == 0 &&
        8 * spent <= |b| + 8 && v != Undecided
    requires Judged(KeyOf(b, quadrant, false), Shift(|b|, a1, 12), Shift(|b|, a2, 12), j1, j2, 8 * spent, Undecided)
    requires Judged(KeyOf(b, quadrant, false), Shift(|b|, a1, 12), Shift(|b|, a2, 12), i1, i2, 8 * spent + 8, v)
    ensures GtIs(b, quadrant, a1, a2, v == Greater, spent)
  {
    hide Keyed;
    var key := Keyed(b, quadrant);
    var s1, s2 := Shift(|b|, a1, 12), Shift(|b|, a2, 12);
    EqualSoFar(key, s1, s2, j1, j2, 8 * spent);
    CmpDecided(key, s1, s2, 8 * spent + 8);
  }

  lemma EqualSoFar(key: seq<int>, s1: nat, s2: nat, i1: nat, i2: nat, depth: nat)
    requires s1 < |key| && s2 < |key| && Judged(key, s1, s2, i1, i2, depth, Undecided)
    ensures Cmp(key, s1, s2, depth) == 0
  {
    assert Cmp(key, s1, s2, depth + 0) == Cmp(key, Wrap(|key|, i1), Wrap(|key|, i2), 0);
  }

  /** Going back by a whole turn is not going anywhere. */
  lemma TurnAround(key: seq<int>, s1: nat, s2: nat, i1: nat, i2: nat, depth: nat)
    requires s1 < |key| && s2 < |key| && Judged(key, s1, s2, i1, i2, depth, Undecided)
    ensures i1 < 2 * |key| && i2 < 2 * |key| && Judged(key, s1, s2, Wrap(|key|, i1), Wrap(|key|, i2), depth, Undecided)
  {
    hide Follows;
  }

  lemma FullTurn(b: seq<int>, quadrant: seq<int>, a1: nat, a2: nat, j1: nat, j2: nat, spent: nat)
    requires a1 < |b| && a2 < |b| <= |quadrant| && N_OVERSHOOT < |b| && Cmp(b, a1, a2, 12) == 0
    requires |b| + 8 < 8 * spent <= |b| + 16
    requires Judged(KeyOf(b, quadrant, false), Shift(|b|, a1, 12), Shift(|b|, a2, 12), j1, j2, 8 * spent, Undecided)
    ensures GtIs(b, quadrant, a1, a2, false, spent)
  {
    hide Keyed;
    var key := Keyed(b, quadrant);
    var s1, s2 := Shift(|b|, a1, 12), Shift(|b|, a2, 12);
    EqualSoFar(key, s1, s2, j1, j2, 8 * spent);
    CmpBeyond(key, s1, s2, 8 * spent);
  }
}
