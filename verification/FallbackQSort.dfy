/** fallbackQSort3 (blocksort.c): three-way quicksort of `fmap` by `eclass`, on an explicit stack
    of 100 ranges that it provably never overruns. */
module FallbackQSort {
  import opened Power
  import opened ThreeWay

  const STACK_SIZE := 100
  const SMALL_THRESH := 10

  /** Rotations in order of the class numbers `key`. */
  ghost function KeyLe(key: seq<int>): (int, int) -> bool {
    (u, v) => 0 <= u < |key| && 0 <= v < |key| && key[u] <= key[v]
  }

  /** The range at depth `s` of the stack has at most `total` / 2^s entries: the smaller part of
      every split goes on top. */
  ghost predicate Halving(st: seq<(int, int)>, total: int) {
    forall s :: 0 <= s < |st| ==> (st[s].1 - st[s].0 + 1) * Pow2(s) <= total
  }

  lemma HalvingPush(st: seq<(int, int)>, top: (int, int), big: (int, int), small: (int, int), total: int)
    requires Halving(st + [top], total) && total >= 0
    requires big.1 - big.0 <= top.1 - top.0
    requires 2 * (small.1 - small.0 + 1) <= top.1 - top.0 + 1
    ensures Halving(st + [big, small], total)
  {
    var before, after := st + [top], st + [big, small];
    assert before[|st|] == top;
    forall s | 0 <= s < |after|
      ensures (after[s].1 - after[s].0 + 1) * Pow2(s) <= total
    {
      if s < |st| {
        assert before[s] == st[s] == after[s];
      } else {
        var k, p := |st|, Pow2(|st|);
        Scale(big.1 - big.0 + 1, top.1 - top.0 + 1, p);
        Scale(2 * (small.1 - small.0 + 1), top.1 - top.0 + 1, p);
        assert Pow2(k + 1) == 2 * p;
      }
    }
  }

  lemma Scale(x: int, y: int, p: nat)
    requires x <= y
    ensures x * p <= y * p
  {
  }

  /** A range worth splitting cannot be deep: the stack stays far below its 100 slots. */
  lemma DepthBound(s: nat, size: int, total: int)
    requires size > SMALL_THRESH && size * Pow2(s) <= total <= 900000
    ensures s <= 16
  {
    if s >= 17 {
      Pow2Monotone(17, s);
      assert Pow2(17) == 131072 by {
        assert Pow2(5) == 32;
        Pow2Add(5, 5);
        Pow2Add(10, 5);
        Pow2Add(15, 2);
      }
      Scale(11, size, Pow2(s));
    }
  }

  /** The stack arrays hold the ranges `st`. */
  ghost predicate Holds(stackLo: seq<int>, stackHi: seq<int>, st: seq<(int, int)>) {
    && |st| <= |stackLo| == |stackHi| == STACK_SIZE
    && forall s :: 0 <= s < |st| ==> st[s] == (stackLo[s], stackHi[s])
  }

  /** Everything the outer loop keeps: see OrderedBut, Apart and Halving. */
  ghost predicate Sorting(f0: seq<int>, f: seq<int>, key: seq<int>, st: seq<(int, int)>, lo: int, hi: int) {
    && 0 <= lo <= hi < |f|
    && Rearranged(f0, f, lo, hi) && Indexes(f, key, 0, lo, hi)
    && Apart(st, lo, hi) && Halving(st, hi - lo + 1)
    && OrderedBut(f, KeyLe(key), st, lo, hi)
  }

  /** A range that is now sorted leaves the stack. */
  lemma RangeDone(f0: seq<int>, f: seq<int>, g: seq<int>, key: seq<int>, st: seq<(int, int)>, top: (int, int), lo: int,
                  hi: int)
    requires Sorting(f0, f, key, st + [top], lo, hi)
    requires Rearranged(f, g, top.0, top.1) && SortedRange(g, key, 0, top.0, top.1)
    ensures Sorting(f0, g, key, st, lo, hi)
  {
    TopInside(st, top, lo, hi);
    Within(f0, f, g, key, top, lo, hi);
    SubIndexes(g, key, top, lo, hi);
    assert OrderedBut(g, KeyLe(key), [], top.0, top.1) by {
      forall x, y | top.0 <= x < y <= top.1
        ensures KeyLe(key)(g[x], g[y])
      {
        assert KeyAt(g, key, 0, x) <= KeyAt(g, key, 0, y);
      }
    }
    StackStep(f, g, KeyLe(key), st, top, [], lo, hi);
    ApartRefined(st, top, [], lo, hi);
    assert st + [] == st;
    forall s | 0 <= s < |st|
      ensures (st[s].1 - st[s].0 + 1) * Pow2(s) <= hi - lo + 1
    {
      assert (st + [top])[s] == st[s];
    }
  }

  /** A split range is replaced by its outer parts, the smaller one on top. */
  lemma RangeSplit(f0: seq<int>, f: seq<int>, g: seq<int>, key: seq<int>, st: seq<(int, int)>, top: (int, int),
                   med: int, n: int, m: int, lo: int, hi: int)
    requires Sorting(f0, f, key, st + [top], lo, hi)
    requires Rearranged(f, g, top.0, top.1) && Split(g, key, 0, med, top.0, n, m, top.1) && n + 1 < m
    ensures var a, b := (top.0, n), (m, top.1);
            Sorting(f0, g, key, st + (if n - top.0 > top.1 - m then [a, b] else [b, a]), lo, hi)
  {
    var a, b := (top.0, n), (m, top.1);
    var children := if n - top.0 > top.1 - m then [a, b] else [b, a];
    TopInside(st, top, lo, hi);
    Within(f0, f, g, key, top, lo, hi);
    SubIndexes(g, key, top, lo, hi);
    assert OrderedBut(g, KeyLe(key), children, top.0, top.1) by {
      forall x, y | top.0 <= x < y <= top.1
        ensures KeyLe(key)(g[x], g[y]) || InSome(children, x, y)
      {
        SplitPair(g, key, med, top, n, m, children, x, y);
      }
    }
    StackStep(f, g, KeyLe(key), st, top, children, lo, hi);
    ApartRefined(st, top, children, lo, hi);
    if n - top.0 > top.1 - m {
      HalvingPush(st, top, a, b, hi - lo + 1);
    } else {
      HalvingPush(st, top, b, a, hi - lo + 1);
    }
  }

  lemma SplitPair(g: seq<int>, key: seq<int>, med: int, top: (int, int), n: int, m: int, children: seq<(int, int)>,
                  x: int, y: int)
    requires Indexes(g, key, 0, top.0, top.1) && Split(g, key, 0, med, top.0, n, m, top.1)
    requires top.0 <= x < y <= top.1
    requires children == [(top.0, n), (m, top.1)] || children == [(m, top.1), (top.0, n)]
    ensures KeyLe(key)(g[x], g[y]) || InSome(children, x, y)
  {
    if y <= n {
      assert children[if children[0] == (top.0, n) then 0 else 1] == (top.0, n);
    } else if m <= x {
      assert children[if children[0] == (m, top.1) then 0 else 1] == (m, top.1);
    } else {
      assert KeyAt(g, key, 0, x) <= KeyAt(g, key, 0, y);
    }
  }

  lemma SubIndexes(g: seq<int>, key: seq<int>, top: (int, int), lo: int, hi: int)
    requires Indexes(g, key, 0, lo, hi) && lo <= top.0 && top.1 <= hi
    ensures Indexes(g, key, 0, top.0, top.1)
  {
  }

  lemma Within(f0: seq<int>, f: seq<int>, g: seq<int>, key: seq<int>, top: (int, int), lo: int, hi: int)
    requires Rearranged(f0, f, lo, hi) && Rearranged(f, g, top.0, top.1) && Indexes(f, key, 0, lo, hi)
    requires lo <= top.0 && top.1 <= hi
    ensures Rearranged(f0, g, lo, hi) && Indexes(g, key, 0, lo, hi)
  {
    RearrangedWiden(f, g, top.0, top.1, lo, hi);
    RearrangedTrans(f0, f, g, lo, hi);
    IndexesRearranged(f, g, key, 0, lo, hi);
  }

  /** The key used for the split: one of three places, picked by the low digit of `r`. */
  method PickMedian(fmap: array<int>, eclass: array<int>, r: nat, lo: int, hi: int) returns (med: int)
    requires fmap != eclass && Indexes(fmap[..], eclass[..], 0, lo, hi) && lo <= hi
    ensures exists x :: lo <= x <= hi && KeyAt(fmap[..], eclass[..], 0, x) == med
  {
    var at := if r % 3 == 0 then lo else if r % 3 == 1 then (lo + hi) / 2 else hi;
    med := eclass[fmap[at]];
    assert KeyAt(fmap[..], eclass[..], 0, at) == med;
  }

  /** fpush. */
  method Push(stackLo: array<int>, stackHi: array<int>, sp: nat, lz: int, hz: int, ghost st: seq<(int, int)>)
    returns (sp': nat)
    requires stackLo != stackHi && Holds(stackLo[..], stackHi[..], st) && sp == |st| < STACK_SIZE
    modifies stackLo, stackHi
    ensures sp' == sp + 1 && Holds(stackLo[..], stackHi[..], st + [(lz, hz)])
  {
    stackLo[sp], stackHi[sp] := lz, hz;
    sp' := sp + 1;
  }

  /** One turn of the outer loop: the top range is sorted outright if short, otherwise split. */
  method Turn(fmap: array<int>, eclass: array<int>, stackLo: array<int>, stackHi: array<int>, sp0: nat, r0: nat,
              ghost f0: seq<int>, ghost st: seq<(int, int)>, ghost loSt: int, ghost hiSt: int)
    returns (sp: nat, r: nat, ghost st': seq<(int, int)>)
    requires fmap != eclass && fmap != stackLo && fmap != stackHi && eclass != stackLo && eclass != stackHi &&
        stackLo != stackHi
    requires Holds(stackLo[..], stackHi[..], st) && 0 < sp0 == |st| <= 18
    requires Sorting(f0, fmap[..], eclass[..], st, loSt, hiSt) && hiSt - loSt + 1 <= 900000
    modifies fmap, stackLo, stackHi
    ensures Holds(stackLo[..], stackHi[..], st') && sp == |st'| <= 18
    ensures Sorting(f0, fmap[..], eclass[..], st', loSt, hiSt)
    ensures Weight(st') < Weight(st)
  {
    hide Sorting, Rearranged, Split, SortedRange, Holds;
    sp, r := sp0 - 1, r0;
    ghost var top, f, below := st[sp], fmap[..], st[..sp];
    assert st == below + [top];
    HoldsTop(stackLo[..], stackHi[..], st);
    var lo, hi := stackLo[sp], stackHi[sp];
    TopFacts(f0, f, eclass[..], below, top, loSt, hiSt);
    WeightTop(below, top);
    HoldsBelow(stackLo[..], stackHi[..], below, top);
    if hi - lo < SMALL_THRESH {
      SimpleSort(fmap, eclass, lo, hi);
      RangeDone(f0, f, fmap[..], eclass[..], below, top, loSt, hiSt);
      return sp, r, below;
    }
    r := (r * 7621 + 1) % 32768;
    var med := PickMedian(fmap, eclass, r, lo, hi);
    var allEqual, n, m := Partition(fmap, eclass[..], 0, med, lo, hi);
    if allEqual {
      EqualSorted(fmap[..], eclass[..], med, lo, hi);
      RangeDone(f0, f, fmap[..], eclass[..], below, top, loSt, hiSt);
      return sp, r, below;
    }
    SplitBounds(fmap[..], eclass[..], med, lo, n, m, hi);
    RangeSplit(f0, f, fmap[..], eclass[..], below, top, med, n, m, loSt, hiSt);
    WeightSplit(below, top, (lo, n), (m, hi));
    if n - lo > hi - m {
      sp := Push(stackLo, stackHi, sp, lo, n, below);
      sp := Push(stackLo, stackHi, sp, m, hi, below + [(lo, n)]);
      st' := below + [(lo, n), (m, hi)];
      assert st' == below + [(lo, n)] + [(m, hi)];
    } else {
      sp := Push(stackLo, stackHi, sp, m, hi, below);
      sp := Push(stackLo, stackHi, sp, lo, n, below + [(m, hi)]);
      st' := below + [(m, hi), (lo, n)];
      assert st' == below + [(m, hi)] + [(lo, n)];
    }
  }

  /** Entries and ranges still to be dealt with: strictly smaller after every turn. */
  ghost function Weight(st: seq<(int, int)>): (w: nat)
  {
    if st == [] then 0
    else
      var top := st[|st| - 1];
      Weight(st[..|st| - 1]) + 1 + 2 * (if top.1 < top.0 then 0 else top.1 - top.0 + 1)
  }

  lemma WeightTop(below: seq<(int, int)>, top: (int, int))
    ensures Weight(below + [top]) == Weight(below) + 1 + 2 * (if top.1 < top.0 then 0 else top.1 - top.0 + 1)
  {
    assert (below + [top])[..|below|] == below;
  }

  lemma WeightSplit(below: seq<(int, int)>, top: (int, int), a: (int, int), b: (int, int))
    requires top.0 - 1 <= a.1 && a.0 == top.0 && b.1 == top.1 && b.0 <= top.1 + 1 && a.1 + 1 < b.0
    ensures Weight(below + [a, b]) < Weight(below + [top])
    ensures Weight(below + [b, a]) < Weight(below + [top])
  {
    WeightTop(below, top);
    assert below + [a, b] == (below + [a]) + [b] && below + [b, a] == (below + [b]) + [a];
    WeightTop(below, a);
    WeightTop(below + [a], b);
    WeightTop(below, b);
    WeightTop(below + [b], a);
  }

  lemma HoldsTop(stackLo: seq<int>, stackHi: seq<int>, st: seq<(int, int)>)
    requires Holds(stackLo, stackHi, st) && st != []
    ensures |stackLo| == |stackHi| == STACK_SIZE && |st| <= STACK_SIZE
    ensures st[|st| - 1] == (stackLo[|st| - 1], stackHi[|st| - 1])
  {
  }

  lemma HoldsBelow(stackLo: seq<int>, stackHi: seq<int>, below: seq<(int, int)>, top: (int, int))
    requires Holds(stackLo, stackHi, below + [top])
    ensures Holds(stackLo, stackHi, below)
  {
    forall s | 0 <= s < |below|
      ensures below[s] == (stackLo[s], stackHi[s])
    {
      assert (below + [top])[s] == below[s];
    }
  }

  /** The top range is inside, and if it is long enough to be split the stack has at most 17 entries. */
  lemma TopFacts(f0: seq<int>, f: seq<int>, key: seq<int>, below: seq<(int, int)>, top: (int, int), lo: int, hi: int)
    requires Sorting(f0, f, key, below + [top], lo, hi) && hi - lo + 1 <= 900000
    ensures lo <= top.0 <= top.1 + 1 && top.1 <= hi < |f| && 0 <= lo
    ensures Indexes(f, key, 0, top.0, top.1)
    ensures top.1 - top.0 >= SMALL_THRESH ==> |below| <= 16
  {
    TopInside(below, top, lo, hi);
    SubIndexes(f, key, top, lo, hi);
    var st := below + [top];
    assert st[|below|] == top;
    if top.1 - top.0 >= SMALL_THRESH {
      DepthBound(|below|, top.1 - top.0 + 1, hi - lo + 1);
    }
  }

  lemma EqualSorted(f: seq<int>, key: seq<int>, med: int, lo: int, hi: int)
    requires forall x :: lo <= x <= hi ==> KeyAt(f, key, 0, x) == med
    ensures SortedRange(f, key, 0, lo, hi)
  {
  }

  lemma SplitBounds(f: seq<int>, key: seq<int>, med: int, lo: int, n: int, m: int, hi: int)
    requires Split(f, key, 0, med, lo, n, m, hi)
    ensures lo - 1 <= n < m <= hi + 1
  {
  }

  lemma Start(f: seq<int>, key: seq<int>, lo: int, hi: int)
    requires 0 <= lo <= hi < |f| && Indexes(f, key, 0, lo, hi)
    ensures Sorting(f, f, key, [(lo, hi)], lo, hi)
  {
    var st := [(lo, hi)];
    assert st[0] == (lo, hi) && Pow2(0) == 1;
  }

  lemma Done(f0: seq<int>, f: seq<int>, key: seq<int>, lo: int, hi: int)
    requires Sorting(f0, f, key, [], lo, hi)
    ensures Rearranged(f0, f, lo, hi) && SortedRange(f, key, 0, lo, hi)
  {
    StackEmpty(f, KeyLe(key), lo, hi);
    forall x, y | lo <= x <= y <= hi
      ensures KeyAt(f, key, 0, x) <= KeyAt(f, key, 0, y)
    {
      assert x < y ==> KeyLe(key)(f[x], f[y]);
    }
  }

  /** fallbackQSort3: sorts the range by class number; the stack assertion never fires. */
  method QSort3(fmap: array<int>, eclass: array<int>, loSt: int, hiSt: int)
    requires fmap != eclass && 0 <= loSt <= hiSt < fmap.Length && hiSt - loSt + 1 <= 900000
    requires Indexes(fmap[..], eclass[..], 0, loSt, hiSt)
    modifies fmap
    ensures Rearranged(old(fmap[..]), fmap[..], loSt, hiSt)
    ensures SortedRange(fmap[..], eclass[..], 0, loSt, hiSt)
  {
    var stackLo, stackHi := new int[STACK_SIZE], new int[STACK_SIZE];
    ghost var f0 := fmap[..];
    ghost var st: seq<(int, int)> := [];
    var r := 0;
    var sp := Push(stackLo, stackHi, 0, loSt, hiSt, []);
    st := [(loSt, hiSt)];
    assert [] + st == st;
    Start(f0, eclass[..], loSt, hiSt);
    while sp > 0
      invariant Holds(stackLo[..], stackHi[..], st) && sp == |st| <= 18
      invariant Sorting(f0, fmap[..], eclass[..], st, loSt, hiSt)
      decreases Weight(st)
    {
      hide Sorting;
      assert sp < 99;
      sp, r, st := Turn(fmap, eclass, stackLo, stackHi, sp, r, f0, st, loSt, hiSt);
    }
    Done(f0, fmap[..], eclass[..], loSt, hiSt);
  }
}
