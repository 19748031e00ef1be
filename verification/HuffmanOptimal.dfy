/** Why the tree BZ2_hbMakeCodeLengths builds (huffman.c) gives a cheapest code for its weights: whatever
    lengths are given to the nodes there are, putting the two lightest together costs no more. */
module HuffmanOptimal {
  import opened Power
  import opened Multiples
  import opened Canonical
  import opened HuffmanTree

  // ----- What a code costs -----

  /** The bits that the first `k` symbols need in all, symbol `i` occurring x[i] times. */
  ghost function Cost(x: seq<nat>, len: seq<int>, k: nat): int
    requires k <= |x| && k <= |len|
  {
    if k == 0 then 0 else Cost(x, len, k - 1) + x[k - 1] * len[k - 1]
  }

  /** The lengths of some prefix code, by Kraft's inequality. */
  ghost predicate Codable(len: seq<int>, top: nat) {
    LengthsWithin(len, 0, top) && KraftSum(len, top, |len|) <= Pow2(top)
  }

  ghost predicate IsCode(len: seq<int>) {
    exists top: nat :: Codable(len, top)
  }

  /** These are the lengths of a prefix code, and no prefix code whatever needs fewer bits. */
  ghost predicate Cheapest(x: seq<nat>, len: seq<int>) {
    && |len| == |x| && IsCode(len)
    && forall other: seq<int>, top: nat :: |other| == |x| && Codable(other, top) ==>
        Cost(x, len, |x|) <= Cost(x, other, |x|)
  }

  // ----- Depths for the roots of a forest -----

  /** Depths for the roots among 1..t that leave room for a tree above them. */
  ghost predicate Fits(parent: seq<int>, d: seq<int>, top: nat, t: nat) {
    && t < |d| && (forall i :: LiveAt(parent, t, i) ==> 0 <= d[i] <= top)
    && Sum(Live(parent, Spaces(d, top), t)) <= Pow2(top)
  }

  ghost function Costs(x: seq<nat>, d: seq<int>): (r: seq<int>)
    requires |x| == |d|
    ensures |r| == |d|
  {
    seq(|d|, i requires 0 <= i < |d| => x[i] * d[i])
  }

  ghost function CutCost(parent: seq<int>, x: seq<nat>, d: seq<int>, t: nat): int
    requires t < |d| == |x|
  {
    Sum(Live(parent, Costs(x, d), t))
  }

  lemma LiveUpdate(parent: seq<int>, f: seq<int>, g: seq<int>, t: nat, r: int)
    requires t < |f| == |g| && LiveAt(parent, t, r) && g == f[r := g[r]]
    ensures Sum(Live(parent, g, t)) == Sum(Live(parent, f, t)) - f[r] + g[r]
  {
    assert Live(parent, g, t) == Live(parent, f, t)[r := g[r]];
    SumUpdate(Live(parent, f, t), r, g[r]);
  }

  /** Another depth for one root. */
  lemma Deepen(parent: seq<int>, x: seq<nat>, d: seq<int>, top: nat, t: nat, r: int, e: int)
    requires t < |d| == |x| && LiveAt(parent, t, r) && 0 <= d[r] <= top && 0 <= e <= top
    ensures CutCost(parent, x, d[r := e], t) == CutCost(parent, x, d, t) - x[r] * d[r] + x[r] * e
    ensures Sum(Live(parent, Spaces(d[r := e], top), t)) ==
        Sum(Live(parent, Spaces(d, top), t)) - Pow2(top - d[r]) + Pow2(top - e)
  {
    hide LiveAt, Sum, Pow2;
    LiveIndex(parent, t, r);
    assert Costs(x, d[r := e]) == Costs(x, d)[r := x[r] * e];
    LiveUpdate(parent, Costs(x, d), Costs(x, d[r := e]), t, r);
    assert Spaces(d[r := e], top) == Spaces(d, top)[r := Pow2(top - e)];
    LiveUpdate(parent, Spaces(d, top), Spaces(d[r := e], top), t, r);
  }

  lemma LiveIndex(parent: seq<int>, t: nat, r: int)
    requires LiveAt(parent, t, r)
    ensures 1 <= r <= t
  {
  }

  /** The lighter of two roots may as well be the deeper one. */
  lemma Swap(parent: seq<int>, x: seq<nat>, d: seq<int>, top: nat, t: nat, p: int, q: int) returns (e: seq<int>)
    requires Fits(parent, d, top, t) && |x| == |d| && LiveAt(parent, t, p) && LiveAt(parent, t, q)
    requires x[p] <= x[q] && d[p] <= d[q]
    ensures e == d[p := d[q]][q := d[p]] && Fits(parent, e, top, t) &&
        CutCost(parent, x, e, t) <= CutCost(parent, x, d, t)
  {
    hide LiveAt, Live, Sum, Spaces, Pow2, CutCost;
    LiveAll(parent, t);
    e := d[p := d[q]][q := d[p]];
    if p == q { assert e == d; return; }
    Deepen(parent, x, d, top, t, p, d[q]);
    Deepen(parent, x, d[p := d[q]], top, t, q, d[p]);
    Exchange(x[p], x[q], d[p], d[q]);
  }

  lemma Exchange(x: nat, y: nat, d: int, e: int)
    requires x <= y && d <= e
    ensures x * e + y * d <= x * d + y * e
  {
    assert (y - x) * (e - d) >= 0;
  }

  /** A deepest root other than `but`. */
  lemma {:induction false} Deepest(parent: seq<int>, d: seq<int>, t: nat, k: nat, but: int, some: int) returns (m: int)
    requires k <= t < |d| && 1 <= some <= k && some != but && LiveAt(parent, t, some)
    ensures LiveAt(parent, t, m) && m != but && 1 <= m <= t
    ensures forall i :: LiveAt(parent, t, i) && i != but && 1 <= i <= k ==> d[i] <= d[m]
    decreases k
  {
    hide LiveAt;
    if exists i :: LiveAt(parent, t, i) && i != but && 1 <= i < k {
      var i :| LiveAt(parent, t, i) && i != but && 1 <= i < k;
      m := Deepest(parent, d, t, k - 1, but, i);
      if LiveAt(parent, t, k) && k != but && d[k] > d[m] { m := k; }
    } else {
      m := some;
    }
  }

  // ----- The two deepest are equally deep -----

  lemma {:induction false} SumDivided(f: seq<int>, m: nat)
    requires forall i :: 0 <= i < |f| ==> Divides(m, f[i])
    ensures Divides(m, Sum(f))
  {
    hide Divides;
    if f == [] {
      DividesZero(m);
    } else {
      SumDivided(f[..|f| - 1], m);
      DividesSum(m, Sum(f[..|f| - 1]), f[|f| - 1]);
    }
  }

  lemma PowDivides(h: nat, k: nat)
    requires h <= k
    ensures Divides(Pow2(h), Pow2(k))
  {
    Pow2Add(k - h, h);
    assert Times(Pow2(k - h), Pow2(h)) == Pow2(k);
  }

  /** The deepest root `c` need not be deeper than the next, `e`: what the others take of the code space is
      a multiple of what `e` takes, and `c` takes something. */
  lemma Level(parent: seq<int>, x: seq<nat>, d: seq<int>, top: nat, t: nat, c: int, e: int)
    requires Fits(parent, d, top, t) && |x| == |d| && LiveAt(parent, t, c) && LiveAt(parent, t, e) && c != e
    requires d[e] <= d[c] && forall i :: LiveAt(parent, t, i) && i != c ==> d[i] <= d[e]
    ensures d[e] >= 1 && Fits(parent, d[c := d[e]], top, t) &&
        CutCost(parent, x, d[c := d[e]], t) <= CutCost(parent, x, d, t)
  {
    hide CutCost, Pow2, Fits, LiveAt, Live, Sum, Divides;
    FitsAt(parent, d, top, t, c);
    FitsAt(parent, d, top, t, e);
    var m := Pow2(top - d[e]);
    var f := OthersSum(parent, d, top, t, c, e);
    PowDivides(top - d[e], top);
    StepBelow(m, Sum(f), Pow2(top));
    assert d[e] >= 1 by { AtLeast(f, e); }
    Deepen(parent, x, d, top, t, c, d[e]);
    FitsFrom(parent, d, top, t, c, d[e]);
    Less(x[c], d[e], d[c]);
  }

  lemma FitsAt(parent: seq<int>, d: seq<int>, top: nat, t: nat, r: int)
    requires Fits(parent, d, top, t) && LiveAt(parent, t, r)
    ensures 1 <= r <= t < |d| && 0 <= d[r] <= top
  {
    hide Live, Sum;
  }

  lemma FitsFrom(parent: seq<int>, d: seq<int>, top: nat, t: nat, r: int, e: int)
    requires Fits(parent, d, top, t) && 0 <= r < |d| && 0 <= e <= top &&
        Sum(Live(parent, Spaces(d[r := e], top), t)) <= Pow2(top)
    ensures Fits(parent, d[r := e], top, t)
  {
    hide Live, Sum, Pow2;
  }

  lemma Less(x: nat, d: int, e: int)
    requires d <= e
    ensures x * d <= x * e
  {
  }

  /** The code space of all but `c`: a multiple of what the deepest of them takes, and not all. */
  lemma OthersSum(parent: seq<int>, d: seq<int>, top: nat, t: nat, c: int, e: int) returns (f: seq<int>)
    requires Fits(parent, d, top, t) && LiveAt(parent, t, c) && LiveAt(parent, t, e) && c != e && 1 <= c < |d| &&
        1 <= e < |d| && d[e] <= top
    requires forall i :: LiveAt(parent, t, i) && i != c ==> d[i] <= d[e]
    ensures |f| == t + 1 && 1 <= e <= t && f[e] == Pow2(top - d[e]) && forall i :: 0 <= i < |f| ==> f[i] >= 0
    ensures 0 <= d[c] <= top && Sum(f) == Sum(Live(parent, Spaces(d, top), t)) - Pow2(top - d[c]) < Pow2(top)
    ensures Divides(Pow2(top - d[e]), Sum(f))
  {
    hide Pow2, Sum, Divides;
    FitsAt(parent, d, top, t, c);
    FitsAt(parent, d, top, t, e);
    var s, m := Spaces(d, top), Pow2(top - d[e]);
    f := Live(parent, s, t)[c := 0];
    SumUpdate(Live(parent, s, t), c, 0);
    forall i | 0 <= i < |f|
      ensures Divides(m, f[i]) && f[i] >= 0
    {
      if LiveAt(parent, t, i) && i != c {
        FitsAt(parent, d, top, t, i);
        PowDivides(top - d[e], top - d[i]);
      } else {
        DividesZero(m);
      }
    }
    SumDivided(f, m);
  }

  lemma {:induction false} AtLeast(f: seq<int>, r: nat)
    requires r < |f| && forall i :: 0 <= i < |f| ==> f[i] >= 0
    ensures f[r] <= Sum(f)
  {
    NotNegative(f[..|f| - 1]);
    if r < |f| - 1 { AtLeast(f[..|f| - 1], r); }
  }

  lemma {:induction false} NotNegative(f: seq<int>)
    requires forall i :: 0 <= i < |f| ==> f[i] >= 0
    ensures Sum(f) >= 0
  {
    if f != [] { NotNegative(f[..|f| - 1]); }
  }

  // ----- Greedy trees -----

  /** The tree was built by always putting the two lightest roots together. */
  ghost predicate Greedy(x: seq<nat>, parent: seq<int>, kids: seq<(int, int)>, a: nat, n: nat) {
    && n < |x| && n < |kids|
    && (forall t :: a < t <= n ==> 0 <= kids[t].0 < |x| && 0 <= kids[t].1 < |x|)
    && (forall t :: a < t <= n ==> x[t] == x[kids[t].0] + x[kids[t].1])
    && (forall t :: a < t <= n ==> LightestAt(x, parent, kids[t].0, kids[t].1, t - 1))
  }

  /** `c` and then `e` are the lightest of the roots among 1..t. */
  ghost predicate LightestAt(x: seq<nat>, parent: seq<int>, c: int, e: int, t: nat) {
    && t < |x| && 0 <= c < |x| && 0 <= e < |x|
    && x[c] <= x[e] && forall i :: LiveAt(parent, t, i) && i != c ==> x[e] <= x[i]
  }

  /** The weights in a sequence of weight words. */
  ghost function WeightsOf(w: seq<nat>): (r: seq<nat>)
    ensures |r| == |w|
  {
    seq(|w|, i requires 0 <= i < |w| => WeightOf(w[i]))
  }

  /** Nodes 1..t are as before a merge of the roots `c` and `d` under a later node. */
  lemma LightestKept(x: seq<nat>, y: seq<nat>, parent: seq<int>, c: nat, d: nat, t: nat, p: int, q: int, u: nat)
    requires |y| == |x| == |parent| && c < t < |x| && d < t && u < t && parent[c] == -1 == parent[d]
    requires forall i :: 0 <= i < t ==> y[i] == x[i]
    requires LightestAt(x, parent, p, q, u) && p < t && q < t
    ensures LightestAt(y, MergedParent(parent, c, d, t), p, q, u)
  {
    forall i | LiveAt(MergedParent(parent, c, d, t), u, i)
      ensures LiveAt(parent, u, i)
    {
    }
  }

  lemma LightestWas(x: seq<nat>, parent: seq<int>, kids: seq<(int, int)>, a: nat, n: nat, u: nat)
    requires Greedy(x, parent, kids, a, n) && a < u <= n
    ensures LightestAt(x, parent, kids[u].0, kids[u].1, u - 1)
  {
    hide LightestAt;
  }

  /** What a merge keeps of the node `u` there was. */
  lemma OldMerge(w: seq<nat>, v: seq<nat>, parent: seq<int>, kids: seq<(int, int)>, a: nat, n: nat, c: nat, d: nat,
                 u: nat)
    requires TwoRoots(w, parent, kids, a, n, c, d) && Greedy(WeightsOf(w), parent, kids, a, n) && a < u <= n
    requires |v| == |w| && forall i :: 0 <= i <= n ==> v[i] == w[i]
    ensures 1 <= kids[u].0 < u && 1 <= kids[u].1 < u
    ensures WeightsOf(v)[u] == WeightsOf(v)[kids[u].0] + WeightsOf(v)[kids[u].1]
    ensures LightestAt(WeightsOf(v), MergedParent(parent, c, d, n + 1), kids[u].0, kids[u].1, u - 1)
  {
    hide WeightOf, DepthOf, LightestAt, MergedParent, Weights;
    LightestWas(WeightsOf(w), parent, kids, a, n, u);
    LightestKept(WeightsOf(w), WeightsOf(v), parent, c, d, n + 1, kids[u].0, kids[u].1, u - 1);
  }

  /** A merge of the two lightest roots keeps the tree greedy. */
  lemma MergeGreedy(w: seq<nat>, parent: seq<int>, kids: seq<(int, int)>, a: nat, n: nat, c: nat, d: nat)
    requires TwoRoots(w, parent, kids, a, n, c, d) && Greedy(WeightsOf(w), parent, kids, a, n)
    requires WeightOf(w[c]) <= WeightOf(w[d])
    requires forall k :: 1 <= k <= n && parent[k] == -1 && k != c ==> WeightOf(w[d]) <= WeightOf(w[k])
    ensures Greedy(WeightsOf(w[n + 1 := AddWeights(w[c], w[d])]), MergedParent(parent, c, d, n + 1),
        kids[n + 1 := (c, d)], a, n + 1)
  {
    hide AddWeights, WeightOf, DepthOf, LiveAt, Forest, LightestAt, MergedParent, Greedy;
    TwoRootsLinks(w, parent, kids, a, n, c, d);
    var t := n + 1;
    var v, kids2 := w[t := AddWeights(w[c], w[d])], kids[t := (c, d)];
    var y, parent2 := WeightsOf(v), MergedParent(parent, c, d, t);
    forall u | a < u <= t
      ensures 0 <= kids2[u].0 < |y| && 0 <= kids2[u].1 < |y| && y[u] == y[kids2[u].0] + y[kids2[u].1]
      ensures LightestAt(y, parent2, kids2[u].0, kids2[u].1, u - 1)
    {
      if u <= n {
        OldMerge(w, v, parent, kids, a, n, c, d, u);
      } else {
        AddWeightsParts(w[c], w[d]);
        NewLightest(w, y, parent, a, c, d, t);
      }
    }
    GreedyFrom(y, parent2, kids2, a, t);
  }

  lemma TwoRootsLinks(w: seq<nat>, parent: seq<int>, kids: seq<(int, int)>, a: nat, n: nat, c: nat, d: nat)
    requires TwoRoots(w, parent, kids, a, n, c, d)
    ensures Links(parent, a, n) && |w| == |parent| == |kids|
  {
  }

  lemma GreedyFrom(x: seq<nat>, parent: seq<int>, kids: seq<(int, int)>, a: nat, n: nat)
    requires n < |x| && n < |kids|
    requires forall t :: a < t <= n ==>
        0 <= kids[t].0 < |x| && 0 <= kids[t].1 < |x| && x[t] == x[kids[t].0] + x[kids[t].1]
    requires forall t :: a < t <= n ==> LightestAt(x, parent, kids[t].0, kids[t].1, t - 1)
    ensures Greedy(x, parent, kids, a, n)
  {
    hide LightestAt;
  }

  lemma NewLightest(w: seq<nat>, y: seq<nat>, parent: seq<int>, a: nat, c: nat, d: nat, t: nat)
    requires |y| == |w| == |parent| && 0 < t < |w| && 1 <= c < t && 1 <= d < t && Links(parent, a, t - 1)
    requires forall i :: 0 <= i < t ==> y[i] == WeightOf(w[i])
    requires WeightOf(w[c]) <= WeightOf(w[d])
    requires forall k :: 1 <= k < t && parent[k] == -1 && k != c ==> WeightOf(w[d]) <= WeightOf(w[k])
    ensures LightestAt(y, MergedParent(parent, c, d, t), c, d, t - 1)
  {
    hide WeightOf;
    var parent2 := MergedParent(parent, c, d, t);
    forall i | LiveAt(parent2, t - 1, i) && i != c
      ensures y[d] <= y[i]
    {
      if i != d { assert parent[i] == -1; }
    }
  }

  // ----- One merge -----

  /** The two lightest may as well be the two deepest, and equally deep. */
  lemma BringDown(parent: seq<int>, x: seq<nat>, d: seq<int>, top: nat, t: nat, c: int, e: int) returns (d1: seq<int>)
    requires Fits(parent, d, top, t) && |x| == |d| && LiveAt(parent, t, c) && LiveAt(parent, t, e) && c != e
    requires LightestAt(x, parent, c, e, t)
    ensures Fits(parent, d1, top, t) && |d1| == |d| && CutCost(parent, x, d1, t) <= CutCost(parent, x, d, t)
    ensures d1[c] == d1[e] >= 1
  {
    hide Fits, CutCost, LiveAt;
    LiveIndex(parent, t, c);
    LiveIndex(parent, t, e);
    FitsSize(parent, d, top, t);
    var p := Deepest(parent, d, t, t, 0, c);
    LiveAll(parent, t);
    var d2 := Swap(parent, x, d, top, t, c, p);
    assert forall i :: LiveAt(parent, t, i) ==> d2[i] <= d2[c];
    var q := Deepest(parent, d2, t, t, c, e);
    var d3 := Swap(parent, x, d2, top, t, e, q);
    assert d3[c] == d2[c];
    Level(parent, x, d3, top, t, c, e);
    d1 := d3[c := d3[e]];
  }

  lemma FitsSize(parent: seq<int>, d: seq<int>, top: nat, t: nat)
    requires Fits(parent, d, top, t)
    ensures t < |d|
  {
  }

  lemma LiveAll(parent: seq<int>, t: nat)
    ensures forall i :: LiveAt(parent, t, i) ==> 1 <= i <= t
  {
  }

  /** Depths before a merge give depths after it that cost less by the merged weight. */
  lemma MergeStep(x: seq<nat>, parent: seq<int>, kids: seq<(int, int)>, a: nat, n: nat, d: seq<int>, top: nat, t: nat)
    returns (d1: seq<int>)
    requires Links(parent, a, n) && Children(parent, kids, a, n) && Greedy(x, parent, kids, a, n) && a < t <= n < |kids|
    requires n < |d| == |x| && Fits(parent, d, top, t - 1)
    ensures |d1| == |x| && Fits(parent, d1, top, t) && CutCost(parent, x, d1, t) + x[t] <= CutCost(parent, x, d, t - 1)
  {
    hide Links, Children, LiveAt, Fits, Greedy, CutCost, LightestAt;
    var c, e := kids[t].0, kids[t].1;
    TwoLive(parent, kids, a, n, t);
    MergedWeight(x, parent, kids, a, n, t);
    var d2 := BringDown(parent, x, d, top, t - 1, c, e);
    d1 := d2[t := d2[c] - 1];
    MergeCost(x, parent, kids, a, n, d2, d1, t);
    MergeFits(parent, kids, a, n, d2, d1, top, t);
  }

  lemma TwoLive(parent: seq<int>, kids: seq<(int, int)>, a: nat, n: nat, t: nat)
    requires Links(parent, a, n) && Children(parent, kids, a, n) && a < t <= n
    ensures 1 <= kids[t].0 < t && 1 <= kids[t].1 < t && kids[t].0 != kids[t].1
    ensures LiveAt(parent, t - 1, kids[t].0) && LiveAt(parent, t - 1, kids[t].1)
  {
  }

  lemma MergedWeight(x: seq<nat>, parent: seq<int>, kids: seq<(int, int)>, a: nat, n: nat, t: nat)
    requires Greedy(x, parent, kids, a, n) && a < t <= n
    ensures n < |x| && n < |kids| && 0 <= kids[t].0 < |x| && 0 <= kids[t].1 < |x| && x[t] == x[kids[t].0] + x[kids[t].1]
    ensures LightestAt(x, parent, kids[t].0, kids[t].1, t - 1)
  {
    hide LightestAt;
  }

  lemma MergeCost(x: seq<nat>, parent: seq<int>, kids: seq<(int, int)>, a: nat, n: nat, d: seq<int>, d1: seq<int>,
                  t: nat)
    requires Links(parent, a, n) && Children(parent, kids, a, n) && a < t <= n < |x| == |d|
    requires 1 <= kids[t].0 < t && 1 <= kids[t].1 < t && d[kids[t].0] == d[kids[t].1] && d1 == d[t := d[kids[t].0] - 1]
    requires x[t] == x[kids[t].0] + x[kids[t].1]
    ensures CutCost(parent, x, d1, t) + x[t] == CutCost(parent, x, d, t - 1)
  {
    KidsInRange(parent, kids, a, n, t);
    hide Links, Children, LiveAt, Sum, Live;
    LiveStep(parent, kids, a, n, Costs(x, d1), t);
    SameBelow(parent, Costs(x, d1), Costs(x, d), t - 1);
    var c, e := kids[t].0, kids[t].1;
    Spread(x[c], x[e], d[c]);
    assert x[t] * d1[t] + x[t] == x[c] * d[c] + x[e] * d[e];
  }

  lemma MergeFits(parent: seq<int>, kids: seq<(int, int)>, a: nat, n: nat, d: seq<int>, d1: seq<int>, top: nat, t: nat)
    requires Links(parent, a, n) && Children(parent, kids, a, n) && a < t <= n < |d| && n < |kids| &&
        Fits(parent, d, top, t - 1)
    requires 1 <= kids[t].0 < t && 1 <= kids[t].1 < t && d[kids[t].0] == d[kids[t].1] >= 1 &&
        d1 == d[t := d[kids[t].0] - 1]
    ensures Fits(parent, d1, top, t)
  {
    hide Links, Children, LiveAt, Sum, Live, Pow2;
    LiveBelow(parent, t);
    TwoLive(parent, kids, a, n, t);
    var c := kids[t].0;
    FitsAt(parent, d, top, t - 1, c);
    assert d1[t] == d[c] - 1;
    LiveStep(parent, kids, a, n, Spaces(d1, top), t);
    SameBelow(parent, Spaces(d1, top), Spaces(d, top), t - 1);
    TwiceAsMuch(top - d[c]);
    assert top - d1[t] == top - d[c] + 1;
  }

  lemma LiveBelow(parent: seq<int>, t: nat)
    requires t > 0
    ensures forall i :: LiveAt(parent, t, i) ==> 1 <= i <= t && (i == t || LiveAt(parent, t - 1, i))
  {
  }

  lemma Spread(x: int, y: int, d: int)
    ensures (x + y) * (d - 1) + (x + y) == x * d + y * d
  {
  }

  lemma SameBelow(parent: seq<int>, f: seq<int>, g: seq<int>, t: nat)
    requires t < |f| == |g| && forall i :: 0 <= i <= t ==> f[i] == g[i]
    ensures Live(parent, f, t) == Live(parent, g, t)
  {
  }

  // ----- The whole tree -----

  /** The weights of the nodes t+1..n. */
  ghost function Inner(x: seq<nat>, t: nat, n: nat): int
    requires n < |x|
    decreases n - t
  {
    if t >= n then 0 else x[t + 1] + Inner(x, t + 1, n)
  }

  lemma GreedySize(x: seq<nat>, parent: seq<int>, kids: seq<(int, int)>, a: nat, n: nat)
    requires Greedy(x, parent, kids, a, n)
    ensures n < |x| && n < |kids|
  {
    hide LightestAt;
  }

  /** The root alone costs its weight times its depth. */
  lemma RootCost(x: seq<nat>, parent: seq<int>, a: nat, n: nat, d: seq<int>)
    requires Links(parent, a, n) && OneRoot(parent, n) && 0 < n < |d| == |x|
    ensures CutCost(parent, x, d, n) == x[n] * d[n]
  {
    LiveRoot(parent, n, Costs(x, d));
  }

  lemma RootFits(parent: seq<int>, a: nat, n: nat, d: seq<int>, top: nat)
    requires OneRoot(parent, n) && 0 < n && Fits(parent, d, top, n)
    ensures 0 <= d[n]
  {
    assert LiveAt(parent, n, n);
  }

  lemma RootDepth(parent: seq<int>, a: nat, n: nat)
    requires Links(parent, a, n) && OneRoot(parent, n) && 0 < n
    ensures Dep(parent, a, n, n) == 0
  {
  }

  /** No depths cost less than the inner nodes weigh. */
  lemma {:induction false} LowerBound(x: seq<nat>, parent: seq<int>, kids: seq<(int, int)>, a: nat, n: nat, d: seq<int>,
                                      top: nat, t: nat)
    requires Links(parent, a, n) && Children(parent, kids, a, n) && Greedy(x, parent, kids, a, n) && OneRoot(parent, n)
    requires a <= t <= n && 0 < n && |d| == |x| && Fits(parent, d, top, t)
    ensures Inner(x, t, n) <= CutCost(parent, x, d, t)
    decreases n - t
  {
    hide Links, Children, Greedy, OneRoot, Fits, CutCost;
    GreedySize(x, parent, kids, a, n);
    if t == n {
      RootCost(x, parent, a, n, d);
      assert 0 <= d[n] by { RootFits(parent, a, n, d, top); }
    } else {
      var d1 := MergeStep(x, parent, kids, a, n, d, top, t + 1);
      LowerBound(x, parent, kids, a, n, d1, top, t + 1);
    }
  }

  /** The children of `t` are one deeper than it. */
  lemma StepCost(x: seq<nat>, parent: seq<int>, kids: seq<(int, int)>, a: nat, n: nat, d: seq<int>, t: nat)
    requires Links(parent, a, n) && Children(parent, kids, a, n) && Greedy(x, parent, kids, a, n) && a < t <= n
    requires |d| == |x| && forall i :: 1 <= i <= n ==> d[i] == Dep(parent, a, n, i)
    ensures CutCost(parent, x, d, t - 1) == CutCost(parent, x, d, t) + x[t]
  {
    MergedWeight(x, parent, kids, a, n, t);
    KidsDeeper(parent, kids, a, n, t);
    hide Links, Children, Dep, CutCost, Greedy, LightestAt;
    assert d == d[t := d[kids[t].0] - 1];
    MergeCost(x, parent, kids, a, n, d, d, t);
  }

  lemma KidsInRange(parent: seq<int>, kids: seq<(int, int)>, a: nat, n: nat, t: nat)
    requires Children(parent, kids, a, n) && t <= n
    ensures t < |kids|
  {
  }

  /** The tree's own depths cost just that. */
  lemma {:induction false} TreeCost(x: seq<nat>, parent: seq<int>, kids: seq<(int, int)>, a: nat, n: nat, d: seq<int>,
                                    t: nat)
    requires Links(parent, a, n) && Children(parent, kids, a, n) && Greedy(x, parent, kids, a, n) && OneRoot(parent, n)
    requires a <= t <= n && 0 < n && |d| == |x| && forall i :: 1 <= i <= n ==> d[i] == Dep(parent, a, n, i)
    ensures Inner(x, t, n) == CutCost(parent, x, d, t)
    decreases n - t
  {
    hide Links, Children, Greedy, OneRoot, CutCost, Dep;
    GreedySize(x, parent, kids, a, n);
    if t == n {
      RootCost(x, parent, a, n, d);
      assert d[n] == 0 by { RootDepth(parent, a, n); }
    } else {
      TreeCost(x, parent, kids, a, n, d, t + 1);
      StepCost(x, parent, kids, a, n, d, t + 1);
    }
  }

  /** Code lengths as depths of the leaves 1..a. */
  ghost function OnLeaves(len: seq<int>, size: nat): (r: seq<int>)
    ensures |r| == size
  {
    seq(size, i => if 1 <= i <= |len| then len[i - 1] else 0)
  }

  lemma {:induction false} CostOfCut(f: seq<int>, x: seq<nat>, y: seq<nat>, len: seq<int>, k: nat)
    requires k <= |len| == |y| && |y| < |x| && |len| < |f| && f[0] == 0
    requires forall i :: 0 <= i < |len| ==> y[i] == x[i + 1] && f[i + 1] == x[i + 1] * len[i]
    ensures Sum(f[..k + 1]) == Cost(y, len, k)
  {
    if k == 0 {
      assert f[..1][..0] == [];
    } else {
      CostOfCut(f, x, y, len, k - 1);
      assert f[..k + 1][..k] == f[..k];
    }
  }

  /** At the leaves, depths are code lengths. */
  lemma AtLeaves(x: seq<nat>, y: seq<nat>, parent: seq<int>, a: nat, n: nat, len: seq<int>, d: seq<int>)
    requires Links(parent, a, n) && n < |x| == |d| && |len| == a && y == x[1..a + 1]
    requires forall i :: 0 <= i < a ==> d[i + 1] == len[i]
    ensures CutCost(parent, x, d, a) == Cost(y, len, a)
  {
    var f := Live(parent, Costs(x, d), a);
    forall i | 0 <= i < a
      ensures f[i + 1] == x[i + 1] * len[i]
    {
      LiveLeaves(parent, a, n, Costs(x, d), i + 1);
    }
    assert f[..a + 1] == f;
    CostOfCut(f, x, y, len, a);
  }

  lemma CodableFits(parent: seq<int>, a: nat, n: nat, len: seq<int>, top: nat, d: seq<int>)
    requires Links(parent, a, n) && n < |d| && |len| == a && Codable(len, top)
    requires forall i :: 0 <= i < a ==> d[i + 1] == len[i]
    ensures Fits(parent, d, top, a)
  {
    hide Pow2;
    var f := Live(parent, Spaces(d, top), a);
    forall i | 0 <= i < a
      ensures f[i + 1] == Pow2(top - len[i])
    {
      LiveLeaves(parent, a, n, Spaces(d, top), i + 1);
    }
    assert f[..a + 1] == f;
    SpacesAreKraft(f, len, top, a);
    forall i | LiveAt(parent, a, i)
      ensures 0 <= d[i] <= top
    {
      assert d[i] == len[i - 1];
    }
  }

  lemma {:induction false} DepthBound(parent: seq<int>, a: nat, n: nat, k: nat)
    requires Links(parent, a, n) && 1 <= k <= n
    ensures Dep(parent, a, n, k) <= n - k
    decreases n - k
  {
    if parent[k] != -1 { DepthBound(parent, a, n, parent[k]); }
  }

  /** The depths of the leaves of a tree are the lengths of a code. */
  lemma DepthsAreCode(parent: seq<int>, kids: seq<(int, int)>, a: nat, n: nat, len: seq<int>)
    requires Children(parent, kids, a, n) && OneRoot(parent, n) && 0 < n && LeafDepths(parent, a, n, len)
    ensures IsCode(len)
  {
    forall i | 0 <= i < a
      ensures 0 <= len[i] <= n
    {
      DepthBound(parent, a, n, i + 1);
      assert len[i] == Dep(parent, a, n, i + 1);
    }
    TreeIsComplete(parent, kids, a, n, n, len);
    assert Codable(len, n);
  }

  /** The depths of the leaves of a greedily built tree are the lengths of a cheapest code. */
  lemma GreedyIsCheapest(x: seq<nat>, parent: seq<int>, kids: seq<(int, int)>, a: nat, n: nat, len: seq<int>)
    requires Links(parent, a, n) && Children(parent, kids, a, n) && Greedy(x, parent, kids, a, n) &&
        OneRoot(parent, n) && 0 < n
    requires LeafDepths(parent, a, n, len)
    ensures Cheapest(x[1..a + 1], len)
  {
    hide IsCode;
    DepthsAreCode(parent, kids, a, n, len);
    var y := x[1..a + 1];
    var own := Depths(parent, a, n) + OnLeaves([], |x| - n - 1);
    TreeCost(x, parent, kids, a, n, own, a);
    AtLeaves(x, y, parent, a, n, len, own);
    forall other: seq<int>, top: nat | |other| == a && Codable(other, top)
      ensures Cost(y, len, a) <= Cost(y, other, a)
    {
      var d := OnLeaves(other, |x|);
      CodableFits(parent, a, n, other, top, d);
      LowerBound(x, parent, kids, a, n, d, top, a);
      AtLeaves(x, y, parent, a, n, other, d);
    }
  }
}
