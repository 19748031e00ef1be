/** The forest BZ2_hbMakeCodeLengths builds (huffman.c): nodes 1..n, the first `a` of them leaves.
    A weight word holds the weight above bit 8 and the height of the subtree in the low byte. */
module HuffmanTree {
  import opened Power
  import opened Canonical

  /** WEIGHTOF (shifted down) and DEPTHOF. */
  function WeightOf(x: nat): (r: nat) { x / 256 }

  function DepthOf(x: nat): (r: nat)
    ensures r < 256
  {
    x % 256
  }

  function Max(x: int, y: int): int { if x > y then x else y }

  /** The nodes of a forest: every parent is a later internal node. */
  ghost predicate Links(parent: seq<int>, a: nat, n: nat) {
    && a <= n < |parent|
    && forall k :: 1 <= k <= n ==> parent[k] == -1 || (k < parent[k] <= n && a < parent[k])
  }

  /** `kids[t]` are the two children of every internal node `t`, and it has no others. */
  ghost predicate Children(parent: seq<int>, kids: seq<(int, int)>, a: nat, n: nat) {
    && n < |kids| && n < |parent|
    && (forall t :: a < t <= n ==> 1 <= kids[t].0 < t && 1 <= kids[t].1 < t && kids[t].0 != kids[t].1)
    && (forall t :: a < t <= n ==> parent[kids[t].0] == t && parent[kids[t].1] == t)
    && (forall k :: 1 <= k <= n && a < parent[k] <= n ==> k == kids[parent[k]].0 || k == kids[parent[k]].1)
  }

  /** Weight words: leaves have height 0, an internal node the sum of the weights of its children
      and one more than the greater height. */
  ghost predicate Weights(w: seq<nat>, kids: seq<(int, int)>, a: nat, n: nat) {
    && n < |w| && n < |kids|
    && (forall k :: 1 <= k <= n ==> WeightOf(w[k]) >= 1)
    && (forall k :: 1 <= k <= a && k <= n ==> DepthOf(w[k]) == 0)
    && (forall t :: a < t <= n ==> 0 <= kids[t].0 < |w| && 0 <= kids[t].1 < |w|)
    && (forall t :: a < t <= n ==> WeightOf(w[t]) == WeightOf(w[kids[t].0]) + WeightOf(w[kids[t].1]))
    && (forall t :: a < t <= n ==> DepthOf(w[t]) == 1 + Max(DepthOf(w[kids[t].0]), DepthOf(w[kids[t].1])))
  }

  ghost predicate Forest(w: seq<nat>, parent: seq<int>, kids: seq<(int, int)>, a: nat, n: nat) {
    && |w| == |parent| == |kids|
    && Links(parent, a, n) && Children(parent, kids, a, n) && Weights(w, kids, a, n)
  }

  // ----- Why trees stay shallow -----

  /** 1, 2, 3, 5, 8, ... */
  ghost function Fib(d: nat): (r: nat)
    ensures r >= 1
  {
    if d == 0 then 1 else if d == 1 then 2 else Fib(d - 1) + Fib(d - 2)
  }

  /** Nothing merged so far was heavier than any root is now, and a tree of height d weighs at
      least the d-th Fibonacci number. */
  ghost predicate Shallow(w: seq<nat>, parent: seq<int>, kids: seq<(int, int)>, a: nat, n: nat, m: nat)
  {
    && n < |w| && n < |parent| && n < |kids|
    && (forall t :: a < t <= n ==> 0 <= kids[t].0 < |w| && 0 <= kids[t].1 < |w|)
    && (forall t :: a < t <= n ==> WeightOf(w[kids[t].0]) <= m && WeightOf(w[kids[t].1]) <= m)
    && (forall k :: 1 <= k <= n && parent[k] == -1 ==> m <= WeightOf(w[k]))
    && (forall k :: 1 <= k <= n ==> Fib(DepthOf(w[k])) <= WeightOf(w[k]))
  }

  lemma FibSteps(h: nat)
    ensures Fib(0) == 1 && Fib(1) == 2
    ensures h > 0 ==> Fib(1 + h) == Fib(h) + Fib(h - 1)
  {
  }

  /** A tall tree and any other root together weigh the next Fibonacci number. */
  lemma MergeHeavy(w: seq<nat>, parent: seq<int>, kids: seq<(int, int)>, a: nat, n: nat, m: nat, c: nat, d: nat)
    requires Forest(w, parent, kids, a, n) && Shallow(w, parent, kids, a, n, m)
    requires 1 <= c <= n && 1 <= d <= n && parent[d] == -1
    ensures Fib(1 + DepthOf(w[c])) <= WeightOf(w[c]) + WeightOf(w[d])
  {
    hide Links, WeightOf, DepthOf, Fib;
    var h := DepthOf(w[c]);
    FibSteps(h);
    if h > 0 {
      assert a < c;
      var e := if DepthOf(w[kids[c].0]) > DepthOf(w[kids[c].1]) then kids[c].0 else kids[c].1;
      assert DepthOf(w[e]) == h - 1;
      assert Fib(h - 1) <= WeightOf(w[e]) <= m;
    }
  }

  /** The sum of the weights of the roots among nodes 1..k. */
  ghost function RootSum(w: seq<nat>, parent: seq<int>, k: nat): (r: nat)
    requires k < |w| && k < |parent|
  {
    if k == 0 then 0 else RootSum(w, parent, k - 1) + if parent[k] == -1 then WeightOf(w[k]) else 0
  }

  lemma {:induction false} RootAtMost(w: seq<nat>, parent: seq<int>, k: nat, r: nat)
    requires 1 <= r <= k && k < |w| && k < |parent| && parent[r] == -1
    ensures WeightOf(w[r]) <= RootSum(w, parent, k)
  {
    if r < k {
      RootAtMost(w, parent, k - 1, r);
    }
  }

  lemma {:induction false} RootSumFrame(w: seq<nat>, parent: seq<int>, w2: seq<nat>, parent2: seq<int>, k: nat)
    requires k < |w| && k < |parent| && |w2| == |w| && |parent2| == |parent|
    requires forall i :: 1 <= i <= k ==> w2[i] == w[i] && parent2[i] == parent[i]
    ensures RootSum(w2, parent2, k) == RootSum(w, parent, k)
  {
    if k != 0 {
      RootSumFrame(w, parent, w2, parent2, k - 1);
    }
  }

  /** A root that gets a parent drops out of the sum. */
  lemma {:induction false} RootSumDrop(w: seq<nat>, parent: seq<int>, k: nat, r: nat, t: int)
    requires 1 <= r <= k && k < |w| && k < |parent| && parent[r] == -1 && t != -1
    ensures RootSum(w, parent[r := t], k) + WeightOf(w[r]) == RootSum(w, parent, k)
  {
    if r == k {
      RootSumFrame(w, parent, w, parent[r := t], k - 1);
    } else {
      RootSumDrop(w, parent, k - 1, r, t);
    }
  }

  // ----- Merging two roots -----

  ghost function MergedParent(parent: seq<int>, c: nat, d: nat, t: nat): (r: seq<int>)
    requires c < |parent| && d < |parent| && t < |parent|
    ensures |r| == |parent|
  {
    parent[c := t][d := t][t := -1]
  }

  /** ADDWEIGHTS: the height fits its byte, so the OR is an addition. */
  function AddWeights(x: nat, y: nat): nat {
    (WeightOf(x) + WeightOf(y)) * 256 + (1 + Max(DepthOf(x), DepthOf(y)))
  }

  lemma AddWeightsParts(x: nat, y: nat)
    requires DepthOf(x) < 255 && DepthOf(y) < 255
    ensures WeightOf(AddWeights(x, y)) == WeightOf(x) + WeightOf(y)
    ensures DepthOf(AddWeights(x, y)) == 1 + Max(DepthOf(x), DepthOf(y))
  {
  }

  /** `c` and `d` are two roots of the forest, and there is room for one more node. */
  ghost predicate TwoRoots(w: seq<nat>, parent: seq<int>, kids: seq<(int, int)>, a: nat, n: nat, c: nat, d: nat) {
    && Forest(w, parent, kids, a, n) && n + 1 < |w|
    && 1 <= c <= n && 1 <= d <= n && c != d && parent[c] == -1 && parent[d] == -1
    && DepthOf(w[c]) < 255 && DepthOf(w[d]) < 255
  }

  lemma MergeChildren(w: seq<nat>, parent: seq<int>, kids: seq<(int, int)>, a: nat, n: nat, c: nat, d: nat)
    requires TwoRoots(w, parent, kids, a, n, c, d)
    ensures Links(MergedParent(parent, c, d, n + 1), a, n + 1)
    ensures Children(MergedParent(parent, c, d, n + 1), kids[n + 1 := (c, d)], a, n + 1)
  {
    hide Weights, DepthOf;
    var t := n + 1;
    var parent2, kids2 := MergedParent(parent, c, d, t), kids[t := (c, d)];
    forall u | a < u <= t
      ensures 1 <= kids2[u].0 < u && 1 <= kids2[u].1 < u && kids2[u].0 != kids2[u].1
      ensures parent2[kids2[u].0] == u && parent2[kids2[u].1] == u
    {
      if u <= n {
        assert kids2[u] == kids[u] && parent[kids[u].0] == u && parent[kids[u].1] == u;
      }
    }
  }

  lemma MergeWeights(w: seq<nat>, parent: seq<int>, kids: seq<(int, int)>, a: nat, n: nat, c: nat, d: nat)
    requires TwoRoots(w, parent, kids, a, n, c, d)
    ensures Weights(w[n + 1 := AddWeights(w[c], w[d])], kids[n + 1 := (c, d)], a, n + 1)
  {
    AddWeightsParts(w[c], w[d]);
    hide Links, AddWeights, WeightOf, DepthOf;
    var t := n + 1;
    var w2, kids2 := w[t := AddWeights(w[c], w[d])], kids[t := (c, d)];
    forall u | a < u <= t
      ensures 0 <= kids2[u].0 < |w| && 0 <= kids2[u].1 < |w|
      ensures WeightOf(w2[u]) == WeightOf(w2[kids2[u].0]) + WeightOf(w2[kids2[u].1])
      ensures DepthOf(w2[u]) == 1 + Max(DepthOf(w2[kids2[u].0]), DepthOf(w2[kids2[u].1]))
    {
      if u <= n {
        assert kids2[u] == kids[u] && 1 <= kids[u].0 < u && 1 <= kids[u].1 < u;
      }
    }
  }

  /** Roots `c` and `d` become the children of the new node n+1. */
  lemma MergeForest(w: seq<nat>, parent: seq<int>, kids: seq<(int, int)>, a: nat, n: nat, c: nat, d: nat)
    requires TwoRoots(w, parent, kids, a, n, c, d)
    ensures Forest(w[n + 1 := AddWeights(w[c], w[d])], MergedParent(parent, c, d, n + 1), kids[n + 1 := (c, d)], a,
        n + 1)
  {
    MergeChildren(w, parent, kids, a, n, c, d);
    MergeWeights(w, parent, kids, a, n, c, d);
  }

  /** Nothing merged so far, `c` and `d` included, is heavier than `d`. */
  lemma MergedLight(w: seq<nat>, parent: seq<int>, kids: seq<(int, int)>, a: nat, n: nat, m: nat, c: nat, d: nat,
                    u: nat)
    requires TwoRoots(w, parent, kids, a, n, c, d) && Shallow(w, parent, kids, a, n, m)
    requires WeightOf(w[c]) <= WeightOf(w[d]) && a < u <= n + 1
    ensures var w2, kids2 := w[n + 1 := AddWeights(w[c], w[d])], kids[n + 1 := (c, d)];
            && 0 <= kids2[u].0 < |w| && 0 <= kids2[u].1 < |w|
            && WeightOf(w2[kids2[u].0]) <= WeightOf(w[d]) && WeightOf(w2[kids2[u].1]) <= WeightOf(w[d])
  {
    hide Links, Weights, AddWeights, WeightOf, DepthOf, Fib;
    if u <= n {
      assert 1 <= kids[u].0 < u && 1 <= kids[u].1 < u;
      assert WeightOf(w[kids[u].0]) <= m && WeightOf(w[kids[u].1]) <= m;
    }
  }

  lemma MergedTall(w: seq<nat>, parent: seq<int>, kids: seq<(int, int)>, a: nat, n: nat, m: nat, c: nat, d: nat)
    requires TwoRoots(w, parent, kids, a, n, c, d) && Shallow(w, parent, kids, a, n, m)
    ensures Fib(DepthOf(AddWeights(w[c], w[d]))) <= WeightOf(AddWeights(w[c], w[d]))
    ensures WeightOf(AddWeights(w[c], w[d])) == WeightOf(w[c]) + WeightOf(w[d])
  {
    AddWeightsParts(w[c], w[d]);
    MergeHeavy(w, parent, kids, a, n, m, c, d);
    MergeHeavy(w, parent, kids, a, n, m, d, c);
  }

  /** A node other than the new one: nothing changed, except that `c` and `d` are no roots any more. */
  lemma MergedOther(w: seq<nat>, parent: seq<int>, c: nat, d: nat, t: nat, k: nat, x: nat)
    requires |w| == |parent| && 1 <= k < t < |w| && c < t && d < t
    ensures w[t := x][k] == w[k]
    ensures MergedParent(parent, c, d, t)[k] == -1 ==> k != c && k != d && parent[k] == -1
  {
  }

  lemma ShallowAt(w: seq<nat>, parent: seq<int>, kids: seq<(int, int)>, a: nat, n: nat, m: nat, k: nat)
    requires Shallow(w, parent, kids, a, n, m) && 1 <= k <= n
    ensures k < |w| && Fib(DepthOf(w[k])) <= WeightOf(w[k])
  {
  }

  /** Every root that is left, or new, is at least as heavy as `d`; every tree as heavy as tall. */
  lemma MergedHeavy(w: seq<nat>, parent: seq<int>, kids: seq<(int, int)>, a: nat, n: nat, m: nat, c: nat, d: nat,
                    k: nat)
    requires TwoRoots(w, parent, kids, a, n, c, d) && Shallow(w, parent, kids, a, n, m)
    requires forall k :: 1 <= k <= n && parent[k] == -1 && k != c ==> WeightOf(w[d]) <= WeightOf(w[k])
    requires 1 <= k <= n + 1
    ensures var w2, parent2 := w[n + 1 := AddWeights(w[c], w[d])], MergedParent(parent, c, d, n + 1);
            && (parent2[k] == -1 ==> WeightOf(w[d]) <= WeightOf(w2[k]))
            && Fib(DepthOf(w2[k])) <= WeightOf(w2[k])
  {
    hide Links, Weights, Children, Shallow, AddWeights, WeightOf, DepthOf, Fib, MergedParent;
    if k == n + 1 {
      MergedTall(w, parent, kids, a, n, m, c, d);
    } else {
      MergedOther(w, parent, c, d, n + 1, k, AddWeights(w[c], w[d]));
      ShallowAt(w, parent, kids, a, n, m, k);
    }
  }

  lemma MergeShallow(w: seq<nat>, parent: seq<int>, kids: seq<(int, int)>, a: nat, n: nat, m: nat, c: nat, d: nat)
    requires TwoRoots(w, parent, kids, a, n, c, d) && Shallow(w, parent, kids, a, n, m)
    requires WeightOf(w[c]) <= WeightOf(w[d])
    requires forall k :: 1 <= k <= n && parent[k] == -1 && k != c ==> WeightOf(w[d]) <= WeightOf(w[k])
    ensures Shallow(w[n + 1 := AddWeights(w[c], w[d])], MergedParent(parent, c, d, n + 1), kids[n + 1 := (c, d)], a,
        n + 1, WeightOf(w[d]))
  {
    hide Links, Weights, Children, AddWeights, WeightOf, DepthOf, Fib, MergedParent;
    var t := n + 1;
    var w2, parent2, kids2 := w[t := AddWeights(w[c], w[d])], MergedParent(parent, c, d, t), kids[t := (c, d)];
    forall u | a < u <= t
      ensures 0 <= kids2[u].0 < |w| && 0 <= kids2[u].1 < |w|
      ensures WeightOf(w2[kids2[u].0]) <= WeightOf(w[d]) && WeightOf(w2[kids2[u].1]) <= WeightOf(w[d])
    {
      MergedLight(w, parent, kids, a, n, m, c, d, u);
    }
    forall k | 1 <= k <= t
      ensures parent2[k] == -1 ==> WeightOf(w[d]) <= WeightOf(w2[k])
      ensures Fib(DepthOf(w2[k])) <= WeightOf(w2[k])
    {
      MergedHeavy(w, parent, kids, a, n, m, c, d, k);
    }
  }

  lemma MergeSum(w: seq<nat>, parent: seq<int>, n: nat, c: nat, d: nat, x: nat)
    requires |w| == |parent| && n + 1 < |w| && 1 <= c <= n && 1 <= d <= n && c != d && parent[c] == -1 &&
        parent[d] == -1
    requires WeightOf(x) == WeightOf(w[c]) + WeightOf(w[d])
    ensures RootSum(w[n + 1 := x], MergedParent(parent, c, d, n + 1), n + 1) == RootSum(w, parent, n)
  {
    var t := n + 1;
    var p1 := parent[c := t];
    var p2 := p1[d := t];
    RootSumDrop(w, parent, n, c, t);
    RootSumDrop(w, p1, n, d, t);
    RootSumFrame(w, p2, w[t := x], MergedParent(parent, c, d, t), n);
  }

  // ----- Depths of leaves -----

  /** How many steps node `k` is below its root: the loop `while (parent[k] >= 0)`. */
  ghost function Dep(parent: seq<int>, a: nat, n: nat, k: nat): (r: nat)
    requires Links(parent, a, n) && 1 <= k <= n
    decreases n - k
  {
    if parent[k] == -1 then 0 else 1 + Dep(parent, a, n, parent[k])
  }

  /** One tree: node n is the only root. */
  ghost predicate OneRoot(parent: seq<int>, n: nat) {
    n < |parent| && forall k :: 1 <= k <= n ==> (parent[k] == -1 <==> k == n)
  }

  /** A node and the height of its subtree fit under the root. */
  lemma {:induction false} DepthUnderRoot(w: seq<nat>, parent: seq<int>, kids: seq<(int, int)>, a: nat, n: nat, k: nat)
    requires Forest(w, parent, kids, a, n) && OneRoot(parent, n) && 1 <= k <= n
    ensures Dep(parent, a, n, k) + DepthOf(w[k]) <= DepthOf(w[n])
    decreases n - k
  {
    if k < n {
      var t := parent[k];
      DepthUnderRoot(w, parent, kids, a, n, t);
      assert k == kids[t].0 || k == kids[t].1;
    }
  }

  /** Internal nodes are less deep than the deepest leaf. */
  lemma {:induction false} InternalDepth(parent: seq<int>, kids: seq<(int, int)>, a: nat, n: nat, k: nat, top: nat)
    requires Links(parent, a, n) && Children(parent, kids, a, n) && 1 <= k <= n
    requires forall i :: 1 <= i <= a ==> Dep(parent, a, n, i) <= top
    ensures Dep(parent, a, n, k) <= top
    decreases k
  {
    if k > a {
      var c := kids[k].0;
      assert parent[c] == k && 1 <= c < k;
      InternalDepth(parent, kids, a, n, c, top);
    }
  }

  // ----- Sums over a cut through the tree -----

  ghost function Sum(f: seq<int>): int {
    if f == [] then 0 else Sum(f[..|f| - 1]) + f[|f| - 1]
  }

  lemma {:induction false} SumUpdate(f: seq<int>, r: nat, x: int)
    requires r < |f|
    ensures Sum(f[r := x]) == Sum(f) - f[r] + x
  {
    var k := |f| - 1;
    if r == k {
      assert f[r := x][..k] == f[..k];
    } else {
      assert f[r := x][..k] == f[..k][r := x];
      SumUpdate(f[..k], r, x);
    }
  }

  /** Node `i` is a root of the forest of the nodes 1..t. */
  ghost predicate LiveAt(parent: seq<int>, t: nat, i: int) {
    1 <= i <= t && i < |parent| && (parent[i] == -1 || parent[i] > t)
  }

  /** `f` at the nodes that are roots among 1..t, 0 elsewhere. */
  ghost function Live(parent: seq<int>, f: seq<int>, t: nat): (r: seq<int>)
    requires t < |f|
    ensures |r| == t + 1
  {
    seq(t + 1, i requires 0 <= i < t + 1 => if LiveAt(parent, t, i) then f[i] else 0)
  }

  lemma LiveKids(parent: seq<int>, kids: seq<(int, int)>, a: nat, n: nat, t: nat)
    requires Links(parent, a, n) && Children(parent, kids, a, n) && a < t <= n
    ensures 1 <= kids[t].0 < t && 1 <= kids[t].1 < t && kids[t].0 != kids[t].1
    ensures LiveAt(parent, t - 1, kids[t].0) && LiveAt(parent, t - 1, kids[t].1) && LiveAt(parent, t, t)
    ensures forall i :: 0 <= i < t ==>
        (LiveAt(parent, t, i) <==> LiveAt(parent, t - 1, i) && i != kids[t].0 && i != kids[t].1)
  {
    forall i | 0 <= i < t
      ensures LiveAt(parent, t, i) <==> LiveAt(parent, t - 1, i) && i != kids[t].0 && i != kids[t].1
    {
      if 1 <= i && parent[i] == t { assert i == kids[t].0 || i == kids[t].1; }
    }
  }

  /** Putting two nodes together takes them out of the sum and their parent into it. */
  lemma LiveStep(parent: seq<int>, kids: seq<(int, int)>, a: nat, n: nat, f: seq<int>, t: nat)
    requires Links(parent, a, n) && Children(parent, kids, a, n) && a < t <= n < |f|
    requires 0 <= kids[t].0 < |f| && 0 <= kids[t].1 < |f|
    ensures Sum(Live(parent, f, t)) == Sum(Live(parent, f, t - 1)) - f[kids[t].0] - f[kids[t].1] + f[t]
  {
    LiveKids(parent, kids, a, n, t);
    hide Links, Children, LiveAt;
    var c, d := kids[t].0, kids[t].1;
    var f0, f1 := Live(parent, f, t - 1), Live(parent, f, t);
    assert f0[c] == f[c] && f0[d] == f[d] && f1[t] == f[t];
    assert f1[..t] == f0[c := 0][d := 0];
    hide Live;
    SumUpdate(f0, c, 0);
    SumUpdate(f0[c := 0], d, 0);
  }

  lemma {:induction false} SumZeros(f: seq<int>)
    requires forall i :: 0 <= i < |f| ==> f[i] == 0
    ensures Sum(f) == 0
  {
    if f != [] { SumZeros(f[..|f| - 1]); }
  }

  /** In the end there is the root alone. */
  lemma LiveRoot(parent: seq<int>, n: nat, f: seq<int>)
    requires OneRoot(parent, n) && 0 < n < |f| && forall i :: 1 <= i <= n ==> parent[i] <= n
    ensures Sum(Live(parent, f, n)) == f[n]
  {
    var f1 := Live(parent, f, n);
    assert f1[n] == f[n];
    SumZeros(f1[..n]);
  }

  /** In the beginning there are the leaves. */
  lemma LiveLeaves(parent: seq<int>, a: nat, n: nat, f: seq<int>, i: nat)
    requires Links(parent, a, n) && a < |f| && i <= a
    ensures Live(parent, f, a)[i] == if i == 0 then 0 else f[i]
  {
  }

  // ----- The Kraft sum of a tree -----

  /** The code space each node takes: half of its parent's. */
  ghost function Spaces(depth: seq<int>, top: nat): (r: seq<int>)
    ensures |r| == |depth|
  {
    seq(|depth|, i requires 0 <= i < |depth| => if 0 <= depth[i] <= top then Pow2(top - depth[i]) else 0)
  }

  /** The depths of all nodes. */
  ghost function Depths(parent: seq<int>, a: nat, n: nat): (r: seq<int>)
    requires Links(parent, a, n)
    ensures |r| == n + 1
  {
    seq(n + 1, i requires 0 <= i < n + 1 => if i == 0 then 0 else Dep(parent, a, n, i))
  }

  /** The depths of the leaves, read off as code lengths. */
  ghost predicate LeafDepths(parent: seq<int>, a: nat, n: nat, len: seq<int>) {
    Links(parent, a, n) && |len| == a && forall i :: 1 <= i <= a ==> len[i - 1] == Dep(parent, a, n, i)
  }

  /** The code space of the leaves 1..k is that of their code lengths. */
  lemma {:induction false} SpacesAreKraft(f: seq<int>, len: seq<int>, top: nat, k: nat)
    requires |len| + 1 <= |f| && k <= |len| && LengthsWithin(len, 0, top) && f[0] == 0
    requires forall i :: 0 <= i < |len| ==> f[i + 1] == Pow2(top - len[i])
    ensures Sum(f[..k + 1]) == KraftSum(len, top, k)
  {
    if k == 0 {
      assert f[..1][..0] == [];
    } else {
      SpacesAreKraft(f, len, top, k - 1);
      assert f[..k + 1][..k] == f[..k];
    }
  }

  /** Parent and children take the same code space. */
  lemma {:induction false} CutsAgree(parent: seq<int>, kids: seq<(int, int)>, a: nat, n: nat, top: nat, t: nat)
    requires Links(parent, a, n) && Children(parent, kids, a, n) && a <= t <= n < |kids|
    requires forall i :: 1 <= i <= n ==> Dep(parent, a, n, i) <= top
    ensures Sum(Live(parent, Spaces(Depths(parent, a, n), top), a)) ==
        Sum(Live(parent, Spaces(Depths(parent, a, n), top), t))
    decreases t
  {
    hide Dep, Sum, Live, Spaces, Depths, Links, Children;
    if a < t {
      CutsAgree(parent, kids, a, n, top, t - 1);
      HalfEach(parent, kids, a, n, top, t);
      LiveStep(parent, kids, a, n, Spaces(Depths(parent, a, n), top), t);
    }
  }

  lemma HalfEach(parent: seq<int>, kids: seq<(int, int)>, a: nat, n: nat, top: nat, t: nat)
    requires Links(parent, a, n) && Children(parent, kids, a, n) && a < t <= n
    requires forall i :: 1 <= i <= n ==> Dep(parent, a, n, i) <= top
    ensures 0 <= kids[t].0 <= n && 0 <= kids[t].1 <= n
    ensures var f := Spaces(Depths(parent, a, n), top); f[t] == f[kids[t].0] + f[kids[t].1]
  {
    var c, d := kids[t].0, kids[t].1;
    KidsDeeper(parent, kids, a, n, t);
    hide Dep, Links, Children, Pow2;
    var h := Dep(parent, a, n, c);
    assert Dep(parent, a, n, t) == h - 1;
    TwiceAsMuch(top - h);
    assert top - Dep(parent, a, n, t) == top - h + 1;
  }

  lemma TwiceAsMuch(h: nat)
    ensures Pow2(h + 1) == 2 * Pow2(h)
  {
  }

  lemma KidsDeeper(parent: seq<int>, kids: seq<(int, int)>, a: nat, n: nat, t: nat)
    requires Links(parent, a, n) && Children(parent, kids, a, n) && a < t <= n
    ensures 1 <= kids[t].0 < t && 1 <= kids[t].1 < t
    ensures Dep(parent, a, n, kids[t].0) == Dep(parent, a, n, kids[t].1) == 1 + Dep(parent, a, n, t)
  {
  }

  /** The depths of the leaves of one tree use up the code space exactly. */
  lemma TreeIsComplete(parent: seq<int>, kids: seq<(int, int)>, a: nat, n: nat, top: nat, len: seq<int>)
    requires Children(parent, kids, a, n) && OneRoot(parent, n) && 0 < n && LeafDepths(parent, a, n, len)
    requires LengthsWithin(len, 0, top)
    ensures KraftSum(len, top, a) == Pow2(top)
  {
    NoneDeeper(parent, kids, a, n, top, len);
    var f := Spaces(Depths(parent, a, n), top);
    LeafSpaces(parent, a, n, top, len);
    hide Dep, Sum, Live, Spaces, Depths, Links, Children, LeafDepths, Pow2;
    CutsAgree(parent, kids, a, n, top, n);
    RootSpace(parent, a, n, top);
  }

  lemma NoneDeeper(parent: seq<int>, kids: seq<(int, int)>, a: nat, n: nat, top: nat, len: seq<int>)
    requires Children(parent, kids, a, n) && LeafDepths(parent, a, n, len) && LengthsWithin(len, 0, top)
    ensures a <= n < |kids|
    ensures forall i :: 1 <= i <= n ==> Dep(parent, a, n, i) <= top
  {
    forall i | 1 <= i <= a
      ensures Dep(parent, a, n, i) <= top
    {
      assert len[i - 1] == Dep(parent, a, n, i);
    }
    forall i | 1 <= i <= n
      ensures Dep(parent, a, n, i) <= top
    {
      InternalDepth(parent, kids, a, n, i, top);
    }
  }

  /** The leaves. */
  lemma LeafSpaces(parent: seq<int>, a: nat, n: nat, top: nat, len: seq<int>)
    requires LeafDepths(parent, a, n, len) && LengthsWithin(len, 0, top)
    ensures Sum(Live(parent, Spaces(Depths(parent, a, n), top), a)) == KraftSum(len, top, a)
  {
    hide Pow2;
    var d := Depths(parent, a, n);
    var f := Live(parent, Spaces(d, top), a);
    forall i | 0 <= i < a
      ensures f[i + 1] == Pow2(top - len[i])
    {
      LiveLeaves(parent, a, n, Spaces(d, top), i + 1);
      assert d[i + 1] == len[i];
    }
    assert f[..a + 1] == f;
    SpacesAreKraft(f, len, top, a);
  }

  /** The root. */
  lemma RootSpace(parent: seq<int>, a: nat, n: nat, top: nat)
    requires Links(parent, a, n) && OneRoot(parent, n) && 0 < n
    ensures Sum(Live(parent, Spaces(Depths(parent, a, n), top), n)) == Pow2(top)
  {
    hide Pow2;
    LiveRoot(parent, n, Spaces(Depths(parent, a, n), top));
    assert Dep(parent, a, n, n) == 0;
  }
}
