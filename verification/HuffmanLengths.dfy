/** BZ2_hbMakeCodeLengths (huffman.c): build a Huffman tree with a heap; if a code comes out too
    long, flatten the weights and start over. It ends for every frequency vector, with lengths that
    fit and use up the code space exactly. */
module HuffmanLengths {
  import opened Power
  import opened Canonical
  import opened HuffmanHeap
  import opened HuffmanTree
  import opened HuffmanOptimal

  /** Room for all nodes of a tree with 258 leaves. */
  const NODES := 516

  /** More than any total weight can be: the 29th number of the sequence 1, 2, 3, 5, ... */
  const MAX_TOTAL := 1346269

  /** The state between two merges. */
  ghost predicate Building(heap: seq<int>, w: seq<nat>, parent: seq<int>, kids: seq<(int, int)>, nodes: set<int>,
                           a: nat, n: nat, nHeap: nat, m: nat, total: nat)
  {
    && 2 <= a <= MAX_ALPHA_SIZE && n + nHeap == 2 * a && 1 <= nHeap
    && |w| == NODES && 0 < |heap| && heap[0] == 0 && w[0] == 0 && |heap| == MAX_ALPHA_SIZE + 2
    && Forest(w, parent, kids, a, n) && Shallow(w, parent, kids, a, n, m)
    && RootSum(w, parent, n) == total < MAX_TOTAL && Greedy(WeightsOf(w), parent, kids, a, n)
    && (forall k :: k in nodes <==> 1 <= k <= n && parent[k] == -1)
    && Holds(heap, nHeap, nodes) && HeapOrder(heap, w, nHeap)
  }

  lemma {:induction false} FibMonotone(d: nat, e: nat)
    requires d <= e
    ensures Fib(d) <= Fib(e)
    decreases e
  {
    if d < e {
      FibMonotone(d, e - 1);
    }
  }

  lemma FibValues()
    ensures Fib(13) == 610 && Fib(29) == MAX_TOTAL
  {
    assert Fib(4) == 8 && Fib(5) == 13;
    assert Fib(6) == 21 && Fib(7) == 34 && Fib(8) == 55 && Fib(9) == 89 && Fib(10) == 144 && Fib(11) == 233;
    assert Fib(12) == 377 && Fib(13) == 610 && Fib(14) == 987 && Fib(15) == 1597 && Fib(16) == 2584;
    assert Fib(17) == 4181 && Fib(18) == 6765 && Fib(19) == 10946 && Fib(20) == 17711 && Fib(21) == 28657;
    assert Fib(22) == 46368 && Fib(23) == 75025 && Fib(24) == 121393 && Fib(25) == 196418;
    assert Fib(26) == 317811 && Fib(27) == 514229 && Fib(28) == 832040 && Fib(29) == 1346269;
  }

  /** The height byte of a root never gets near 255. */
  lemma RootDepthSmall(w: seq<nat>, parent: seq<int>, kids: seq<(int, int)>, a: nat, n: nat, m: nat, r: nat)
    requires n < |w| && n < |parent| && Shallow(w, parent, kids, a, n, m) && RootSum(w, parent, n) < MAX_TOTAL
    requires 1 <= r <= n && parent[r] == -1
    ensures DepthOf(w[r]) < 29 && WeightOf(w[r]) < MAX_TOTAL
  {
    hide WeightOf, DepthOf, Fib;
    RootAtMost(w, parent, n, r);
    FibValues();
    ShallowAt(w, parent, kids, a, n, m, r);
    if DepthOf(w[r]) >= 29 {
      FibMonotone(29, DepthOf(w[r]));
    }
  }

  /** Word order is weight order, up to ties. */
  lemma WordOrder(x: nat, y: nat)
    requires x <= y
    ensures WeightOf(x) <= WeightOf(y)
  {
  }

  /** The two lightest roots as found by the heap. */
  ghost predicate LightestTwo(w: seq<nat>, nodes: set<int>, c: int, d: int) {
    && c in nodes && d in nodes && c != d
    && (forall v :: v in nodes ==> 0 <= v < |w|)
    && w[c] <= w[d]
    && (forall v :: v in nodes && v != c ==> w[d] <= w[v])
  }

  lemma MergeReady(heap: seq<int>, w: seq<nat>, parent: seq<int>, kids: seq<(int, int)>, nodes: set<int>,
                   a: nat, n: nat, nHeap: nat, m: nat, total: nat, c: nat, d: nat)
    requires Building(heap, w, parent, kids, nodes, a, n, nHeap, m, total) && 2 <= nHeap
    requires LightestTwo(w, nodes, c, d)
    ensures TwoRoots(w, parent, kids, a, n, c, d)
    ensures WeightOf(w[c]) <= WeightOf(w[d])
    ensures forall k :: 1 <= k <= n && parent[k] == -1 && k != c ==> WeightOf(w[d]) <= WeightOf(w[k])
    ensures DepthOf(w[c]) < 29 && DepthOf(w[d]) < 29 && WeightOf(w[c]) < MAX_TOTAL && WeightOf(w[d]) < MAX_TOTAL
  {
    hide Links, Children, Weights, WeightOf, DepthOf;
    RootDepthSmall(w, parent, kids, a, n, m, c);
    RootDepthSmall(w, parent, kids, a, n, m, d);
    WordOrder(w[c], w[d]);
    forall k | 1 <= k <= n && parent[k] == -1 && k != c
      ensures WeightOf(w[d]) <= WeightOf(w[k])
    {
      assert k in nodes;
      WordOrder(w[d], w[k]);
    }
  }

  /** What a merge makes of the forest and of the set of roots. */
  lemma Merged(heap: seq<int>, w: seq<nat>, parent: seq<int>, kids: seq<(int, int)>, nodes: set<int>,
               a: nat, n: nat, nHeap: nat, m: nat, total: nat, c: nat, d: nat)
    requires Building(heap, w, parent, kids, nodes, a, n, nHeap, m, total) && 2 <= nHeap
    requires LightestTwo(w, nodes, c, d)
    ensures 1 <= c <= n && 1 <= d <= n && n + 1 < NODES
    ensures var t := n + 1;
            var w2, parent2, kids2 := w[t := AddWeights(w[c], w[d])], MergedParent(parent, c, d, t), kids[t := (c, d)];
            && Forest(w2, parent2, kids2, a, t) && Shallow(w2, parent2, kids2, a, t, WeightOf(w[d]))
            && RootSum(w2, parent2, t) == total && Greedy(WeightsOf(w2), parent2, kids2, a, t)
            && (forall k :: k in nodes - {c} - {d} + {t} <==> 1 <= k <= t && parent2[k] == -1)
    ensures AddWeights(w[c], w[d]) < 0x8000_0000
  {
    hide Links, Children, Weights, WeightOf, DepthOf;
    MergeReady(heap, w, parent, kids, nodes, a, n, nHeap, m, total, c, d);
    MergeForest(w, parent, kids, a, n, c, d);
    MergeShallow(w, parent, kids, a, n, m, c, d);
    MergedTall(w, parent, kids, a, n, m, c, d);
    MergeSum(w, parent, n, c, d, AddWeights(w[c], w[d]));
    MergeGreedy(w, parent, kids, a, n, c, d);
    WordFits(w[c], w[d]);
  }

  lemma WordFits(x: nat, y: nat)
    requires WeightOf(x) < MAX_TOTAL && WeightOf(y) < MAX_TOTAL && DepthOf(x) < 29 && DepthOf(y) < 29
    ensures AddWeights(x, y) < 0x8000_0000
  {
  }

  // ----- Building one tree -----

  /** Leaves 1..a carry weight words with height 0. */
  ghost predicate Leaves(w: seq<nat>, a: nat) {
    && |w| == NODES && a < |w| && w[0] == 0
    && forall k :: 1 <= k <= a ==> WeightOf(w[k]) >= 1 && DepthOf(w[k]) == 0
  }

  /** The sum of the leaf weights. */
  ghost function LeafSum(w: seq<nat>, k: nat): (r: nat)
    requires k < |w|
  {
    if k == 0 then 0 else LeafSum(w, k - 1) + WeightOf(w[k])
  }

  lemma {:induction false} LeafSumIsRootSum(w: seq<nat>, parent: seq<int>, k: nat)
    requires k < |w| && k < |parent| && forall i :: 1 <= i <= k ==> parent[i] == -1
    ensures RootSum(w, parent, k) == LeafSum(w, k)
  {
    if k != 0 {
      LeafSumIsRootSum(w, parent, k - 1);
    }
  }

  /** All leaves are roots. */
  lemma StartBuilding(heap: seq<int>, w: seq<nat>, parent: seq<int>, kids: seq<(int, int)>, nodes: set<int>, a: nat)
    requires 2 <= a <= MAX_ALPHA_SIZE && Leaves(w, a) && LeafSum(w, a) < MAX_TOTAL
    requires |parent| == |kids| == NODES && |heap| == MAX_ALPHA_SIZE + 2 && heap[0] == 0
    requires forall i :: 1 <= i <= a ==> parent[i] == -1
    requires forall k :: k in nodes <==> 1 <= k <= a
    requires Holds(heap, a, nodes) && HeapOrder(heap, w, a)
    ensures Building(heap, w, parent, kids, nodes, a, a, a, 1, LeafSum(w, a))
  {
    LeafSumIsRootSum(w, parent, a);
  }

  lemma LeavesWeighted(w: seq<nat>, a: nat, nodes: set<int>)
    requires Leaves(w, a) && forall v :: v in nodes ==> 1 <= v <= a
    ensures Weighted(w, nodes)
  {
    forall v | v in nodes
      ensures w[v] > 0
    {
      assert WeightOf(w[v]) >= 1;
    }
  }

  /** Every leaf becomes a root and goes into the heap. */
  method InitTree(heap: array<nat>, weight: array<nat>, parent: array<int>, alphaSize: nat)
    returns (nHeap: nat, ghost nodes: set<int>, ghost kids: seq<(int, int)>)
    requires heap != weight && heap as object != parent && weight as object != parent
    requires heap.Length == MAX_ALPHA_SIZE + 2 && weight.Length == parent.Length == NODES
    requires 2 <= alphaSize <= MAX_ALPHA_SIZE && Leaves(weight[..], alphaSize) &&
        LeafSum(weight[..], alphaSize) < MAX_TOTAL
    modifies heap, parent
    ensures nHeap == alphaSize
    ensures Building(heap[..], weight[..], parent[..], kids, nodes, alphaSize, alphaSize, nHeap, 1,
        LeafSum(weight[..], alphaSize))
  {
    hide Building, LeafSum, Leaves;
    nHeap := 0;
    nodes := {};
    kids := seq(NODES, i => (0, 0));
    heap[0], parent[0] := 0, -2;
    assert heap[..][1..1] == [];
    for i := 1 to alphaSize + 1
      invariant nHeap == i - 1 && heap[0] == 0
      invariant forall k :: k in nodes <==> 1 <= k < i
      invariant forall k :: 1 <= k < i ==> parent[k] == -1
      invariant Holds(heap[..], nHeap, nodes) && HeapOrder(heap[..], weight[..], nHeap)
    {
      hide Holds, HeapOrder;
      parent[i] := -1;
      LeavesWeighted(weight[..], alphaSize, nodes + {i});
      Push(heap, weight, nHeap, i, nodes);
      nHeap := nHeap + 1;
      nodes := nodes + {i};
    }
    StartBuilding(heap[..], weight[..], parent[..], kids, nodes, alphaSize);
  }

  lemma BuildingWeighted(heap: seq<int>, w: seq<nat>, parent: seq<int>, kids: seq<(int, int)>, nodes: set<int>,
                         a: nat, n: nat, nHeap: nat, m: nat, total: nat)
    requires Building(heap, w, parent, kids, nodes, a, n, nHeap, m, total)
    ensures Weighted(w, nodes) && Holds(heap, nHeap, nodes) && HeapOrder(heap, w, nHeap) && heap[0] == 0
    ensures forall v :: v in nodes ==> 1 <= v <= n
  {
    forall v | v in nodes
      ensures 0 < v < |w| && w[v] > 0
    {
      assert WeightOf(w[v]) >= 1;
    }
  }

  /** A node that is not in the heap may change its weight. */
  lemma OrderFrame(heap: seq<int>, w: seq<nat>, n: nat, nodes: set<int>, t: nat, x: nat)
    requires HeapOrder(heap, w, n) && Holds(heap, n, nodes) && heap[0] == 0 && 0 < t < |w| && t !in nodes
    ensures HeapOrder(heap, w[t := x], n)
  {
    forall i | 1 <= i <= n
      ensures heap[i] != t
    {
      HoldsEntry(heap, n, nodes, i);
    }
  }

  lemma WeightedWith(w: seq<nat>, nodes: set<int>, t: nat, x: nat)
    requires Weighted(w, nodes) && 0 < t < |w| && x > 0
    ensures Weighted(w[t := x], nodes + {t})
  {
  }

  lemma TwoPopped(w: seq<nat>, nodes: set<int>, c: int, d: int)
    requires Weighted(w, nodes) && c in nodes && d in nodes - {c}
    requires forall v :: v in nodes ==> w[c] <= w[v]
    requires forall v :: v in nodes - {c} ==> w[d] <= w[v]
    ensures LightestTwo(w, nodes, c, d)
  {
  }

  /** Take out the two lightest roots. */
  method PopTwo(heap: array<nat>, weight: array<nat>, nHeap: nat, ghost nodes: set<int>) returns (n1: nat, n2: nat)
    requires heap != weight && 2 <= nHeap && Holds(heap[..], nHeap, nodes) && Weighted(weight[..], nodes)
    requires HeapOrder(heap[..], weight[..], nHeap) && heap[0] == 0
    modifies heap
    ensures LightestTwo(weight[..], nodes, n1, n2)
    ensures Holds(heap[..], nHeap - 2, nodes - {n1} - {n2})
    ensures HeapOrder(heap[..], weight[..], nHeap - 2) && heap[0] == 0
  {
    hide Holds, HeapOrder, Weighted;
    WeightedSubset(weight[..], nodes, nodes);
    n1 := PopMin(heap, weight, nHeap, nodes);
    WeightedSubset(weight[..], nodes, nodes - {n1});
    n2 := PopMin(heap, weight, nHeap - 1, nodes - {n1});
    TwoPopped(weight[..], nodes, n1, n2);
  }

  lemma WeightedSubset(w: seq<nat>, nodes: set<int>, fewer: set<int>)
    requires Weighted(w, nodes) && fewer <= nodes
    ensures Weighted(w, fewer)
    ensures forall v :: v in nodes ==> 0 < v < |w|
  {
  }

  /** Make `n1` and `n2` children of a new node. */
  method Join(weight: array<nat>, parent: array<int>, t: nat, n1: nat, n2: nat)
    requires weight.Length == parent.Length && n1 < t < weight.Length && n2 < t
    requires weight as object != parent
    modifies weight, parent
    ensures weight[..] == old(weight[..][t := AddWeights(weight[n1], weight[n2])])
    ensures parent[..] == MergedParent(old(parent[..]), n1, n2, t)
  {
    hide AddWeights;
    parent[n1], parent[n2] := t, t;
    weight[t] := AddWeights(weight[n1], weight[n2]);
    parent[t] := -1;
  }

  /** Take out the two lightest roots and put back their parent. */
  method Merge(heap: array<nat>, weight: array<nat>, parent: array<int>, alphaSize: nat, nNodes: nat, nHeap0: nat,
               ghost nodes0: set<int>, ghost kids0: seq<(int, int)>, ghost m0: nat, ghost total: nat)
    returns (nHeap: nat, ghost nodes: set<int>, ghost kids: seq<(int, int)>, ghost m: nat)
    requires heap != weight && heap as object != parent && weight as object != parent && parent.Length == NODES
    requires Building(heap[..], weight[..], parent[..], kids0, nodes0, alphaSize, nNodes, nHeap0, m0, total) &&
        2 <= nHeap0
    modifies heap, weight, parent
    ensures nHeap == nHeap0 - 1
    ensures Building(heap[..], weight[..], parent[..], kids, nodes, alphaSize, nNodes + 1, nHeap, m, total)
    ensures weight[..alphaSize + 1] == old(weight[..alphaSize + 1])
  {
    ghost var w: seq<nat>, p, h: seq<nat> := weight[..], parent[..], heap[..];
    var t := nNodes + 1;
    BuildingWeighted(h, w, p, kids0, nodes0, alphaSize, nNodes, nHeap0, m0, total);
    hide Holds, HeapOrder, Building, MergedParent, AddWeights, LightestTwo, Weighted;
    var n1, n2 := PopTwo(heap, weight, nHeap0, nodes0);
    ghost var h2: seq<nat> := heap[..];
    nodes := nodes0 - {n1} - {n2} + {t};
    MergedSteps(h, h2, w, p, kids0, nodes0, alphaSize, nNodes, nHeap0, m0, total, n1, n2);
    Join(weight, parent, t, n1, n2);
    Push(heap, weight, nHeap0 - 2, t, nodes0 - {n1} - {n2});
    nHeap := nHeap0 - 1;
    kids, m := kids0[t := (n1, n2)], WeightOf(w[n2]);
    MergedBuilding(heap[..], h, w, p, kids0, nodes0, alphaSize, nNodes, nHeap0, m0, total, n1, n2);
  }

  lemma BuildingSizes(h: seq<int>, w: seq<nat>, p: seq<int>, kids: seq<(int, int)>, nodes: set<int>,
                      a: nat, n: nat, nHeap: nat, m: nat, total: nat)
    requires Building(h, w, p, kids, nodes, a, n, nHeap, m, total) && 2 <= nHeap
    ensures a <= n && n + 1 < NODES && |w| == |p| == |kids| == NODES && nHeap < |h|
    ensures n + 1 !in nodes
  {
    hide HeapOrder, Shallow, Greedy, Holds, Children, Weights;
  }

  /** The new node may go into the heap. */
  lemma MergedSteps(h: seq<int>, h2: seq<int>, w: seq<nat>, p: seq<int>, kids: seq<(int, int)>, nodes: set<int>,
                    a: nat, n: nat, nHeap: nat, m: nat, total: nat, c: nat, d: nat)
    requires Building(h, w, p, kids, nodes, a, n, nHeap, m, total) && 2 <= nHeap && LightestTwo(w, nodes, c, d)
    requires |h2| == |h| && h2[0] == 0 && Holds(h2, nHeap - 2, nodes - {c} - {d}) && HeapOrder(h2, w, nHeap - 2)
    ensures a <= n && n + 1 < NODES && |w| == |p| == |kids| == NODES && c <= n && d <= n && nHeap < |h2|
    ensures n + 1 !in nodes
    ensures Weighted(w[n + 1 := AddWeights(w[c], w[d])], nodes - {c} - {d} + {n + 1})
    ensures HeapOrder(h2, w[n + 1 := AddWeights(w[c], w[d])], nHeap - 2)
  {
    hide Building, Holds, HeapOrder, Forest, Shallow, Greedy, MergedParent, AddWeights, Weighted, LightestTwo;
    BuildingWeighted(h, w, p, kids, nodes, a, n, nHeap, m, total);
    BuildingSizes(h, w, p, kids, nodes, a, n, nHeap, m, total);
    Merged(h, w, p, kids, nodes, a, n, nHeap, m, total, c, d);
    var rest := nodes - {c} - {d};
    WeightedSubset(w, nodes, rest);
    OrderFrame(h2, w, nHeap - 2, rest, n + 1, AddWeights(w[c], w[d]));
    PositiveWord(w[c], w[d]);
    WeightedWith(w, rest, n + 1, AddWeights(w[c], w[d]));
  }

  lemma MergedBuilding(h3: seq<int>, h: seq<int>, w: seq<nat>, p: seq<int>, kids: seq<(int, int)>, nodes: set<int>,
                       a: nat, n: nat, nHeap: nat, m: nat, total: nat, c: nat, d: nat)
    requires Building(h, w, p, kids, nodes, a, n, nHeap, m, total) && 2 <= nHeap && LightestTwo(w, nodes, c, d)
    requires n + 1 < |w| == |p| == |kids| && c <= n && d <= n && |h3| == |h| && h3[0] == 0
    requires Holds(h3, nHeap - 1, nodes - {c} - {d} + {n + 1})
    requires HeapOrder(h3, w[n + 1 := AddWeights(w[c], w[d])], nHeap - 1)
    ensures Building(h3, w[n + 1 := AddWeights(w[c], w[d])], MergedParent(p, c, d, n + 1), kids[n + 1 := (c, d)],
                     nodes - {c} - {d} + {n + 1}, a, n + 1, nHeap - 1, WeightOf(w[d]), total)
  {
    Merged(h, w, p, kids, nodes, a, n, nHeap, m, total, c, d);
    hide Holds, HeapOrder, Forest, Shallow, Greedy, MergedParent, AddWeights, WeightOf;
  }

  lemma PositiveWord(x: nat, y: nat)
    ensures AddWeights(x, y) > 0
  {
  }

  /** The result of building: one tree over all leaves, of bounded height. */
  ghost predicate Built(w: seq<nat>, parent: seq<int>, kids: seq<(int, int)>, a: nat, n: nat, total: nat) {
    && 2 <= a && n == 2 * a - 1 && Forest(w, parent, kids, a, n) && OneRoot(parent, n)
    && Greedy(WeightsOf(w), parent, kids, a, n)
    && Fib(DepthOf(w[n])) <= total
  }

  lemma BuildingDone(heap: seq<int>, w: seq<nat>, parent: seq<int>, kids: seq<(int, int)>, nodes: set<int>,
                     a: nat, n: nat, nHeap: nat, m: nat, total: nat)
    requires Building(heap, w, parent, kids, nodes, a, n, nHeap, m, total) && nHeap <= 1
    ensures Built(w, parent, kids, a, n, total)
  {
    HoldsSize(heap, nHeap, nodes);
    assert parent[n] == -1;
    assert n in nodes;
    assert nodes == {n} by {
      assert |nodes - {n}| == 0;
    }
    assert forall k :: 1 <= k <= n && parent[k] == -1 ==> k in nodes;
    RootAtMost(w, parent, n, n);
    ShallowAt(w, parent, kids, a, n, m, n);
  }

  method BuildTree(heap: array<nat>, weight: array<nat>, parent: array<int>, alphaSize: nat)
    returns (nNodes: nat, ghost kids: seq<(int, int)>)
    requires heap != weight && heap as object != parent && weight as object != parent
    requires heap.Length == MAX_ALPHA_SIZE + 2 && weight.Length == parent.Length == NODES
    requires 2 <= alphaSize <= MAX_ALPHA_SIZE && Leaves(weight[..], alphaSize) &&
        LeafSum(weight[..], alphaSize) < MAX_TOTAL
    modifies heap, weight, parent
    ensures nNodes < NODES && Built(weight[..], parent[..], kids, alphaSize, nNodes,
        old(LeafSum(weight[..], alphaSize)))
    ensures weight[..alphaSize + 1] == old(weight[..alphaSize + 1])
  {
    ghost var total := LeafSum(weight[..], alphaSize);
    hide Building, LeafSum, Leaves;
    var nHeap;
    ghost var nodes, m;
    nHeap, nodes, kids := InitTree(heap, weight, parent, alphaSize);
    m := 1;
    nNodes := alphaSize;
    while nHeap > 1
      invariant alphaSize <= nNodes && nNodes + nHeap == 2 * alphaSize && 1 <= nHeap
      invariant Building(heap[..], weight[..], parent[..], kids, nodes, alphaSize, nNodes, nHeap, m, total)
      invariant weight[..alphaSize + 1] == old(weight[..alphaSize + 1])
      decreases nHeap
    {
      nHeap, nodes, kids, m := Merge(heap, weight, parent, alphaSize, nNodes, nHeap, nodes, kids, m, total);
      nNodes := nNodes + 1;
    }
    BuildingDone(heap[..], weight[..], parent[..], kids, nodes, alphaSize, nNodes, nHeap, m, total);
  }

  // ----- Reading off the lengths -----

  /** Walks from leaf `i` up to the root. */
  method CodeLength(parent: array<int>, ghost a: nat, ghost n: nat, i: nat) returns (j: nat)
    requires Links(parent[..], a, n) && 1 <= i <= n
    ensures j == Dep(parent[..], a, n, i)
  {
    j := 0;
    var k := i;
    while parent[k] >= 0
      invariant 1 <= k <= n && j + Dep(parent[..], a, n, k) == Dep(parent[..], a, n, i)
      decreases n - k
    {
      k := parent[k];
      j := j + 1;
    }
  }

  method Lengths(len: array<int>, parent: array<int>, alphaSize: nat, maxLen: nat, ghost p: seq<int>, ghost n: nat)
    returns (tooLong: bool)
    requires len != parent && p == parent[..] && Links(p, alphaSize, n) && alphaSize <= len.Length
    modifies len
    ensures forall i :: 1 <= i <= alphaSize ==> len[i - 1] == Dep(p, alphaSize, n, i)
    ensures tooLong <==> exists i :: 1 <= i <= alphaSize && Dep(p, alphaSize, n, i) > maxLen
    ensures len[alphaSize..] == old(len[alphaSize..])
  {
    tooLong := false;
    for i := 1 to alphaSize + 1
      invariant p == parent[..] && len[alphaSize..] == old(len[alphaSize..])
      invariant forall k :: 1 <= k < i ==> len[k - 1] == Dep(p, alphaSize, n, k)
      invariant tooLong <==> exists k :: 1 <= k < i && Dep(p, alphaSize, n, k) > maxLen
    {
      hide Dep;
      var j := CodeLength(parent, alphaSize, n, i);
      len[i - 1] := j;
      if j > maxLen { tooLong := true; }
    }
  }

  // ----- Flattening the weights -----

  /** Halve a weight, but never down to zero; the height is cleared. */
  function RescaleWord(x: nat): nat {
    (1 + WeightOf(x) / 2) * 256
  }

  /** Flattening never adds weight, and takes some away wherever a weight is at least 3. */
  lemma {:induction false} RescaleShrinks(w: seq<nat>, v: seq<nat>, k: nat)
    requires k < |w| == |v|
    requires forall i :: 1 <= i <= k ==> WeightOf(w[i]) >= 1 && v[i] == RescaleWord(w[i])
    ensures LeafSum(v, k) <= LeafSum(w, k)
    ensures (exists i :: 1 <= i <= k && WeightOf(w[i]) >= 3) ==> LeafSum(v, k) < LeafSum(w, k)
  {
    if k != 0 {
      RescaleShrinks(w, v, k - 1);
      assert WeightOf(v[k]) == 1 + WeightOf(w[k]) / 2;
    }
  }

  method Rescale(weight: array<nat>, alphaSize: nat)
    requires Leaves(weight[..], alphaSize)
    modifies weight
    ensures Leaves(weight[..], alphaSize)
    ensures forall i :: 1 <= i <= alphaSize ==> weight[i] == RescaleWord(old(weight[i]))
  {
    ghost var w: seq<nat> := weight[..];
    for i := 1 to alphaSize + 1
      invariant weight[0] == 0
      invariant forall k :: 1 <= k < i ==> weight[k] == RescaleWord(w[k])
      invariant forall k :: i <= k < weight.Length ==> weight[k] == w[k]
    {
      var j := weight[i] / 256;
      j := 1 + j / 2;
      weight[i] := j * 256;
    }
    forall k | 1 <= k <= alphaSize
      ensures WeightOf(weight[k]) >= 1 && DepthOf(weight[k]) == 0
    {
      RescaledWord(w[k]);
    }
  }

  lemma RescaledWord(x: nat)
    ensures WeightOf(RescaleWord(x)) == 1 + WeightOf(x) / 2 && DepthOf(RescaleWord(x)) == 0
  {
  }

  lemma {:induction false} LightSum(w: seq<nat>, k: nat)
    requires k < |w| && forall i :: 1 <= i <= k ==> WeightOf(w[i]) <= 2
    ensures LeafSum(w, k) <= 2 * k
  {
    if k != 0 {
      LightSum(w, k - 1);
    }
  }

  /** A code longer than 12 bits needs a weight of at least 3: weights of 1 and 2 sum up to less
      than the 13th Fibonacci number. */
  lemma LongNeedsHeavy(w: seq<nat>, parent: seq<int>, kids: seq<(int, int)>, a: nat, n: nat, i: nat)
    requires a <= MAX_ALPHA_SIZE && a < |w| && Built(w, parent, kids, a, n, LeafSum(w, a))
    requires 1 <= i <= a && Dep(parent, a, n, i) > 12
    ensures exists k :: 1 <= k <= a && WeightOf(w[k]) >= 3
  {
    hide WeightOf, DepthOf, Links, Children, Weights;
    DepthUnderRoot(w, parent, kids, a, n, i);
    FibValues();
    hide Fib, Forest;
    FibMonotone(13, DepthOf(w[n]));
    if forall k :: 1 <= k <= a ==> WeightOf(w[k]) <= 2 {
      LightSum(w, a);
    }
  }

  // ----- The whole loop -----

  /** The sum of the frequencies, an unused symbol counting as used once. */
  ghost function FreqTotal(freq: seq<nat>, k: nat): nat
    requires k <= |freq|
  {
    if k == 0 then 0 else FreqTotal(freq, k - 1) + if freq[k - 1] == 0 then 1 else freq[k - 1]
  }

  method InitWeights(weight: array<nat>, freq: array<nat>, alphaSize: nat)
    requires freq != weight && alphaSize <= freq.Length && alphaSize < weight.Length == NODES
    modifies weight
    ensures Leaves(weight[..], alphaSize) && LeafSum(weight[..], alphaSize) == FreqTotal(freq[..], alphaSize)
    ensures LeafWeights(weight[..], alphaSize) == AtLeastOnce(freq[..alphaSize])
  {
    weight[0] := 0;
    for i := 0 to alphaSize
      invariant weight[0] == 0
      invariant forall k :: 1 <= k <= i ==> WeightOf(weight[k]) >= 1 && DepthOf(weight[k]) == 0
      invariant forall k :: 0 <= k < i ==> WeightOf(weight[k + 1]) == if freq[k] == 0 then 1 else freq[k]
      invariant LeafSum(weight[..], i) == FreqTotal(freq[..], i)
    {
      ghost var w := weight[..];
      var f := if freq[i] == 0 then 1 else freq[i];
      weight[i + 1] := f * 256;
      FreshWord(f);
      LeafSumFrame(w, weight[..], i);
    }
  }

  lemma FreshWord(f: nat)
    ensures WeightOf(f * 256) == f && DepthOf(f * 256) == 0
  {
  }

  lemma {:induction false} LeafSumFrame(w: seq<nat>, v: seq<nat>, k: nat)
    requires k < |w| && k < |v| && forall i :: 1 <= i <= k ==> v[i] == w[i]
    ensures LeafSum(v, k) == LeafSum(w, k)
  {
    if k != 0 {
      LeafSumFrame(w, v, k - 1);
    }
  }

  /** Every leaf of a tree of at least two leaves is below its root, and its depth is the length of its code
      in a cheapest code. */
  lemma LengthsRight(w: seq<nat>, parent: seq<int>, kids: seq<(int, int)>, a: nat, n: nat, total: nat, top: nat,
                     len: seq<int>)
    requires Built(w, parent, kids, a, n, total) && LeafDepths(parent, a, n, len) && a < |w|
    requires forall i :: 0 <= i < a ==> len[i] <= top
    ensures LengthsWithin(len, 1, top) && KraftSum(len, top, a) == Pow2(top) && Cheapest(LeafWeights(w, a), len)
  {
    hide Pow2, KraftSum, Cheapest, Greedy;
    forall i | 0 <= i < a
      ensures 1 <= len[i] <= top
    {
      assert parent[i + 1] != -1;
      assert len[i] == Dep(parent, a, n, i + 1);
    }
    TreeIsComplete(parent, kids, a, n, top, len);
    GreedyIsCheapest(WeightsOf(w), parent, kids, a, n, len);
  }

  /** The weights of the leaves, in the order of the symbols. */
  ghost function LeafWeights(w: seq<nat>, a: nat): (x: seq<nat>)
    requires a < |w|
    ensures |x| == a
  {
    WeightsOf(w)[1..a + 1]
  }

  /** A cheapest code for these weights has a code longer than `maxLen`. */
  ghost predicate Overlong(x: seq<nat>, maxLen: nat) {
    exists len: seq<int>, i: nat :: Cheapest(x, len) && i < |len| && len[i] > maxLen
  }

  /** A tree that is too deep: its code is a cheapest one too, and its weight is that of a tall tree. */
  lemma TooDeep(w: seq<nat>, parent: seq<int>, kids: seq<(int, int)>, a: nat, n: nat, maxLen: nat, len: seq<int>,
                i: nat)
    requires a <= MAX_ALPHA_SIZE && a < |w| && Built(w, parent, kids, a, n, LeafSum(w, a)) &&
        LeafDepths(parent, a, n, len)
    requires i < a && len[i] > maxLen >= 12
    ensures Overlong(LeafWeights(w, a), maxLen) && Fib(maxLen + 1) <= LeafSum(w, a)
    ensures exists k :: 1 <= k <= a && WeightOf(w[k]) >= 3
  {
    hide WeightOf, DepthOf, Greedy, Cheapest, LeafSum, Fib, KraftSum, Pow2, Weights, Children, OneRoot, LeafWeights;
    hide Dep;
    assert len[i] == Dep(parent, a, n, i + 1);
    LongNeedsHeavy(w, parent, kids, a, n, i + 1);
    DepthUnderRoot(w, parent, kids, a, n, i + 1);
    FibMonotone(maxLen + 1, DepthOf(w[n]));
    GreedyIsCheapest(WeightsOf(w), parent, kids, a, n, len);
    assert WeightsOf(w)[1..a + 1] == LeafWeights(w, a) by { LeafWeightsAre(w, a); }
    assert Cheapest(LeafWeights(w, a), len) && i < |len|;
  }

  lemma LeafWeightsAre(w: seq<nat>, a: nat)
    requires a < |w|
    ensures LeafWeights(w, a) == WeightsOf(w)[1..a + 1]
  {
  }

  lemma LeavesFrame(w: seq<nat>, v: seq<nat>, a: nat)
    requires Leaves(w, a) && |v| == |w| && v[..a + 1] == w[..a + 1]
    ensures Leaves(v, a) && LeafSum(v, a) == LeafSum(w, a) && LeafWeights(v, a) == LeafWeights(w, a)
  {
    assert forall i :: 0 <= i <= a ==> v[i] == v[..a + 1][i];
    assert forall i :: 0 <= i <= a ==> w[i] == w[..a + 1][i];
    LeafSumFrame(w, v, a);
  }

  /** One round: build a tree and read off the depths of its leaves. */
  method Round(len: array<int>, heap: array<nat>, weight: array<nat>, parent: array<int>, alphaSize: nat, maxLen: nat)
    returns (tooLong: bool)
    requires heap != weight && heap as object != parent && weight as object != parent
    requires len as object != heap && len as object != weight && len != parent
    requires heap.Length == MAX_ALPHA_SIZE + 2 && weight.Length == parent.Length == NODES && alphaSize <= len.Length
    requires 2 <= alphaSize <= MAX_ALPHA_SIZE && 12 <= maxLen <= 20
    requires Leaves(weight[..], alphaSize) && LeafSum(weight[..], alphaSize) < MAX_TOTAL
    modifies len, heap, weight, parent
    ensures weight[..alphaSize + 1] == old(weight[..alphaSize + 1])
    ensures len[alphaSize..] == old(len[alphaSize..])
    ensures tooLong ==> exists k :: 1 <= k <= alphaSize && WeightOf(weight[k]) >= 3
    ensures tooLong ==>
        Overlong(LeafWeights(weight[..], alphaSize), maxLen) && Fib(maxLen + 1) <= LeafSum(weight[..], alphaSize)
    ensures !tooLong ==>
        GoodLengths(len[..alphaSize], maxLen) && Cheapest(LeafWeights(weight[..], alphaSize), len[..alphaSize])
  {
    hide Dep, Pow2, KraftSum, LeafSum, WeightOf, Leaves, LeafWeights, Overlong, Cheapest, Fib, GoodLengths, Greedy;
    ghost var w: seq<nat> := weight[..];
    ghost var total := LeafSum(w, alphaSize);
    var nNodes;
    ghost var kids;
    nNodes, kids := BuildTree(heap, weight, parent, alphaSize);
    ghost var v: seq<nat>, p := weight[..], parent[..];
    LeavesFrame(w, v, alphaSize);
    tooLong := Lengths(len, parent, alphaSize, maxLen, p, nNodes);
    ghost var l := len[..alphaSize];
    assert LeafDepths(p, alphaSize, nNodes, l);
    if tooLong {
      ghost var i :| 1 <= i <= alphaSize && Dep(p, alphaSize, nNodes, i) > maxLen;
      assert l[i - 1] == Dep(p, alphaSize, nNodes, i);
      TooDeep(v, p, kids, alphaSize, nNodes, maxLen, l, i - 1);
    } else {
      forall i | 0 <= i < alphaSize
        ensures l[i] <= maxLen
      {
        assert l[i] == Dep(p, alphaSize, nNodes, i + 1);
      }
      LengthsRight(v, p, kids, alphaSize, nNodes, total, maxLen, l);
      LengthsGood(l, maxLen);
    }
  }

  /** Lengths 1..maxLen that use up the code space exactly. */
  ghost predicate GoodLengths(len: seq<int>, maxLen: nat) {
    LengthsWithin(len, 1, maxLen) && maxLen <= 20 && KraftSum(len, 20, |len|) == Pow2(20)
  }

  /** Code space in other units. */
  lemma {:induction false} KraftScale(len: seq<int>, top: nat, more: nat, k: nat)
    requires k <= |len| && LengthsWithin(len, 0, top)
    ensures KraftSum(len, top + more, k) == KraftSum(len, top, k) * Pow2(more)
  {
    if k != 0 {
      hide Pow2;
      KraftScale(len, top, more, k - 1);
      Pow2Add(top - len[k - 1], more);
      Distribute(KraftSum(len, top, k - 1), Pow2(top - len[k - 1]), Pow2(more));
      assert top + more - len[k - 1] == top - len[k - 1] + more;
    }
  }

  lemma Distribute(x: int, y: int, z: int)
    ensures (x + y) * z == x * z + y * z
  {
  }

  lemma LengthsGood(len: seq<int>, maxLen: nat)
    requires LengthsWithin(len, 1, maxLen) && maxLen <= 20 && KraftSum(len, maxLen, |len|) == Pow2(maxLen)
    ensures GoodLengths(len, maxLen)
  {
    hide Pow2, KraftSum;
    KraftScale(len, maxLen, 20 - maxLen, |len|);
    Pow2Add(maxLen, 20 - maxLen);
  }

  /** Every weight halved, but not to zero: what a rescale does. */
  ghost function Halved(x: seq<nat>): (r: seq<nat>)
    ensures |r| == |x|
  {
    seq(|x|, i requires 0 <= i < |x| => 1 + x[i] / 2)
  }

  ghost function Flattened(x: seq<nat>, rounds: nat): (r: seq<nat>)
    ensures |r| == |x|
  {
    if rounds == 0 then x else Halved(Flattened(x, rounds - 1))
  }

  /** Unused symbols count as used once. */
  ghost function AtLeastOnce(freq: seq<nat>): (r: seq<nat>)
    ensures |r| == |freq|
  {
    seq(|freq|, i requires 0 <= i < |freq| => if freq[i] == 0 then 1 else freq[i])
  }

  /** `len` is a cheapest code for the frequencies flattened `rounds` times; before that, cheapest codes came
      out too long. */
  ghost predicate CodeFor(freq: seq<nat>, maxLen: nat, len: seq<int>, rounds: nat) {
    && Cheapest(Flattened(AtLeastOnce(freq), rounds), len)
    && forall r: nat :: r < rounds ==> Overlong(Flattened(AtLeastOnce(freq), r), maxLen)
  }

  /** BZ2_hbMakeCodeLengths. If the frequencies add up to less than a Fibonacci number, the first code fits,
      and it is a cheapest one for them. */
  method MakeCodeLengths(len: array<int>, freq: array<nat>, alphaSize: nat, maxLen: nat) returns (ghost rounds: nat)
    requires 2 <= alphaSize <= MAX_ALPHA_SIZE && 12 <= maxLen <= 20
    requires alphaSize <= len.Length && alphaSize <= freq.Length
    requires FreqTotal(freq[..], alphaSize) < MAX_TOTAL
    modifies len
    ensures GoodLengths(len[..alphaSize], maxLen)
    ensures CodeFor(old(freq[..alphaSize]), maxLen, len[..alphaSize], rounds)
    ensures old(FreqTotal(freq[..], alphaSize)) < Fib(maxLen + 1) ==> rounds == 0
    ensures len[alphaSize..] == old(len[alphaSize..])
  {
    hide LeafSum, Leaves, Pow2, KraftSum, FreqTotal, LeafWeights, Flattened, Overlong, Cheapest, GoodLengths, Fib;
    var heap, weight, parent := new nat[MAX_ALPHA_SIZE + 2], new nat[NODES], new int[NODES];
    InitWeights(weight, freq, alphaSize);
    ghost var x := AtLeastOnce(freq[..alphaSize]);
    rounds := 0;
    FlattenNone(x);
    while true
      invariant Leaves(weight[..], alphaSize) && LeafSum(weight[..], alphaSize) < MAX_TOTAL
      invariant LeafWeights(weight[..], alphaSize) == Flattened(x, rounds)
      invariant forall r: nat :: r < rounds ==> Overlong(Flattened(x, r), maxLen)
      invariant LeafSum(weight[..], alphaSize) <= old(FreqTotal(freq[..], alphaSize))
      invariant old(FreqTotal(freq[..], alphaSize)) < Fib(maxLen + 1) ==> rounds == 0
      invariant len[alphaSize..] == old(len[alphaSize..])
      decreases LeafSum(weight[..], alphaSize)
    {
      ghost var w: seq<nat> := weight[..];
      var tooLong := Round(len, heap, weight, parent, alphaSize, maxLen);
      ghost var v: seq<nat> := weight[..];
      LeavesFrame(w, v, alphaSize);
      if !tooLong { break; }
      Rescale(weight, alphaSize);
      HeavyShrinks(v, weight[..], alphaSize);
      RescaleHalves(v, weight[..], alphaSize);
      FlattenMore(x, rounds);
      rounds := rounds + 1;
    }
  }

  lemma FlattenNone(x: seq<nat>)
    ensures Flattened(x, 0) == x
  {
  }

  lemma FlattenMore(x: seq<nat>, rounds: nat)
    ensures Flattened(x, rounds + 1) == Halved(Flattened(x, rounds))
  {
  }

  lemma RescaleHalves(w: seq<nat>, v: seq<nat>, a: nat)
    requires a < |w| == |v| && forall i :: 1 <= i <= a ==> v[i] == RescaleWord(w[i])
    ensures LeafWeights(v, a) == Halved(LeafWeights(w, a))
  {
    forall i | 0 <= i < a
      ensures LeafWeights(v, a)[i] == 1 + LeafWeights(w, a)[i] / 2
    {
      RescaledWord(w[i + 1]);
    }
  }

  lemma HeavyShrinks(w: seq<nat>, v: seq<nat>, a: nat)
    requires Leaves(w, a) && |v| == |w| && exists k :: 1 <= k <= a && WeightOf(w[k]) >= 3
    requires forall i :: 1 <= i <= a ==> v[i] == RescaleWord(w[i])
    ensures LeafSum(v, a) < LeafSum(w, a)
  {
    RescaleShrinks(w, v, a);
  }
}
