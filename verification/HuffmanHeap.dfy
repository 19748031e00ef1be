/** The binary heap of BZ2_hbMakeCodeLengths (huffman.c): UPHEAP and DOWNHEAP. Entries 1..nHeap
    name nodes; entry 0 is a sentinel of weight 0. */
module HuffmanHeap {
  import opened Permutations
  import opened ThreeWay

  /** Entries 0..n name nodes that have a weight. */
  ghost predicate Named(h: seq<int>, w: seq<nat>, n: nat) {
    n < |h| && forall i :: 0 <= i <= n ==> 0 <= h[i] < |w|
  }

  ghost predicate HeapOrder(h: seq<int>, w: seq<nat>, n: nat) {
    Named(h, w, n) && forall i :: 2 <= i <= n ==> w[h[i / 2]] <= w[h[i]]
  }

  /** In order except that entry `z` may be lighter than its parent. */
  ghost predicate OrderAbove(h: seq<int>, w: seq<nat>, n: nat, z: nat) {
    && Named(h, w, n) && 1 <= z <= n
    && (forall i :: 2 <= i <= n && i != z ==> w[h[i / 2]] <= w[h[i]])
    && (forall i :: 2 <= i <= n && i / 2 == z && z >= 2 ==> w[h[z / 2]] <= w[h[i]])
  }

  /** In order except that entry `z` may be heavier than its children. */
  ghost predicate OrderBelow(h: seq<int>, w: seq<nat>, n: nat, z: nat) {
    && Named(h, w, n) && 1 <= z
    && (forall i :: 2 <= i <= n && i / 2 != z ==> w[h[i / 2]] <= w[h[i]])
    && (forall i :: 2 <= i <= n && i / 2 == z && z >= 2 ==> w[h[z / 2]] <= w[h[i]])
  }

  lemma SiftUp(g: seq<int>, w: seq<nat>, n: nat, z: nat)
    requires OrderAbove(g, w, n, z) && z >= 2 && w[g[z]] < w[g[z / 2]]
    ensures OrderAbove(Swapped(g, z, z / 2), w, n, z / 2)
    ensures Rearranged(g, Swapped(g, z, z / 2), 1, n)
  {
    var p, h := z / 2, Swapped(g, z, z / 2);
    SwappedRearranges(g, z, p, 1, n);
    forall i | 2 <= i <= n && i != p
      ensures w[h[i / 2]] <= w[h[i]]
    {
      if i == z || i / 2 == z || i / 2 == p {
      } else {
        assert h[i] == g[i] && h[i / 2] == g[i / 2];
      }
    }
    forall i | 2 <= i <= n && i / 2 == p && p >= 2
      ensures w[h[p / 2]] <= w[h[i]]
    {
      assert w[g[p / 2]] <= w[g[p]];
      if i != z {
        assert w[g[i / 2]] <= w[g[i]];
      }
    }
  }

  lemma SiftDown(g: seq<int>, w: seq<nat>, n: nat, z: nat, y: nat)
    requires OrderBelow(g, w, n, z) && (y == 2 * z || y == 2 * z + 1) && y <= n
    requires w[g[y]] <= w[g[z]]
    requires forall i :: 2 <= i <= n && i / 2 == z ==> w[g[y]] <= w[g[i]]
    ensures OrderBelow(Swapped(g, z, y), w, n, y)
    ensures Rearranged(g, Swapped(g, z, y), 1, n)
  {
    var h := Swapped(g, z, y);
    SwappedRearranges(g, z, y, 1, n);
    forall i | 2 <= i <= n && i / 2 != y
      ensures w[h[i / 2]] <= w[h[i]]
    {
      if i / 2 == z {
      } else if i == z {
        assert w[g[z / 2]] <= w[g[y]];
      } else {
        assert h[i] == g[i] && h[i / 2] == g[i / 2];
      }
    }
    forall i | 2 <= i <= n && i / 2 == y && y >= 2
      ensures w[h[y / 2]] <= w[h[i]]
    {
      assert w[g[i / 2]] <= w[g[i]];
    }
  }

  /** The hole of a sift: `g` is the heap with the moving entry put into it. */
  lemma MoveHole(s: seq<int>, g: seq<int>, x: int, y: int, v: int)
    requires 0 <= x < |s| && 0 <= y < |s| && x != y && g == s[x := v]
    ensures Swapped(g, x, y) == s[x := s[y]][y := v]
  {
  }

  /** UPHEAP(z). */
  method UpHeap(heap: array<nat>, weight: array<nat>, z: nat, nHeap: nat)
    requires heap != weight && OrderAbove(heap[..], weight[..], nHeap, z)
    requires heap[0] == 0 && weight[0] == 0 && weight[heap[z]] > 0
    modifies heap
    ensures HeapOrder(heap[..], weight[..], nHeap)
    ensures Rearranged(old(heap[..]), heap[..], 1, nHeap) && heap[0] == 0
  {
    hide Sifting, HeapOrder, Rearranged, OrderAbove;
    ghost var f: seq<int>, w: seq<nat> := heap[..], weight[..];
    ghost var cur: seq<int>, g: seq<int> := f, f;
    AboveEntry(f, w, nHeap, z);
    SiftStart(f, w, nHeap, z);
    var zz, tmp := z, heap[z];
    while weight[tmp] < weight[heap[zz / 2]]
      invariant w == weight[..] && cur == heap[..] && 0 <= tmp < weight.Length
      invariant 0 <= zz / 2 < |cur| && 0 <= cur[zz / 2] < weight.Length
      invariant Sifting(f, g, cur, w, nHeap, zz, tmp)
      decreases zz
    {
      g := SiftUpStep(f, g, cur, w, nHeap, zz, tmp);
      heap[zz] := heap[zz / 2];
      cur := cur[zz := cur[zz / 2]];
      zz := zz / 2;
    }
    SiftDone(f, g, cur, w, nHeap, zz, tmp);
    heap[zz] := tmp;
  }

  /** `cur` is the heap with a hole at `z`; with `tmp` put into it, it is `g`, which is in order below. */
  ghost predicate Sifting(f: seq<int>, g: seq<int>, cur: seq<int>, w: seq<nat>, n: nat, z: nat, tmp: int) {
    && OrderAbove(g, w, n, z) && Rearranged(f, g, 1, n) && |cur| == |g| && 1 <= z <= n < |cur|
    && g == cur[z := tmp] && cur[0] == 0 && 0 <= tmp < |w| && 0 < |w| && w[0] == 0 < w[tmp]
    && 0 <= cur[z / 2] < |w|
  }

  lemma SiftStart(f: seq<int>, w: seq<nat>, n: nat, z: nat)
    requires OrderAbove(f, w, n, z) && 0 < |f| && f[0] == 0 && 0 < |w| && w[0] == 0
    requires 0 <= z < |f| && 0 <= f[z] < |w| && w[f[z]] > 0
    ensures Sifting(f, f, f, w, n, z, f[z])
  {
    RearrangedRefl(f, 1, n);
  }

  /** One level up: the sentinel guarantees that there is one. */
  lemma SiftUpStep(f: seq<int>, g: seq<int>, cur: seq<int>, w: seq<nat>, n: nat, z: nat, tmp: int) returns (h: seq<int>)
    requires Sifting(f, g, cur, w, n, z, tmp)
    requires 0 <= tmp < |w| && 0 <= z / 2 < |cur| && 0 <= cur[z / 2] < |w| && w[tmp] < w[cur[z / 2]]
    ensures 2 <= z < |cur| && 0 <= z / 2 / 2 < |cur| && 0 <= cur[z := cur[z / 2]][z / 2 / 2] < |w|
    ensures Sifting(f, h, cur[z := cur[z / 2]], w, n, z / 2, tmp)
  {
    hide Rearranged;
    assert z >= 2;
    h := Swapped(g, z, z / 2);
    SiftUp(g, w, n, z);
    RearrangedTrans(f, g, h, 1, n);
    MoveHole(cur, g, z, z / 2, tmp);
  }

  lemma SiftDone(f: seq<int>, g: seq<int>, cur: seq<int>, w: seq<nat>, n: nat, z: nat, tmp: int)
    requires Sifting(f, g, cur, w, n, z, tmp)
    requires 0 <= tmp < |w| && 0 <= z / 2 < |cur| && 0 <= cur[z / 2] < |w| && w[cur[z / 2]] <= w[tmp]
    ensures 1 <= z < |cur| && HeapOrder(cur[z := tmp], w, n) && Rearranged(f, cur[z := tmp], 1, n)
    ensures cur[z := tmp][0] == 0
  {
    hide Rearranged;
    AboveDone(g, w, n, z);
  }

  lemma AboveEntry(g: seq<int>, w: seq<nat>, n: nat, z: nat)
    requires OrderAbove(g, w, n, z)
    ensures 1 <= z <= n < |g| && 0 <= g[z / 2] < |w| && 0 <= g[z] < |w|
  {
  }

  lemma AboveDone(g: seq<int>, w: seq<nat>, n: nat, z: nat)
    requires OrderAbove(g, w, n, z) && 0 <= g[z / 2] < |w| && 0 <= g[z] < |w| && w[g[z / 2]] <= w[g[z]]
    ensures HeapOrder(g, w, n)
  {
  }

  /** DOWNHEAP(1). */
  method DownHeap(heap: array<nat>, weight: array<nat>, nHeap: nat)
    requires heap != weight && 1 < heap.Length && OrderBelow(heap[..], weight[..], nHeap, 1) &&
        0 <= heap[1] < weight.Length
    modifies heap
    ensures HeapOrder(heap[..], weight[..], nHeap)
    ensures Rearranged(old(heap[..]), heap[..], 1, nHeap) && heap[0] == old(heap[0])
  {
    ghost var f: seq<int>, w := heap[..], weight[..];
    var zz, tmp := 1, heap[1];
    ghost var cur: seq<int>, g: seq<int> := f, f;
    assert g == cur[zz := tmp];
    RearrangedRefl(f, 1, nHeap);
    hide OrderBelow, Rearranged, Swapped, HeapOrder, SameBag, SameOutside;
    while true
      invariant w == weight[..] && cur == heap[..] && |cur| == |g| == heap.Length
      invariant 1 <= zz < heap.Length && nHeap < heap.Length && (nHeap > 0 ==> zz <= nHeap) &&
          (nHeap == 0 ==> zz == 1) && 0 <= tmp < weight.Length
      invariant g == cur[zz := tmp] && cur[0] == f[0]
      invariant OrderBelow(g, w, nHeap, zz) && Rearranged(f, g, 1, nHeap)
      decreases nHeap + 1 - zz
    {
      BelowEntry(g, w, nHeap, zz);
      var yy := zz * 2;
      if yy > nHeap { break; }
      assert cur[yy] == g[yy] && (yy < nHeap ==> cur[yy + 1] == g[yy + 1]);
      if yy < nHeap && weight[heap[yy + 1]] < weight[heap[yy]] {
        yy := yy + 1;
      }
      LighterChild(g, w, nHeap, zz, yy);
      if weight[tmp] < weight[heap[yy]] { break; }
      SiftDown(g, w, nHeap, zz, yy);
      RearrangedTrans(f, g, Swapped(g, zz, yy), 1, nHeap);
      MoveHole(cur, g, zz, yy, tmp);
      g := Swapped(g, zz, yy);
      heap[zz] := heap[yy];
      cur := cur[zz := cur[yy]];
      zz := yy;
    }
    heap[zz] := tmp;
    BelowDone(g, w, nHeap, zz);
  }

  lemma BelowEntry(g: seq<int>, w: seq<nat>, n: nat, z: nat)
    requires OrderBelow(g, w, n, z)
    ensures 1 <= z && n < |g| && forall i :: 0 <= i <= n ==> 0 <= g[i] < |w|
  {
  }

  /** The lighter of the one or two children. */
  lemma LighterChild(g: seq<int>, w: seq<nat>, n: nat, z: nat, y: nat)
    requires Named(g, w, n) && 1 <= z && 2 * z <= n
    requires y == if 2 * z < n && w[g[2 * z + 1]] < w[g[2 * z]] then 2 * z + 1 else 2 * z
    ensures forall i :: 2 <= i <= n && i / 2 == z ==> w[g[y]] <= w[g[i]]
  {
    forall i | 2 <= i <= n && i / 2 == z
      ensures w[g[y]] <= w[g[i]]
    {
      assert i == 2 * z || i == 2 * z + 1;
    }
  }

  lemma BelowDone(g: seq<int>, w: seq<nat>, n: nat, z: nat)
    requires OrderBelow(g, w, n, z)
    requires forall i :: 2 <= i <= n && i / 2 == z ==> w[g[z]] <= w[g[i]]
    ensures HeapOrder(g, w, n)
  {
  }

  /** The root is lightest. */
  lemma {:induction false} RootLightest(h: seq<int>, w: seq<nat>, n: nat, i: nat)
    requires HeapOrder(h, w, n) && 1 <= i <= n
    ensures w[h[1]] <= w[h[i]]
    decreases i
  {
    if i > 1 {
      RootLightest(h, w, n, i / 2);
    }
  }

  // ----- The heap as a set of nodes -----

  /** Entries 1..n are exactly the nodes of `nodes`, each once. */
  ghost predicate Holds(h: seq<int>, n: nat, nodes: set<int>) {
    n < |h| && Distinct(h[1..n + 1]) && Elems(h[1..n + 1]) == nodes
  }

  lemma HoldsRearranged(f: seq<int>, g: seq<int>, n: nat, nodes: set<int>)
    requires Holds(f, n, nodes) && Rearranged(f, g, 1, n)
    ensures Holds(g, n, nodes)
  {
    SameRangeMultiset(f, g, 1, n);
    BagDistinct(f[1..n + 1], g[1..n + 1]);
  }

  lemma HoldsEntry(h: seq<int>, n: nat, nodes: set<int>, i: nat)
    requires Holds(h, n, nodes) && 1 <= i <= n
    ensures h[i] in nodes
  {
    assert h[1..n + 1][i - 1] == h[i];
  }

  lemma HoldsWhere(h: seq<int>, n: nat, nodes: set<int>, v: int) returns (i: nat)
    requires Holds(h, n, nodes) && v in nodes
    ensures 1 <= i <= n && h[i] == v
  {
    assert v in h[1..n + 1];
    var x :| 0 <= x < n && h[1..n + 1][x] == v;
    i := x + 1;
  }

  lemma HoldsSize(h: seq<int>, n: nat, nodes: set<int>)
    requires Holds(h, n, nodes)
    ensures |nodes| == n
  {
    DistinctSize(h[1..n + 1]);
  }

  /** Moving the last entry to the front and dropping it from the end takes out the first. */
  lemma HoldsWithoutFirst(h: seq<int>, n: nat, nodes: set<int>)
    requires Holds(h, n, nodes) && 1 <= n
    ensures h[1] in nodes && Holds(h[1 := h[n]], n - 1, nodes - {h[1]})
  {
    var p, g := h[1..n + 1], h[1 := h[n]];
    var q := g[1..n];
    assert p[0] == h[1];
    forall x | 0 <= x < n - 1
      ensures q[x] == if x == 0 then p[n - 1] else p[x]
    {
    }
    assert forall x, y :: 0 <= x < y < n - 1 ==> q[x] != q[y];
    forall v
      ensures v in q <==> v in p && v != p[0]
    {
      if v in p && v != p[0] {
        var x :| 0 <= x < n && p[x] == v;
        assert q[if x == n - 1 then 0 else x] == v;
      }
      if v in q {
        var x :| 0 <= x < n - 1 && q[x] == v;
        assert p[if x == 0 then n - 1 else x] == v;
      }
    }
  }

  lemma HoldsWithOne(h: seq<int>, n: nat, nodes: set<int>, v: int)
    requires Holds(h, n, nodes) && n + 1 < |h| && v !in nodes
    ensures Holds(h[n + 1 := v], n + 1, nodes + {v})
  {
    assert h[n + 1 := v][1..n + 2] == h[1..n + 1] + [v];
  }

  /** All nodes of the heap have weights, and positive ones. */
  ghost predicate Weighted(w: seq<nat>, nodes: set<int>) {
    0 < |w| && w[0] == 0 && forall v :: v in nodes ==> 0 < v < |w| && w[v] > 0
  }

  /** `n1 = heap[1]; heap[1] = heap[nHeap]; nHeap--; DOWNHEAP(1)`: takes out a lightest node. */
  method PopMin(heap: array<nat>, weight: array<nat>, nHeap: nat, ghost nodes: set<int>) returns (m: nat)
    requires heap != weight && 1 <= nHeap && Holds(heap[..], nHeap, nodes) && Weighted(weight[..], nodes)
    requires HeapOrder(heap[..], weight[..], nHeap) && heap[0] == 0
    modifies heap
    ensures m in nodes && Holds(heap[..], nHeap - 1, nodes - {m})
    ensures HeapOrder(heap[..], weight[..], nHeap - 1) && heap[0] == 0
    ensures forall v :: v in nodes ==> weight[..][m] <= weight[..][v]
  {
    ghost var h, w := heap[..], weight[..];
    forall v | v in nodes
      ensures w[h[1]] <= w[v]
    {
      var i := HoldsWhere(h, nHeap, nodes, v);
      RootLightest(h, w, nHeap, i);
    }
    HoldsWithoutFirst(h, nHeap, nodes);
    FirstReplaced(h, w, nHeap);
    m := heap[1];
    heap[1] := heap[nHeap];
    ghost var g := heap[..];
    assert g == h[1 := h[nHeap]];
    DownHeap(heap, weight, nHeap - 1);
    HoldsRearranged(g, heap[..], nHeap - 1, nodes - {m});
  }

  lemma FirstReplaced(h: seq<int>, w: seq<nat>, n: nat)
    requires HeapOrder(h, w, n) && 1 <= n
    ensures OrderBelow(h[1 := h[n]], w, n - 1, 1)
  {
  }

  /** `nHeap++; heap[nHeap] = v; UPHEAP(nHeap)`. */
  method Push(heap: array<nat>, weight: array<nat>, nHeap: nat, v: nat, ghost nodes: set<int>)
    requires heap != weight && nHeap + 1 < heap.Length && Holds(heap[..], nHeap, nodes)
    requires v !in nodes && Weighted(weight[..], nodes + {v})
    requires HeapOrder(heap[..], weight[..], nHeap) && heap[0] == 0
    modifies heap
    ensures Holds(heap[..], nHeap + 1, nodes + {v})
    ensures HeapOrder(heap[..], weight[..], nHeap + 1) && heap[0] == 0
  {
    ghost var h, w := heap[..], weight[..];
    HoldsWithOne(h, nHeap, nodes, v);
    assert v in nodes + {v};
    LastAdded(h, w, nHeap, v);
    heap[nHeap + 1] := v;
    ghost var g := heap[..];
    assert g == h[nHeap + 1 := v];
    UpHeap(heap, weight, nHeap + 1, nHeap + 1);
    HoldsRearranged(g, heap[..], nHeap + 1, nodes + {v});
  }

  lemma LastAdded(h: seq<int>, w: seq<nat>, n: nat, v: int)
    requires HeapOrder(h, w, n) && n + 1 < |h| && 0 <= v < |w|
    ensures OrderAbove(h[n + 1 := v], w, n + 1, n + 1)
  {
  }
}
