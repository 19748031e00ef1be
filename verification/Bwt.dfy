/** The Burrows-Wheeler transform: what a sorted permutation of the rotations determines,
    and why the link vector built from the last column alone undoes it. */
module Bwt {
  import opened Rotations
  import opened Permutations

  /** `p` lists the rotations of `b` in non-decreasing order (ties in any order). */
  ghost predicate SortedRotations(b: seq<int>, p: seq<int>) {
    && IsPerm(p, |b|)
    && forall x, y :: 0 <= x <= y < |b| ==> RotLe(b, p[x], p[y])
  }

  /** The last column: the byte before each sorted rotation. */
  ghost function LastColumn(b: seq<int>, p: seq<int>): (r: seq<int>)
    requires IsPerm(p, |b|)
    ensures |r| == |b|
  {
    seq(|b|, x requires 0 <= x < |b| => b[Prev(|b|, p[x])])
  }

  /** A sorted listing of rotations: like SortedRotations, but only the order and the
      contents matter. */
  lemma SortedListingsAgree(b: seq<int>, p: seq<int>, q: seq<int>, x: nat)
    requires SortedRotations(b, p) && SortedRotations(b, q) && x < |b|
    ensures RotEq(b, p[x], q[x])
  {
    CmpAntisymmetric(b, p[x], q[x], |b|);
    if Cmp(b, p[x], q[x], |b|) < 0 {
      SortedListingsNotBelow(b, p, q, x);
    } else if Cmp(b, q[x], p[x], |b|) < 0 {
      SortedListingsNotBelow(b, q, p, x);
    }
  }

  /** If row x of p were below row x of q, x+1 rotations would have to fit in x rows of q. */
  lemma SortedListingsNotBelow(b: seq<int>, p: seq<int>, q: seq<int>, x: nat)
    requires SortedRotations(b, p) && SortedRotations(b, q) && x < |b|
    ensures Cmp(b, p[x], q[x], |b|) >= 0
  {
    var n := |b|;
    if Cmp(b, p[x], q[x], n) < 0 {
      var head := p[..x + 1];
      var pool := Elems(q[..x]);
      forall v | v in Elems(head)
        ensures v in pool
      {
        var z :| 0 <= z <= x && p[z] == v;
        var w := IndexOf(q, n, v);
        assert RotLe(b, p[z], p[x]);
        CmpTransitive(b, p[z], p[x], q[x], n);
        if w >= x {
          assert RotLe(b, q[x], q[w]);
          CmpAntisymmetric(b, q[x], q[w], n);
          assert false;
        }
        assert q[..x][w] == v;
      }
      Pigeonhole(head, pool);
      SeqSetSize(q[..x]);
    }
  }

  /** Any two sorted permutations give the same last column. */
  lemma LastColumnUnique(b: seq<int>, p: seq<int>, q: seq<int>)
    requires SortedRotations(b, p) && SortedRotations(b, q)
    ensures LastColumn(b, p) == LastColumn(b, q)
  {
    var n := |b|;
    forall x | 0 <= x < n
      ensures LastColumn(b, p)[x] == LastColumn(b, q)[x]
    {
      SortedListingsAgree(b, p, q, x);
      EqualRotationsBefore(b, p[x], q[x]);
    }
  }

  /** Whether the original is the only rotation of its kind: the block is no repetition of a shorter one. */
  ghost predicate Primitive(b: seq<int>) {
    forall i :: 0 < i < |b| ==> !RotEq(b, 0, i)
  }

  /** Unless the block repeats itself, every sort finds the original in the same row... */
  lemma OriginUnique(b: seq<int>, p: seq<int>, q: seq<int>, x: nat, y: nat)
    requires SortedRotations(b, p) && SortedRotations(b, q) && x < |b| && y < |b| && p[x] == 0 && q[y] == 0
    requires Primitive(b)
    ensures x == y
  {
    SortedListingsAgree(b, p, q, x);
    assert q[x] == 0;
  }

  /** ...and otherwise two sorts can put it in different rows. */
  lemma OriginAmbiguous(b: seq<int>, p: seq<int>, x: nat) returns (q: seq<int>, y: nat)
    requires SortedRotations(b, p) && x < |b| && p[x] == 0 && !Primitive(b)
    ensures SortedRotations(b, q) && y < |b| && q[y] == 0 && x != y
  {
    var n := |b|;
    var i :| 0 < i < n && RotEq(b, 0, i);
    y := IndexOf(p, n, i);
    q := p[x := i][y := 0];
    forall u | 0 <= u < n
      ensures RotEq(b, p[u], q[u])
    {
      CmpReflexive(b, p[u], n);
      CmpAntisymmetric(b, 0, i, n);
    }
    forall u, v | 0 <= u <= v < n
      ensures RotLe(b, q[u], q[v])
    {
      CmpAntisymmetric(b, p[u], q[u], n);
      CmpTransitive(b, q[u], p[u], p[v], n);
      CmpTransitive(b, q[u], p[v], q[v], n);
    }
  }

  /** Equal rotations have equal last bytes. */
  lemma EqualRotationsBefore(b: seq<int>, i: nat, j: nat)
    requires i < |b| && j < |b| && RotEq(b, i, j)
    ensures b[Prev(|b|, i)] == b[Prev(|b|, j)]
    ensures RotEq(b, Prev(|b|, i), Prev(|b|, j))
  {
    var n := |b|;
    CmpSplit(b, i, j, n - 1, 1);
    assert (n - 1) + 1 == n;
    assert Shift(n, i, n - 1) == Prev(n, i) && Shift(n, j, n - 1) == Prev(n, j);
    assert Cmp(b, Prev(n, i), Prev(n, j), 1) == 0;
    CmpStep(b, Prev(n, i), Prev(n, j));
  }

  /** Two equal rotations make the block a repetition: shifted back, one of them is the original. */
  lemma {:induction false} EqualMeansRepeats(b: seq<int>, i: nat, j: nat)
    requires i < |b| && j < |b| && i != j && RotEq(b, i, j)
    ensures !Primitive(b)
    decreases i
  {
    if i == 0 {
      assert RotEq(b, 0, j);
    } else {
      EqualRotationsBefore(b, i, j);
      if j == 0 {
        CmpAntisymmetric(b, i, j, |b|);
        assert RotEq(b, 0, i);
      } else {
        EqualMeansRepeats(b, i - 1, j - 1);
      }
    }
  }

  // ----- The stable sort of the last column -----

  /** How many entries of `l[..k]` are below `c`. */
  ghost function CountBelow(l: seq<int>, k: nat, c: int): nat
    requires k <= |l|
  {
    if k == 0 then 0 else CountBelow(l, k - 1, c) + if l[k - 1] < c then 1 else 0
  }

  /** How many entries of `l[..k]` equal `c`. */
  ghost function CountEq(l: seq<int>, k: nat, c: int): nat
    requires k <= |l|
  {
    if k == 0 then 0 else CountEq(l, k - 1, c) + if l[k - 1] == c then 1 else 0
  }

  /** Where the stable sort of `l` puts entry `x`: the slot `cftab[uc]` holds when the
      decoder reaches entry `x`. */
  ghost function Slot(l: seq<int>, x: nat): nat
    requires x < |l|
  {
    CountBelow(l, |l|, l[x]) + CountEq(l, x, l[x])
  }

  lemma {:induction false} CountsBound(l: seq<int>, k: nat, c: int)
    requires k <= |l|
    ensures CountBelow(l, k, c) + CountEq(l, k, c) <= k
    ensures CountBelow(l, k, c + 1) == CountBelow(l, k, c) + CountEq(l, k, c)
  {
    if k != 0 {
      CountsBound(l, k - 1, c);
    }
  }

  lemma {:induction false} CountEqMonotone(l: seq<int>, j: nat, k: nat, c: int)
    requires j <= k <= |l|
    ensures CountEq(l, j, c) <= CountEq(l, k, c)
    ensures j < k && l[j] == c ==> CountEq(l, j, c) < CountEq(l, k, c)
    decreases k
  {
    if j < k {
      CountEqMonotone(l, j, k - 1, c);
    }
  }

  lemma {:induction false} CountBelowMonotone(l: seq<int>, k: nat, c: int, d: int)
    requires k <= |l| && c < d
    ensures CountBelow(l, k, c) + CountEq(l, k, c) <= CountBelow(l, k, d)
  {
    if k != 0 {
      CountBelowMonotone(l, k - 1, c, d);
    }
  }

  lemma SlotInRange(l: seq<int>, x: nat)
    requires x < |l|
    ensures Slot(l, x) < |l|
    ensures Slot(l, x) < CountBelow(l, |l|, l[x]) + CountEq(l, |l|, l[x])
  {
    CountEqMonotone(l, x, |l|, l[x]);
    CountsBound(l, |l|, l[x]);
  }

  /** The sort is stable: entries go out in order of value, then of position. */
  lemma SlotOrder(l: seq<int>, x: nat, y: nat)
    requires x < |l| && y < |l|
    requires l[x] < l[y] || (l[x] == l[y] && x < y)
    ensures Slot(l, x) < Slot(l, y)
  {
    if l[x] < l[y] {
      SlotInRange(l, x);
      CountBelowMonotone(l, |l|, l[x], l[y]);
    } else {
      CountEqMonotone(l, x, y, l[x]);
    }
  }

  /** `links` is the link vector of `l`: it sends the slot of each entry back to the entry. */
  ghost predicate IsLinks(l: seq<int>, links: seq<int>) {
    && |links| == |l|
    && forall x :: 0 <= x < |l| ==> Slot(l, x) < |l| && links[Slot(l, x)] == x
  }

  lemma LinksArePerm(l: seq<int>, links: seq<int>)
    requires IsLinks(l, links)
    ensures IsPerm(links, |l|)
    ensures forall k :: 0 <= k < |l| ==> Slot(l, links[k]) == k
  {
    var slots := seq(|l|, x requires 0 <= x < |l| => Slot(l, x));
    forall x, y | 0 <= x < y < |l|
      ensures slots[x] != slots[y]
    {
      assert links[slots[x]] == x && links[slots[y]] == y;
    }
    assert IsPerm(slots, |l|);
    forall k | 0 <= k < |l|
      ensures 0 <= links[k] < |l| && Slot(l, links[k]) == k
    {
      var x := IndexOf(slots, |l|, k);
      assert slots[x] == k == Slot(l, x);
    }
  }

  /** Following the links: row k of the listing "previous rotation of row links[k]" is sorted too. */
  lemma LinkedRowsSorted(b: seq<int>, p: seq<int>, links: seq<int>)
    requires SortedRotations(b, p) && IsLinks(LastColumn(b, p), links)
    ensures IsPerm(links, |b|)
    ensures SortedRotations(b, seq(|b|, k requires 0 <= k < |b| && IsPerm(links, |b|) => Prev(|b|, p[links[k]])))
  {
    var n, l := |b|, LastColumn(b, p);
    LinksArePerm(l, links);
    var q := seq(n, k requires 0 <= k < n && IsPerm(links, n) => Prev(n, p[links[k]]));
    forall x, y | 0 <= x < y < n
      ensures q[x] != q[y]
    {
      assert p[links[x]] != p[links[y]];
    }
    assert IsPerm(q, n);
    forall x, y | 0 <= x <= y < n
      ensures RotLe(b, q[x], q[y])
    {
      LinkedPairSorted(b, p, links, x, y);
    }
  }

  lemma LinkedPairSorted(b: seq<int>, p: seq<int>, links: seq<int>, x: nat, y: nat)
    requires SortedRotations(b, p) && IsLinks(LastColumn(b, p), links)
    requires IsPerm(links, |b|) && x <= y < |b|
    ensures RotLe(b, Prev(|b|, p[links[x]]), Prev(|b|, p[links[y]]))
  {
    var n, l := |b|, LastColumn(b, p);
    LinksArePerm(l, links);
    var u, v := links[x], links[y];
    var i, j := Prev(n, p[u]), Prev(n, p[v]);
    assert l[u] == b[i] && l[v] == b[j];
    if l[u] == l[v] {
      if v < u {
        SlotOrder(l, v, u);
      }
      assert RotLe(b, p[u], p[v]);
      CmpStep(b, i, j);
    } else if l[v] < l[u] {
      SlotOrder(l, v, u);
    }
  }

  /** Following one link from row k moves one byte forward in the block (up to equal rotations). */
  lemma LinkAdvances(b: seq<int>, p: seq<int>, links: seq<int>, k: nat)
    requires SortedRotations(b, p) && IsLinks(LastColumn(b, p), links) && k < |b|
    ensures 0 <= links[k] < |b|
    ensures RotEq(b, Next(|b|, p[k]), p[links[k]])
  {
    var n := |b|;
    LinkedRowsSorted(b, p, links);
    var q := seq(n, k requires 0 <= k < n && IsPerm(links, n) => Prev(n, p[links[k]]));
    SortedListingsAgree(b, p, q, k);
    CmpDecided(b, p[k], q[k], 1);
    assert b[p[k]] == b[q[k]] by {
      assert Cmp(b, p[k], q[k], 1) == 0;
    }
    CmpStep(b, p[k], q[k]);
    assert Next(n, q[k]) == p[links[k]];
  }

  /** The bytes read by following links `h` times from row `k`: at each step the row moves along
      its link and the last-column byte found there is output (BZ_GET_FAST). */
  ghost function Walk(l: seq<int>, links: seq<int>, k: nat, h: nat): (r: seq<int>)
    requires IsPerm(links, |l|) && k < |l|
    ensures |r| == h
    decreases h
  {
    if h == 0 then [] else [l[links[k]]] + Walk(l, links, links[k], h - 1)
  }

  lemma {:induction false} WalkSpells(b: seq<int>, p: seq<int>, links: seq<int>, k: nat, i: nat, h: nat)
    requires SortedRotations(b, p) && IsLinks(LastColumn(b, p), links)
    requires k < |b| && i < |b| && RotEq(b, i, p[k]) && IsPerm(links, |b|)
    ensures Walk(LastColumn(b, p), links, k, h) == Spell(b, i, h)
    decreases h
  {
    if h != 0 {
      var n := |b|;
      LinkAdvances(b, p, links, k);
      CmpDecided(b, i, p[k], 1);
      assert Cmp(b, i, p[k], 1) == 0;
      CmpStep(b, i, p[k]);
      var j := links[k];
      CmpTransitive(b, Next(n, i), Next(n, p[k]), p[j], n);
      CmpAntisymmetric(b, Next(n, i), Next(n, p[k]), n);
      CmpAntisymmetric(b, Next(n, p[k]), p[j], n);
      CmpAntisymmetric(b, Next(n, i), p[j], n);
      CmpTransitive(b, p[j], Next(n, p[k]), Next(n, i), n);
      EqualRotationsBefore(b, Next(n, i), p[j]);
      assert Prev(n, Next(n, i)) == i;
      WalkSpells(b, p, links, j, Next(n, i), h - 1);
    }
  }

  /** The inverse transform: from the row of the original block, the links of the last column
      spell the block. */
  lemma WalkInvertsTransform(b: seq<int>, p: seq<int>, links: seq<int>, origPtr: nat)
    requires SortedRotations(b, p) && IsLinks(LastColumn(b, p), links)
    requires origPtr < |b| && p[origPtr] == 0
    ensures IsPerm(links, |b|)
    ensures Walk(LastColumn(b, p), links, origPtr, |b|) == b
  {
    LinksArePerm(LastColumn(b, p), links);
    CmpReflexive(b, 0, |b|);
    WalkSpells(b, p, links, origPtr, 0, |b|);
    SpellIsRotation(b, 0);
    assert Rotation(b, 0) == b;
  }
}
