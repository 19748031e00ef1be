/** What the quadrants of mainSort (blocksort.c) say of equal rotations: positions in a big bucket, shifted to
    fit in 16 bits, tell two of them apart exactly if the windows of positions that share a quadrant cut
    through the places of equal rotations. */
module Quadrants {
  import opened Rotations
  import opened Power
  import opened Permutations
  import opened Bits
  import opened Bwt
  import opened MainOrder
  import opened Multiples
  import opened Repetition

  lemma {:induction false} ShrMonotone(u: nat, v: nat, n: nat)
    requires u <= v
    ensures Shr(u, n) <= Shr(v, n)
    decreases n
  {
    if n > 0 { ShrMonotone(u / 2, v / 2, n - 1); }
  }

  lemma {:induction false} ShrMore(v: nat, n: nat)
    ensures Shr(v, n + 1) == Shr(v, n) / 2
    decreases n
  {
    if n > 0 { ShrMore(v / 2, n - 1); }
  }

  /** `shifts` is the least number of bits whose loss makes `size` fit. */
  ghost predicate LeastShift(size: nat, shifts: nat) {
    Shr(size, shifts) <= 65534 && forall n: nat :: n < shifts ==> Shr(size, n) > 65534
  }

  /** The positions that share a quadrant: a window of 2^n. */
  lemma {:induction false} ShrWindow(v: nat, n: nat)
    ensures Times(Shr(v, n), Pow2(n)) <= v < Times(Shr(v, n) + 1, Pow2(n))
    decreases n
  {
    if n > 0 {
      ShrWindow(v / 2, n - 1);
      var s, p := Shr(v, n), Pow2(n - 1);
      assert Times(s, Pow2(n)) == 2 * Times(s, p) && Times(s + 1, Pow2(n)) == 2 * Times(s + 1, p);
    }
  }

  /** One window at least is full. */
  lemma WindowFits(size: nat, shifts: nat)
    requires 0 < size && LeastShift(size, shifts)
    ensures Pow2(shifts) <= size
  {
    hide Shr;
    if shifts == 0 {
      assert Pow2(0) == 1;
    } else {
      assert Shr(size, shifts - 1) > 65534;
      ShrMore(size, shifts - 1);
      ShrWindow(size, shifts);
      TimesMonotone(1, Shr(size, shifts), Pow2(shifts));
      TimesStep(1, Pow2(shifts));
    }
  }

  // ----- A sorted bucket and its quadrants -----

  /** `g` lists the rotations that start with `ss`, each once. */
  ghost predicate Bucket(b: seq<int>, g: seq<int>, ss: int) {
    && (forall p :: 0 <= p < |g| ==> 0 <= g[p] < |b| && b[g[p]] == ss)
    && (forall p, q :: 0 <= p < q < |g| ==> g[p] != g[q])
    && forall r :: 0 <= r < |b| && b[r] == ss ==> r in g
  }

  ghost predicate InOrder(b: seq<int>, g: seq<int>) {
    forall p, q :: 0 <= p < q < |g| && 0 <= g[p] < |b| && 0 <= g[q] < |b| ==> RotLe(b, g[p], g[q])
  }

  /** The quadrants are the shifted positions. */
  ghost predicate Numbered(g: seq<int>, q: seq<int>, shifts: nat) {
    forall p :: 0 <= p < |g| ==> 0 <= g[p] < |q| && q[g[p]] == Shr(p, shifts)
  }

  /** A smaller quadrant is a strictly smaller rotation: what the comment says, for one bucket. */
  ghost predicate BucketStrict(b: seq<int>, q: seq<int>, ss: int) {
    && |q| == |b|
    && forall i, j :: 0 <= i < |b| && 0 <= j < |b| && b[i] == b[j] == ss && q[i] < q[j] ==> Cmp(b, i, j, |b|) < 0
  }

  lemma BucketOf(b: seq<int>, g: seq<int>, ss: int, q: seq<int>, shifts: nat, r: int) returns (p: nat)
    requires Bucket(b, g, ss) && Numbered(g, q, shifts) && 0 <= r < |b| && b[r] == ss
    ensures p < |g| && g[p] == r && r < |q| && q[r] == Shr(p, shifts)
  {
    hide Shr;
    assert r in g;
    p :| p < |g| && g[p] == r;
  }

  lemma EqualFirst(b: seq<int>, i: nat, j: nat)
    requires i < |b| && j < |b| && RotEq(b, i, j)
    ensures b[i] == b[j]
  {
  }

  lemma StrictMeansSame(b: seq<int>, q: seq<int>, ss: int, i: nat, j: nat)
    requires BucketStrict(b, q, ss) && i < |b| && j < |b| && b[i] == ss && RotEq(b, i, j)
    ensures b[j] == ss && q[i] == q[j]
  {
    EqualFirst(b, i, j);
    CmpAntisymmetric(b, i, j, |b|);
  }

  lemma FrontDistinct(b: seq<int>, g: seq<int>, ss: int, n: nat)
    requires Bucket(b, g, ss) && n <= |g|
    ensures |Elems(g[..n])| == n
  {
    DistinctSize(g[..n]);
  }

  /** If quadrants never tell equal rotations apart, the first window holds all of each kind. */
  lemma StrictDivides(b: seq<int>, g: seq<int>, q: seq<int>, ss: int, shifts: nat)
    requires Bucket(b, g, ss) && Numbered(g, q, shifts) && Pow2(shifts) <= |g| && BucketStrict(b, q, ss)
    ensures Divides(Repeats(b), Pow2(shifts))
  {
    hide Bucket, Numbered, BucketStrict, Shr, Divides, Pow2, RotEq;
    var n := Pow2(shifts);
    var s := Elems(g[..n]);
    forall i | i in s
      ensures 0 <= i < |b| && b[i] == ss && i < |q| && q[i] == 0
    {
      var p: nat :| p < n && g[..n][p] == i;
      ListedAt(b, g, q, ss, shifts, p);
      FirstWindow(p, shifts);
    }
    forall i, j | i in s && 0 <= j < |b| && RotEq(b, i, j)
      ensures j in s
    {
      StrictMeansSame(b, q, ss, i, j);
      var v := BucketOf(b, g, ss, q, shifts, j);
      FirstWindow(v, shifts);
      assert g[..n][v] == j;
    }
    ClosedSize(b, s);
    FrontDistinct(b, g, ss, n);
  }

  lemma ListedAt(b: seq<int>, g: seq<int>, q: seq<int>, ss: int, shifts: nat, p: nat)
    requires Bucket(b, g, ss) && Numbered(g, q, shifts) && p < |g|
    ensures 0 <= g[p] < |b| && b[g[p]] == ss && g[p] < |q| && q[g[p]] == Shr(p, shifts)
  {
    hide Shr;
  }

  lemma FirstWindow(p: nat, shifts: nat)
    ensures Shr(p, shifts) == 0 <==> p < Pow2(shifts)
  {
    hide Shr, Times, Pow2;
    ShrWindow(p, shifts);
    TimesStep(1, Pow2(shifts));
    if Shr(p, shifts) >= 1 { TimesMonotone(1, Shr(p, shifts), Pow2(shifts)); }
  }

  /** If the windows end where a kind ends, equal rotations are in one window. */
  lemma DividesStrict(b: seq<int>, g: seq<int>, q: seq<int>, ss: int, shifts: nat)
    requires Bucket(b, g, ss) && InOrder(b, g) && Numbered(g, q, shifts) && |q| == |b|
    requires Divides(Repeats(b), Pow2(shifts))
    ensures BucketStrict(b, q, ss)
  {
    hide Bucket, InOrder, Numbered, Shr, Divides, Pow2, RotEq;
    forall i, j | 0 <= i < |b| && 0 <= j < |b| && b[i] == b[j] == ss && q[i] < q[j]
      ensures Cmp(b, i, j, |b|) < 0
    {
      var u := BucketOf(b, g, ss, q, shifts, i);
      var v := BucketOf(b, g, ss, q, shifts, j);
      if v <= u { ShrMonotone(v, u, shifts); }
      InOrderAt(b, g, ss, u, v);
      if RotEq(b, i, j) {
        var x := Times(Shr(v, shifts), Pow2(shifts));
        ShrWindow(v, shifts);
        ShrWindow(u, shifts);
        TimesMonotone(Shr(u, shifts) + 1, Shr(v, shifts), Pow2(shifts));
        DividesTimes(Repeats(b), Shr(v, shifts), Pow2(shifts));
        CutThrough(b, g, ss, u, v, x);
      }
      NotEqualLess(b, i, j);
    }
  }

  lemma NotEqualLess(b: seq<int>, i: nat, j: nat)
    requires i < |b| && j < |b| && RotLe(b, i, j) && !RotEq(b, i, j)
    ensures Cmp(b, i, j, |b|) < 0
  {
  }

  lemma InOrderAt(b: seq<int>, g: seq<int>, ss: int, u: nat, v: nat)
    requires Bucket(b, g, ss) && InOrder(b, g) && u < v < |g|
    ensures 0 <= g[u] < |b| && 0 <= g[v] < |b| && RotLe(b, g[u], g[v])
  {
    hide RotLe;
  }

  /** A cut between two equal rotations leaves no multiple in front of it. */
  lemma CutThrough(b: seq<int>, g: seq<int>, ss: int, u: nat, v: nat, x: nat)
    requires Bucket(b, g, ss) && InOrder(b, g) && u < x <= v < |g|
    requires 0 <= g[u] < |b| && 0 <= g[v] < |b| && RotEq(b, g[u], g[v])
    ensures !Divides(Repeats(b), x)
  {
    hide Bucket, InOrder, Divides, RotEq;
    var i, j := g[u], g[v];
    var front := Elems(g[..x]);
    var c := set r | r in front && 0 <= r < |b| && RotEq(b, i, r);
    var s := front - c;
    FrontDistinct(b, g, ss, x);
    assert front == s + c;
    EqualSelf(b, i);
    assert g[..x][u] == i;
    NotInFront(b, g, ss, x, v);
    SomeEqual(b, i, j, c);
    OthersClosed(b, g, ss, u, v, x, s);
    ClosedSize(b, s);
    if Divides(Repeats(b), x) { DividesSum(Repeats(b), x, |s|); }
  }

  lemma NotInFront(b: seq<int>, g: seq<int>, ss: int, x: nat, v: nat)
    requires Bucket(b, g, ss) && x <= v < |g|
    ensures g[v] !in Elems(g[..x])
  {
    forall p | 0 <= p < x
      ensures g[..x][p] != g[v]
    {
    }
  }

  /** The rotations in front of the cut that differ from the ones it parts: all equal ones are in front, too. */
  lemma OthersClosed(b: seq<int>, g: seq<int>, ss: int, u: nat, v: nat, x: nat, s: set<int>)
    requires Bucket(b, g, ss) && InOrder(b, g) && u < x <= v < |g|
    requires 0 <= g[u] < |b| && 0 <= g[v] < |b| && RotEq(b, g[u], g[v])
    requires forall r :: r in s <==> r in Elems(g[..x]) && !(0 <= r < |b| && RotEq(b, g[u], r))
    ensures Closed(b, s)
  {
    hide Bucket, InOrder, RotEq;
    forall r | r in s
      ensures 0 <= r < |b|
    {
      var p := FrontAt(b, g, ss, x, r);
    }
    forall r, k | r in s && 0 <= k < |b| && RotEq(b, r, k)
      ensures k in s
    {
      var p := FrontAt(b, g, ss, x, r);
      EqualFirst(b, r, k);
      var o := Whereabouts(b, g, ss, k);
      if o >= x {
        Between(b, g, ss, u, v, p, o);
      } else {
        assert g[..x][o] == k;
      }
      if RotEq(b, g[u], k) { EqualBoth(b, g[u], k, r); }
    }
  }

  lemma FrontAt(b: seq<int>, g: seq<int>, ss: int, x: nat, r: int) returns (p: nat)
    requires Bucket(b, g, ss) && x <= |g| && r in Elems(g[..x])
    ensures p < x && g[p] == r && 0 <= r < |b| && b[r] == ss
  {
    p :| p < x && g[..x][p] == r;
  }

  lemma Whereabouts(b: seq<int>, g: seq<int>, ss: int, r: int) returns (p: nat)
    requires Bucket(b, g, ss) && 0 <= r < |b| && b[r] == ss
    ensures p < |g| && g[p] == r
  {
    assert r in g;
    p :| p < |g| && g[p] == r;
  }

  /** In a sorted list what is equal across a cut is equal to whatever else is equal across it. */
  lemma Between(b: seq<int>, g: seq<int>, ss: int, u: nat, v: nat, p: nat, o: nat)
    requires Bucket(b, g, ss) && InOrder(b, g) && u < |g| && v < |g| && p < |g| && o < |g|
    requires u < o && p < v
    requires 0 <= g[u] < |b| && 0 <= g[v] < |b| && RotEq(b, g[u], g[v])
    requires 0 <= g[p] < |b| && 0 <= g[o] < |b| && RotEq(b, g[p], g[o])
    ensures RotEq(b, g[u], g[p])
  {
    hide Bucket, InOrder;
    InOrderAt(b, g, ss, u, o);
    InOrderAt(b, g, ss, p, v);
    CmpAntisymmetric(b, g[p], g[o], |b|);
    CmpAntisymmetric(b, g[u], g[v], |b|);
    CmpTransitive(b, g[u], g[o], g[p], |b|);
    CmpTransitive(b, g[p], g[v], g[u], |b|);
    CmpAntisymmetric(b, g[p], g[u], |b|);
  }

  /** The quadrants of a sorted bucket are strict exactly if the number of equal rotations of a kind divides the
      window. */
  lemma StrictIff(b: seq<int>, g: seq<int>, q: seq<int>, ss: int, shifts: nat)
    requires Bucket(b, g, ss) && InOrder(b, g) && Numbered(g, q, shifts) && |q| == |b|
    requires g != [] && LeastShift(|g|, shifts)
    ensures BucketStrict(b, q, ss) <==> Divides(Repeats(b), Pow2(shifts))
  {
    hide Bucket, InOrder, Numbered, BucketStrict, LeastShift, Divides, Pow2;
    WindowFits(|g|, shifts);
    if BucketStrict(b, q, ss) { StrictDivides(b, g, q, ss, shifts); }
    if Divides(Repeats(b), Pow2(shifts)) { DividesStrict(b, g, q, ss, shifts); }
  }

  /** Without a shift: exactly if the block is no repetition of a shorter one. */
  lemma StrictIfNoShift(b: seq<int>, g: seq<int>, q: seq<int>, ss: int, shifts: nat)
    requires Bucket(b, g, ss) && InOrder(b, g) && Numbered(g, q, shifts) && |q| == |b|
    requires g != [] && LeastShift(|g|, shifts) && |g| <= 65534
    ensures BucketStrict(b, q, ss) <==> Primitive(b)
    ensures QuadOk(b, q) ==> (QuadStrict(b, q) <==> Primitive(b))
  {
    StrictIff(b, g, q, ss, shifts);
    assert Shr(|g|, 0) == |g|;
    assert shifts == 0 && Pow2(0) == 1 && 0 <= g[0] < |b|;
    hide Bucket, InOrder, Numbered, Divides, RotLe, Primitive;
    OnceIfPrimitive(b);
    OneDivides(Repeats(b));
    if QuadOk(b, q) && Primitive(b) { StrictIfPrimitive(b, q); }
  }

  lemma OneDivides(k: nat)
    ensures Divides(k, 1) <==> k == 1
  {
    if Divides(k, 1) {
      DividesZero(k);
      StepBelow(k, 0, 1);
      var q :| Times(q, k) == 1;
    } else {
      DividesSelf(k);
    }
  }
}
