/** fallbackSort (blocksort.c): prefix doubling over buckets of rotations, in place. */
module FallbackSort {
  import opened Rotations
  import opened Permutations
  import opened Bwt
  import opened InverseBwt
  import opened ThreeWay
  import opened FallbackQSort
  import opened FallbackSpec

  // ----- Bucket sort -----

  /** Byte counts, kept in `ftabCopy`, and in `ftab` the end of each bucket. */
  method CountBytes(eclass8: array<byte>, ftab: array<int>, ftabCopy: array<int>, nblock: nat, ghost b: seq<int>)
    requires nblock == |b| <= eclass8.Length && ftab.Length == 257 && ftabCopy.Length == 256
    requires ftab != ftabCopy && ftab != eclass8 as object && ftabCopy != eclass8 as object
    requires forall x :: 0 <= x < nblock ==> eclass8[x] == b[x]
    modifies ftab, ftabCopy
    ensures forall c :: 0 <= c < 256 ==> ftabCopy[c] == CountEq(b, nblock, c)
    ensures forall c :: 0 <= c < 256 ==> ftab[c] == CountBelow(b, nblock, c + 1)
  {
    for i := 0 to 257
      invariant forall c :: 0 <= c < i ==> ftab[c] == 0
    {
      ftab[i] := 0;
    }
    for i := 0 to nblock
      invariant forall c :: 0 <= c < 256 ==> ftab[c] == CountEq(b, i, c)
    {
      ftab[eclass8[i]] := ftab[eclass8[i]] + 1;
    }
    for i := 0 to 256
      invariant forall c :: 0 <= c < 256 ==> ftab[c] == CountEq(b, nblock, c)
      invariant forall c :: 0 <= c < i ==> ftabCopy[c] == CountEq(b, nblock, c)
    {
      ftabCopy[i] := ftab[i];
    }
    NoneBelowZero(b, nblock);
    CountsBound(b, nblock, 0);
    for i := 1 to 257
      invariant forall c :: 0 <= c < i && c < 256 ==> ftab[c] == CountBelow(b, nblock, c + 1)
      invariant forall c :: i <= c < 256 ==> ftab[c] == CountEq(b, nblock, c)
      invariant forall c :: 0 <= c < 256 ==> ftabCopy[c] == CountEq(b, nblock, c)
    {
      CountsBound(b, nblock, i);
      ftab[i] := ftab[i] + ftab[i - 1];
    }
  }

  /** Drop every position into its bucket; `ftab` ends up with the bucket starts. */
  method FillBuckets(fmap: array<int>, eclass8: array<byte>, ftab: array<int>, nblock: nat, ghost b: seq<int>)
    requires nblock == |b| <= eclass8.Length && nblock <= fmap.Length && ftab.Length == 257
    requires fmap != ftab && fmap != eclass8 as object && ftab != eclass8 as object
    requires forall x :: 0 <= x < nblock ==> eclass8[x] == b[x]
    requires forall c :: 0 <= c < 256 ==> ftab[c] == CountBelow(b, nblock, c + 1)
    modifies fmap, ftab
    ensures forall c :: 0 <= c < 256 ==> ftab[c] == CountBelow(b, nblock, c)
    ensures FirstColumn(b, fmap[..nblock])
  {
    ghost var slots := BucketSlots(b);
    for i := 0 to nblock
      invariant forall c :: 0 <= c < 256 ==> ftab[c] == CountBelow(b, nblock, c + 1) - CountEq(b, i, c)
      invariant forall x :: 0 <= x < i ==> fmap[slots[x]] == x
    {
      hide CountBelow, BucketSlot;
      assert slots[i] == BucketSlot(b, i);
      BucketSlotValue(b, i);
      var j := eclass8[i];
      var k := ftab[j] - 1;
      ftab[j] := k;
      fmap[k] := i;
    }
    forall x | 0 <= x < nblock
      ensures 0 <= BucketSlot(b, x) < nblock && fmap[..nblock][BucketSlot(b, x)] == x
    {
      assert slots[x] == BucketSlot(b, x);
    }
    BucketsInverse(b, fmap[..nblock]);
    forall c | 0 <= c < 256
      ensures ftab[c] == CountBelow(b, nblock, c)
    {
      CountsBound(b, nblock, c);
    }
  }

  lemma BucketSlotValue(b: seq<int>, i: nat)
    requires i < |b|
    ensures BucketSlot(b, i) == CountBelow(b, |b|, b[i] + 1) - CountEq(b, i, b[i]) - 1
  {
  }

  /** One of the first `i` buckets starts at `y`. */
  ghost predicate StartAmong(b: seq<int>, y: int, i: int) {
    exists c :: 0 <= c < i && CountBelow(b, |b|, c) == y
  }

  /** Clear the header bits, then set one at every bucket start and the sentinels past the end:
      set, clear, set, clear, ... for 64 places. Header bit `y` is bit y mod 32 of word y / 32. */
  method MarkBuckets(bhtab: array<bool>, ftab: array<int>, nblock: nat, ghost b: seq<int>)
    requires nblock == |b| && nblock + 64 <= bhtab.Length && ftab.Length == 257
    requires forall x :: 0 <= x < nblock ==> 0 <= b[x] < 256
    requires forall c :: 0 <= c < 256 ==> ftab[c] == CountBelow(b, nblock, c)
    modifies bhtab
    ensures forall y :: 0 <= y < nblock ==> (bhtab[y] <==> BucketStart(b, y))
    ensures bhtab[nblock] && !bhtab[nblock + 1]
  {
    hide CountBelow;
    for i := 0 to (2 + nblock / 32) * 32
      invariant forall y :: 0 <= y < i ==> !bhtab[y]
    {
      bhtab[i] := false;
    }
    forall c | 0 <= c < 256
      ensures 0 <= CountBelow(b, nblock, c) <= nblock
    {
      CountsBound(b, nblock, c);
    }
    for i := 0 to 256
      invariant forall y :: 0 <= y < nblock ==> (bhtab[y] <==> StartAmong(b, y, i))
    {
      forall y
        ensures StartAmong(b, y, i + 1) <==> StartAmong(b, y, i) || y == ftab[i]
      {
        if y == ftab[i] {
          assert CountBelow(b, |b|, i) == y;
        }
      }
      bhtab[ftab[i]] := true;
    }
    for i := 0 to 32
      invariant forall y :: 0 <= y < nblock ==> (bhtab[y] <==> BucketStart(b, y))
      invariant i > 0 ==> bhtab[nblock] && !bhtab[nblock + 1]
    {
      bhtab[nblock + 2 * i] := true;
      bhtab[nblock + 2 * i + 1] := false;
    }
  }

  // ----- The classes of the current depth -----

  /** One rotation passes its bucket `j` back H places. */
  method ClassTurn(fmap: array<int>, eclass: array<int>, bhtab: array<bool>, i: nat, j0: nat, H: nat, nblock: nat)
    returns (j: nat)
    requires fmap != eclass && i < nblock <= fmap.Length && nblock <= eclass.Length && nblock <= bhtab.Length
    requires Classed(eclass[..], fmap[..nblock], bhtab[..], i, H)
    requires i > 0 ==> j0 == BucketOf(bhtab[..], i - 1)
    modifies eclass
    ensures Classed(eclass[..], fmap[..nblock], bhtab[..], i + 1, H)
    ensures j == BucketOf(bhtab[..], i)
  {
    ghost var f, bh := fmap[..nblock], bhtab[..];
    assert f[i] == fmap[i] && bh[i] == bhtab[i];
    ClassOfNext(f, bh, nblock, i, H);
    ClassedStep(eclass[..], f, bh, i, H);
    hide Classed, BucketOf, Back, IsPerm;
    j := if bhtab[i] then i else j0;
    var k := fmap[i] - H;
    if k < 0 {
      k := k + nblock;
    }
    eclass[k] := j;
  }

  /** `eclass[k]` becomes the bucket of the rotation H places after k. */
  method ComputeClasses(fmap: array<int>, eclass: array<int>, bhtab: array<bool>, H: nat, nblock: nat,
                        ghost b: seq<int>)
    requires 0 < H <= nblock == |b| <= fmap.Length && nblock <= eclass.Length && nblock + 64 <= bhtab.Length
    requires fmap != eclass && fmap != bhtab as object && eclass != bhtab as object
    requires Orders(b, fmap[..nblock], H) && Heads(b, fmap[..nblock], bhtab[..], H)
    modifies eclass
    ensures IsClass(b, eclass[..], H)
  {
    assert Head(b, fmap[..nblock], 0, H);
    NothingClassed(eclass[..], fmap[..nblock], bhtab[..], H);
    hide Orders, Heads, Head, Classed, BucketOf, IsClass;
    var j := 0;
    for i := 0 to nblock
      invariant i > 0 ==> bhtab[..][0] && j == BucketOf(bhtab[..], i - 1)
      invariant Classed(eclass[..], fmap[..nblock], bhtab[..], i, H)
    {
      j := ClassTurn(fmap, eclass, bhtab, i, j, H, nblock);
    }
    AllClassed(eclass[..], b, fmap[..nblock], bhtab[..], H);
  }

  /** The first `i` rotations of the listing have passed their buckets back `h` places. */
  ghost predicate Classed(e: seq<int>, f: seq<int>, bh: seq<bool>, i: nat, h: nat) {
    && i <= |f| <= |bh| && |f| <= |e| && h <= |f| && (|f| > 0 ==> bh[0]) && IsPerm(f, |f|)
    && forall x :: 0 <= x < i ==> e[Back(|f|, f[x], h)] == BucketOf(bh, x)
  }

  lemma NothingClassed(e: seq<int>, f: seq<int>, bh: seq<bool>, h: nat)
    requires |f| <= |bh| && |f| <= |e| && h <= |f| && (|f| > 0 ==> bh[0]) && IsPerm(f, |f|)
    ensures Classed(e, f, bh, 0, h)
  {
  }

  /** The bucket of position `i` and the place its class goes to, as the loop computes them. */
  lemma ClassOfNext(f: seq<int>, bh: seq<bool>, n: nat, i: nat, h: nat)
    requires IsPerm(f, n) && i < n <= |bh| && bh[0] && h <= n
    ensures 0 <= f[i] < n
    ensures Back(n, f[i], h) == if f[i] - h < 0 then f[i] - h + n else f[i] - h
    ensures BucketOf(bh, i) == if bh[i] then i else BucketOf(bh, i - 1)
  {
  }

  lemma ClassedStep(e: seq<int>, f: seq<int>, bh: seq<bool>, i: nat, h: nat)
    requires Classed(e, f, bh, i, h) && i < |f|
    ensures 0 <= f[i] < |f| && Classed(e[Back(|f|, f[i], h) := BucketOf(bh, i)], f, bh, i + 1, h)
  {
    forall x | 0 <= x < i
      ensures Back(|f|, f[x], h) != Back(|f|, f[i], h)
    {
      assert f[x] != f[i];
    }
  }

  lemma AllClassed(e: seq<int>, b: seq<int>, f: seq<int>, bh: seq<bool>, h: nat)
    requires Classed(e, f, bh, |f|, h) && Orders(b, f, h) && Heads(b, f, bh, h)
    ensures h <= |b| && IsClass(b, e, h)
  {
    StartsAreClasses(b, f, bh, e, h);
  }

  // ----- Finding buckets -----

  /** WORD_BH(k) has all its 32 bits equal to `bit`. */
  predicate WordIs(bhtab: array<bool>, k: nat, bit: bool)
    requires k + 32 <= bhtab.Length
    reads bhtab
  {
    forall j :: k <= j < k + 32 ==> bhtab[j] == bit
  }

  /** Step past equal bits: singly up to a word boundary, then by words, then singly again. The
      sentinels end every scan. */
  method SkipBits(bhtab: array<bool>, k0: nat, bit: bool, stop: nat) returns (k: nat)
    requires k0 <= stop && stop + 33 <= bhtab.Length && bhtab[stop] != bit
    ensures k0 <= k <= stop && bhtab[k] != bit
    ensures forall y :: k0 <= y < k ==> bhtab[y] == bit
  {
    k := k0;
    while bhtab[k] == bit && k % 32 != 0
      invariant k0 <= k <= stop
      invariant forall y :: k0 <= y < k ==> bhtab[y] == bit
      decreases stop - k
    {
      k := k + 1;
    }
    if bhtab[k] == bit {
      while WordIs(bhtab, k, bit)
        invariant k0 <= k <= stop
        invariant forall y :: k0 <= y < k ==> bhtab[y] == bit
        decreases stop - k
      {
        assert stop >= k + 32;
        k := k + 32;
      }
      while bhtab[k] == bit
        invariant k0 <= k <= stop
        invariant forall y :: k0 <= y < k ==> bhtab[y] == bit
        decreases stop - k
      {
        k := k + 1;
      }
    }
  }

  /** The next bucket of two or more rotations after position `r`, if any. */
  method NextBucket(bhtab: array<bool>, r: int, nblock: nat) returns (found: bool, l: int, r': int)
    requires -1 <= r < nblock && nblock + 64 <= bhtab.Length
    requires bhtab[nblock] && !bhtab[nblock + 1] && (r + 1 < nblock ==> bhtab[r + 1])
    ensures found ==> r < l < r' < nblock
    ensures found ==> (forall y :: r < y <= l ==> bhtab[y]) && (forall y :: l < y <= r' ==> !bhtab[y]) && bhtab[r' + 1]
    ensures !found ==> forall y :: r < y < nblock ==> bhtab[y]
  {
    var k := SkipBits(bhtab, r + 1, true, nblock + 1);
    l := k - 1;
    if l >= nblock { return false, l, r; }
    k := SkipBits(bhtab, k, false, nblock);
    r' := k - 1;
    if r' >= nblock { return false, l, r'; }
    found := true;
  }

  // ----- One pass -----

  /** Scan a sorted bucket and set a header bit wherever the class changes. */
  method MarkBucket(fmap: array<int>, eclass: array<int>, bhtab: array<bool>, l: nat, r: nat)
    requires fmap != eclass && fmap != bhtab as object && eclass != bhtab as object
    requires l <= r < fmap.Length && r < bhtab.Length && Indexes(fmap[..], eclass[..], 0, l, r)
    requires bhtab[l] && (forall y :: l < y <= r ==> !bhtab[y]) && forall y :: l <= y <= r ==> 0 <= eclass[fmap[y]]
    modifies bhtab
    ensures Marked(fmap[..], eclass[..], old(bhtab[..]), bhtab[..], l, r)
  {
    ghost var g, e, bh := fmap[..], eclass[..], bhtab[..];
    ghost var cur := bh;
    hide MarkedUpTo;
    MarkNothing(g, e, bh, l, r);
    var cc := -1;
    for i := l to r + 1
      invariant g == fmap[..] && e == eclass[..] && cur == bhtab[..]
      invariant cc == if i == l then -1 else e[g[i - 1]]
      invariant MarkedUpTo(g, e, bh, cur, l, r, i)
    {
      var cc1 := eclass[fmap[i]];
      assert cc1 == e[g[i]] && bh[l];
      MarkStep(g, e, bh, cur, l, r, i);
      if cc != cc1 {
        bhtab[i] := true;
        cur := cur[i := true];
        cc := cc1;
      }
    }
    MarkAll(g, e, bh, cur, l, r);
  }

  ghost predicate MarkedUpTo(g: seq<int>, e: seq<int>, bh: seq<bool>, cur: seq<bool>, l: nat, r: nat, i: nat)
    requires l <= r < |g| && Indexes(g, e, 0, l, r) && i <= r + 1
  {
    && |bh| == |cur| && r < |bh|
    && (forall y :: 0 <= y < |bh| && (y < l || i <= y) ==> cur[y] == bh[y])
    && (forall y :: l <= y < i ==> (cur[y] <==> y == l || e[g[y]] != e[g[y - 1]]))
  }

  lemma MarkNothing(g: seq<int>, e: seq<int>, bh: seq<bool>, l: nat, r: nat)
    requires l <= r < |g| && r < |bh| && Indexes(g, e, 0, l, r)
    ensures MarkedUpTo(g, e, bh, bh, l, r, l)
  {
  }

  lemma MarkStep(g: seq<int>, e: seq<int>, bh: seq<bool>, cur: seq<bool>, l: nat, r: nat, i: nat)
    requires l <= i <= r < |g| && Indexes(g, e, 0, l, r) && MarkedUpTo(g, e, bh, cur, l, r, i)
    requires bh[l] && (forall y :: l < y <= r ==> !bh[y]) && 0 <= e[g[i]]
    ensures (if i == l then -1 else e[g[i - 1]]) != e[g[i]] ==> MarkedUpTo(g, e, bh, cur[i := true], l, r, i + 1)
    ensures (if i == l then -1 else e[g[i - 1]]) == e[g[i]] ==> MarkedUpTo(g, e, bh, cur, l, r, i + 1)
  {
  }

  lemma MarkAll(g: seq<int>, e: seq<int>, bh: seq<bool>, cur: seq<bool>, l: nat, r: nat)
    requires l <= r < |g| && Indexes(g, e, 0, l, r) && MarkedUpTo(g, e, bh, cur, l, r, r + 1)
    ensures Marked(g, e, bh, cur, l, r)
  {
  }

  lemma PrefixRearranged(f: seq<int>, g: seq<int>, l: int, r: int, n: int)
    requires Rearranged(f, g, l, r) && 0 <= l <= r < n <= |f|
    ensures Rearranged(f[..n], g[..n], l, r)
  {
    assert f == f[..n] + f[n..] && g == g[..n] + g[n..];
    assert f[n..] == g[n..];
    assert multiset(f[..n]) == multiset(f) - multiset(f[n..]);
    assert multiset(g[..n]) == multiset(g) - multiset(g[n..]);
  }

  lemma PrefixSorted(g: seq<int>, e: seq<int>, l: nat, r: nat, n: nat)
    requires l <= r < n <= |g| && Indexes(g, e, 0, l, r) && SortedRange(g, e, 0, l, r)
    ensures Indexes(g[..n], e, 0, l, r) && SortedRange(g[..n], e, 0, l, r)
  {
    forall x, y | l <= x <= y <= r
      ensures KeyAt(g[..n], e, 0, x) <= KeyAt(g[..n], e, 0, y)
    {
      assert KeyAt(g, e, 0, x) <= KeyAt(g, e, 0, y);
      assert g[..n][x] == g[x] && g[..n][y] == g[y];
    }
  }

  lemma PrefixMarked(g: seq<int>, e: seq<int>, bh: seq<bool>, bh2: seq<bool>, l: nat, r: nat, n: nat)
    requires l <= r < n <= |g| && Indexes(g, e, 0, l, r) && Indexes(g[..n], e, 0, l, r)
    requires Marked(g, e, bh, bh2, l, r)
    ensures Marked(g[..n], e, bh, bh2, l, r)
  {
    forall y | l <= y <= r
      ensures bh2[y] <==> y == l || e[g[..n][y]] != e[g[..n][y - 1]]
    {
      assert bh2[y] <==> y == l || e[g[y]] != e[g[y - 1]];
    }
  }

  lemma PermIndexes(f: seq<int>, e: seq<int>, n: nat, l: nat, r: nat)
    requires n <= |f| && IsPerm(f[..n], n) && n <= |e| && l <= r < n
    ensures Indexes(f, e, 0, l, r)
  {
    forall x | l <= x <= r
      ensures 0 <= f[x] < n
    {
      assert f[..n][x] == f[x];
    }
  }

  /** Sort one bucket by class and mark it. */
  method RefineBucket(fmap: array<int>, eclass: array<int>, bhtab: array<bool>, l: nat, r: nat, H: nat, nblock: nat,
                      ghost b: seq<int>)
    requires fmap != eclass && fmap != bhtab as object && eclass != bhtab as object
    requires nblock == |b| <= fmap.Length && nblock <= 900000
    requires Bucket(b, fmap[..nblock], bhtab[..], l, r, H) && IsClass(b, eclass[..], H)
    modifies fmap, bhtab
    ensures Pass(b, fmap[..nblock], bhtab[..], r + 1, H)
    ensures forall y :: nblock <= y < bhtab.Length ==> bhtab[y] == old(bhtab[y])
  {
    ghost var f, e, bh := fmap[..], eclass[..], bhtab[..];
    BucketFacts(b, f[..nblock], bh, e, l, r, H);
    PermIndexes(f, e, nblock, l, r);
    hide Bucket, Pass, IsClass, Rearranged, SortedRange, Indexes, IsPerm;
    QSort3(fmap, eclass, l, r);
    IndexesRearranged(f, fmap[..], e, 0, l, r);
    ClassesNatural(f, fmap[..], b, e, l, r, nblock, H);
    MarkBucket(fmap, eclass, bhtab, l, r);
    ghost var g := fmap[..];
    PrefixRearranged(f, g, l, r, nblock);
    PrefixSorted(g, e, l, r, nblock);
    PrefixMarked(g, e, bh, bhtab[..], l, r, nblock);
    PassSort(b, f[..nblock], g[..nblock], bh, bhtab[..], e, l, r, H);
    MarkedOutside(g, e, bh, bhtab[..], l, r);
  }

  lemma ClassesNatural(f: seq<int>, g: seq<int>, b: seq<int>, e: seq<int>, l: nat, r: nat, n: nat, h: nat)
    requires h <= |b| == n <= |f| && IsPerm(f[..n], n) && l <= r < n && Rearranged(f, g, l, r) && IsClass(b, e, h)
    ensures forall y :: l <= y <= r ==> 0 <= g[y] < |e| && 0 <= e[g[y]]
  {
    forall y | l <= y <= r
      ensures 0 <= g[y] < |e| && 0 <= e[g[y]]
    {
      var z := ComesFrom(f, g, l, r, y);
      assert f[..n][z] == f[z];
    }
  }

  lemma MarkedOutside(g: seq<int>, e: seq<int>, bh: seq<bool>, bh2: seq<bool>, l: nat, r: nat)
    requires l <= r < |g| && Indexes(g, e, 0, l, r) && Marked(g, e, bh, bh2, l, r)
    ensures |bh| == |bh2| && forall y :: r < y < |bh| ==> bh2[y] == bh[y]
  {
  }

  lemma BucketFacts(b: seq<int>, f: seq<int>, bh: seq<bool>, e: seq<int>, l: nat, r: nat, h: nat)
    requires Bucket(b, f, bh, l, r, h) && IsClass(b, e, h)
    ensures IsPerm(f, |b|) && l <= r < |b| <= |e| && |b| <= |bh| && h <= |b|
    ensures bh[l] && forall y :: l < y <= r ==> !bh[y]
  {
  }

  /** Find the next bucket of two or more rotations and refine it. */
  method PassTurn(fmap: array<int>, eclass: array<int>, bhtab: array<bool>, r: int, H: nat, nblock: nat,
                  ghost b: seq<int>)
    returns (found: bool, l: int, r': int)
    requires fmap != eclass && fmap != bhtab as object && eclass != bhtab as object
    requires nblock == |b| <= fmap.Length && 0 < nblock <= 900000 && nblock + 64 <= bhtab.Length
    requires -1 <= r < nblock && Pass(b, fmap[..nblock], bhtab[..], r + 1, H) && IsClass(b, eclass[..], H)
    requires bhtab[nblock] && !bhtab[nblock + 1]
    modifies fmap, bhtab
    ensures bhtab[nblock] && !bhtab[nblock + 1]
    ensures found ==> r < l < r' < nblock && Pass(b, fmap[..nblock], bhtab[..], r' + 1, H)
    ensures !found ==> Pass(b, fmap[..nblock], bhtab[..], nblock, H) && forall y :: r < y < nblock ==> bhtab[y]
  {
    hide IsClass, Pass, Bucket;
    ghost var f, bh := fmap[..nblock], bhtab[..];
    PassHead(b, f, bh, r + 1, H);
    assert forall y :: 0 <= y < |bh| ==> bh[y] == bhtab[y];
    found, l, r' := NextBucket(bhtab, r, nblock);
    if found {
      NextIsBucket(b, f, bh, r, l, r', H);
      RefineBucket(fmap, eclass, bhtab, l, r', H, nblock, b);
    } else {
      PassSkip(b, f, bh, r + 1, nblock, H);
    }
  }

  /** One pass over all buckets of two or more rotations: depth H becomes depth 2H. */
  method RefinePass(fmap: array<int>, eclass: array<int>, bhtab: array<bool>, H: nat, nblock: nat, ghost b: seq<int>)
    returns (nNotDone: nat)
    requires fmap != eclass && fmap != bhtab as object && eclass != bhtab as object
    requires nblock == |b| <= fmap.Length && 0 < nblock <= 900000 && nblock + 64 <= bhtab.Length
    requires Pass(b, fmap[..nblock], bhtab[..], 0, H) && IsClass(b, eclass[..], H)
    requires bhtab[nblock] && !bhtab[nblock + 1]
    modifies fmap, bhtab
    ensures Pass(b, fmap[..nblock], bhtab[..], nblock, H)
    ensures bhtab[nblock] && !bhtab[nblock + 1]
    ensures nNotDone == 0 ==> forall y :: 0 <= y < nblock ==> bhtab[y]
  {
    nNotDone := 0;
    var r := -1;
    hide IsClass, Pass;
    while true
      invariant -1 <= r < nblock && (nNotDone == 0 ==> r == -1)
      invariant Pass(b, fmap[..nblock], bhtab[..], r + 1, H) && IsClass(b, eclass[..], H)
      invariant bhtab[nblock] && !bhtab[nblock + 1]
      decreases nblock - r
    {
      var found, l, r' := PassTurn(fmap, eclass, bhtab, r, H, nblock, b);
      if !found { break; }
      r := r';
      nNotDone := nNotDone + (r - l + 1);
    }
  }

  lemma NextIsBucket(b: seq<int>, f: seq<int>, bh: seq<bool>, r: int, l: int, r': int, h: nat)
    requires -1 <= r && Pass(b, f, bh, r + 1, h) && r < l < r' < |b|
    requires (forall y :: r < y <= l ==> bh[y]) && (forall y :: l < y <= r' ==> !bh[y]) && (r' + 1 < |b| ==> bh[r' + 1])
    ensures Bucket(b, f, bh, l, r', h)
  {
    PassSkip(b, f, bh, r + 1, l, h);
  }

  lemma PassHead(b: seq<int>, f: seq<int>, bh: seq<bool>, k: nat, h: nat)
    requires Pass(b, f, bh, k, h)
    ensures k < |b| ==> k < |bh| && bh[k]
  {
  }

  // ----- The whole sort -----

  /** From the raw block: the listing of depth one and its header bits. */
  method InitialBuckets(fmap: array<int>, eclass8: array<byte>, bhtab: array<bool>, ftab: array<int>,
                        ftabCopy: array<int>, nblock: nat, ghost b: seq<int>)
    requires nblock == |b| <= eclass8.Length && nblock <= fmap.Length && nblock + 64 <= bhtab.Length
    requires ftab.Length == 257 && ftabCopy.Length == 256
    requires ftab != ftabCopy && ftab != fmap && ftabCopy != fmap
    requires eclass8[..nblock] == b
    modifies fmap, bhtab, ftab, ftabCopy
    ensures FirstColumn(b, fmap[..nblock]) && Orders(b, fmap[..nblock], 1) && Heads(b, fmap[..nblock], bhtab[..], 1)
    ensures bhtab[nblock] && !bhtab[nblock + 1]
    ensures forall c :: 0 <= c < 256 ==> ftabCopy[c] == CountEq(b, nblock, c)
  {
    assert forall x :: 0 <= x < nblock ==> eclass8[x] == eclass8[..nblock][x];
    hide FirstColumn, CountBelow, CountEq, BucketStart;
    CountBytes(eclass8, ftab, ftabCopy, nblock, b);
    FillBuckets(fmap, eclass8, ftab, nblock, b);
    MarkBuckets(bhtab, ftab, nblock, b);
    FirstColumnOrders(b, fmap[..nblock]);
    assert forall y :: 0 <= y < nblock ==> bhtab[..][y] == bhtab[y];
    FirstHeads(b, fmap[..nblock], bhtab[..]);
  }

  /** `eclass8` and `eclass` are one piece of memory: writing class numbers leaves nothing that can
      be relied on in the bytes of the block. */
  method Overwrite(eclass8: array<byte>)
    modifies eclass8
  {
  }

  /** The log(N) loop. */
  method Double(fmap: array<int>, eclass: array<int>, bhtab: array<bool>, nblock: nat, ghost b: seq<int>)
    requires fmap != eclass && fmap != bhtab as object && eclass != bhtab as object
    requires 0 < nblock == |b| <= fmap.Length && nblock <= 900000 && nblock <= eclass.Length &&
        nblock + 64 <= bhtab.Length
    requires FirstColumn(b, fmap[..nblock]) && Orders(b, fmap[..nblock], 1) && Heads(b, fmap[..nblock], bhtab[..], 1)
    requires bhtab[nblock] && !bhtab[nblock + 1]
    modifies fmap, eclass, bhtab
    ensures FirstColumn(b, fmap[..nblock]) && SortedRotations(b, fmap[..nblock])
  {
    var H := 1;
    hide Pass, IsClass, FirstColumn, SortedRotations;
    while true
      invariant 0 < H <= nblock
      invariant FirstColumn(b, fmap[..nblock]) && Orders(b, fmap[..nblock], H) && Heads(b, fmap[..nblock], bhtab[..], H)
      invariant bhtab[nblock] && !bhtab[nblock + 1]
      decreases nblock - H
    {
      ComputeClasses(fmap, eclass, bhtab, H, nblock, b);
      PassStarts(b, fmap[..nblock], bhtab[..], H);
      var nNotDone := RefinePass(fmap, eclass, bhtab, H, nblock, b);
      PassDone(b, fmap[..nblock], bhtab[..], H);
      H := H * 2;
      if H > nblock || nNotDone == 0 {
        assert forall y :: 0 <= y < nblock ==> bhtab[..][y] == bhtab[y];
        SortedAtLast(b, fmap[..nblock], bhtab[..], H);
        break;
      }
    }
  }

  /** The bytes come back from the listing: position i of the sorted listing starts with the byte
      whose bucket i lies in. */
  method Rebuild(fmap: array<int>, eclass8: array<byte>, ftabCopy: array<int>, nblock: nat, ghost b: seq<int>)
    requires nblock == |b| <= fmap.Length && nblock <= eclass8.Length && ftabCopy.Length == 256
    requires fmap != ftabCopy && fmap != eclass8 as object && ftabCopy != eclass8 as object
    requires FirstColumn(b, fmap[..nblock])
    requires forall x :: 0 <= x < nblock ==> 0 <= b[x] < 256
    requires forall c :: 0 <= c < 256 ==> ftabCopy[c] == CountEq(b, nblock, c)
    modifies eclass8, ftabCopy
    ensures eclass8[..nblock] == b
  {
    ghost var f := fmap[..nblock];
    var j := 0;
    NoneBelowZero(b, nblock);
    CountsBound(b, nblock, 0);
    for i := 0 to nblock
      invariant f == fmap[..nblock]
      invariant 0 <= j < 256 && CountBelow(b, nblock, j) <= i <= CountBelow(b, nblock, j + 1)
      invariant ftabCopy[j] == CountBelow(b, nblock, j + 1) - i
      invariant forall c :: j < c < 256 ==> ftabCopy[c] == CountEq(b, nblock, c)
      invariant forall x :: 0 <= x < i ==> eclass8[f[x]] == b[f[x]]
    {
      while ftabCopy[j] == 0
        invariant 0 <= j < 256 && CountBelow(b, nblock, j) <= i <= CountBelow(b, nblock, j + 1)
        invariant ftabCopy[j] == CountBelow(b, nblock, j + 1) - i
        invariant forall c :: j < c < 256 ==> ftabCopy[c] == CountEq(b, nblock, c)
        invariant forall x :: 0 <= x < i ==> eclass8[f[x]] == b[f[x]]
        decreases 256 - j
      {
        BelowLimit(b, j, i);
        CountsBound(b, nblock, j + 1);
        j := j + 1;
      }
      assert f[i] == fmap[i];
      FirstByteUnique(b, i, j, b[f[i]]);
      ftabCopy[j] := ftabCopy[j] - 1;
      eclass8[fmap[i]] := j;
    }
    forall x | 0 <= x < nblock
      ensures eclass8[x] == b[x]
    {
      var y := IndexOf(f, nblock, x);
    }
  }

  /** While positions are left, some byte above `j` has a bucket. */
  lemma BelowLimit(b: seq<int>, j: nat, i: nat)
    requires j < 256 && i < |b| && CountBelow(b, |b|, j + 1) == i
    requires forall x :: 0 <= x < |b| ==> 0 <= b[x] < 256
    ensures j < 255
  {
    NoneBelowZero(b, |b|);
  }

  /** fallbackSort: `fmap` becomes a permutation that lists every rotation in order, and the block
      bytes, destroyed on the way, are back. */
  method Sort(fmap: array<int>, eclass: array<int>, eclass8: array<byte>, bhtab: array<bool>, nblock: nat)
    requires fmap != eclass && 0 < nblock <= 900000
    requires nblock <= fmap.Length && nblock <= eclass.Length && nblock <= eclass8.Length && nblock + 64 <= bhtab.Length
    modifies fmap, eclass, eclass8, bhtab
    ensures SortedRotations(old(eclass8[..nblock]), fmap[..nblock])
    ensures eclass8[..nblock] == old(eclass8[..nblock])
  {
    ghost var b: seq<int> := eclass8[..nblock];
    var ftab, ftabCopy := new int[257], new int[256];
    InitialBuckets(fmap, eclass8, bhtab, ftab, ftabCopy, nblock, b);
    hide FirstColumn, Orders, Heads, SortedRotations;
    Overwrite(eclass8);
    Double(fmap, eclass, bhtab, nblock, b);
    Rebuild(fmap, eclass8, ftabCopy, nblock, b);
  }
}
