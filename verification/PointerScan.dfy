/** Step 2 of mainSort (blocksort.c): scanning a big bucket from both ends puts the rotations one place
    further back into their small buckets, in order, the bucket's own repetitions included. */
module PointerScan {
  import opened Rotations
  import opened Permutations
  import opened ShellSort
  import opened MainOrder
  import opened SmallBuckets

  /** What the scan of big bucket `ss` starts from: the block, the bucket starts, the big buckets
      done, and the listing before the scan. */
  datatype Ctx = Ctx(b: seq<int>, starts: seq<int>, ss: nat, done: seq<bool>, f: seq<int>)

  /** The small bucket [c, ss] and the big bucket [ss]. */
  ghost function St(x: Ctx, c: int): int {
    if |x.starts| == 65537 && 0 <= c < 256 && x.ss < 256 then x.starts[256 * c + x.ss] else 0
  }

  ghost function En(x: Ctx, c: int): int {
    if |x.starts| == 65537 && 0 <= c < 256 && x.ss < 256 then x.starts[256 * c + x.ss + 1] else 0
  }

  ghost function Lo(x: Ctx): int { if |x.starts| == 65537 && x.ss < 256 then x.starts[256 * x.ss] else 0 }

  ghost function Hi(x: Ctx): int { if |x.starts| == 65537 && x.ss < 256 then x.starts[256 * x.ss + 256] else 0 }

  /** The small buckets [ss, j] on both sides of [ss, ss] are sorted. */
  ghost predicate CtxOk(x: Ctx) {
    && Placed(x.b, x.starts, x.f) && x.ss < 256 && |x.done| == 256 && !x.done[x.ss] && |x.b| >= 2
    && Ascending(x.f, RotOrder(x.b), Lo(x), St(x, x.ss) - 1) && Ascending(x.f, RotOrder(x.b), En(x, x.ss), Hi(x) - 1)
  }

  /** The listing, copyStart and copyEnd; which scanned position filled a slot, and the slot a scanned
      position filled; and how far the two scans have come. */
  datatype Scan = Scan(g: seq<int>, cs: seq<int>, ce: seq<int>, src: seq<int>, dst: seq<int>, j1: int, j2: int)

  ghost function CopyStart(s: Scan, c: int): int { if 0 <= c < |s.cs| then s.cs[c] else 0 }

  ghost function CopyEnd(s: Scan, c: int): int { if 0 <= c < |s.ce| then s.ce[c] else 0 }

  /** Position `p` of small bucket [c, ss] has been filled by the scan. */
  ghost predicate Filled(x: Ctx, s: Scan, c: int, p: int) {
    && 0 <= c < 256 && |x.done| == 256 && !x.done[c] && St(x, c) <= p < En(x, c)
    && (p < CopyStart(s, c) || CopyEnd(s, c) < p)
  }

  ghost predicate InRegion(x: Ctx, s: Scan, p: int) {
    Lo(x) <= p < CopyStart(s, x.ss) || CopyEnd(s, x.ss) < p < Hi(x)
  }

  ghost predicate Scanned(x: Ctx, s: Scan, p: int) {
    Lo(x) <= p < s.j1 || s.j2 < p < Hi(x)
  }

  // ----- What the scan keeps -----

  ghost predicate Bounds(x: Ctx, s: Scan) {
    && |s.g| == |s.src| == |s.dst| == |x.f| && |s.cs| == |s.ce| == 256
    && (forall c :: 0 <= c < 256 ==> St(x, c) <= CopyStart(s, c) <= CopyEnd(s, c) + 1 <= En(x, c))
    && Lo(x) <= s.j1 <= CopyStart(s, x.ss) && CopyEnd(s, x.ss) <= s.j2 < Hi(x)
  }

  ghost predicate KeptOk(x: Ctx, s: Scan) {
    |s.g| == |x.f| && forall p :: 0 <= p < |x.b| <= |x.f| && 0 <= x.f[p] < |x.b| && !Filled(x, s, x.b[x.f[p]], p) ==>
        s.g[p] == x.f[p]
  }

  /** A filled slot holds the rotation one place before the scanned one. */
  ghost predicate SlotOk(x: Ctx, s: Scan, c: int, p: int) {
    && 0 <= p < |s.g| && 0 <= s.g[p] < |x.b| && x.b[s.g[p]] == c
    && p < |s.src| && 0 <= s.src[p] < |s.g| && Scanned(x, s, s.src[p]) && s.g[s.src[p]] == Next(|x.b|, s.g[p])
    && (if p < CopyStart(s, c) then s.src[p] < s.j1 else s.src[p] > s.j2)
  }

  ghost predicate SlotsOk(x: Ctx, s: Scan) {
    forall c, p :: Filled(x, s, c, p) ==> SlotOk(x, s, c, p)
  }

  /** Slots are filled in the order of the scan. */
  ghost predicate OrderOk(x: Ctx, s: Scan) {
    forall c, p, q :: Filled(x, s, c, p) && Filled(x, s, c, q) && p < q && 0 <= p < |s.src| && q < |s.src| ==>
        s.src[p] < s.src[q]
  }

  ghost predicate CoverOk(x: Ctx, s: Scan) {
    forall p :: Scanned(x, s, p) ==> Covered(x, s, p)
  }

  ghost predicate Covered(x: Ctx, s: Scan, p: int) {
    && 0 <= p < |s.g| && 0 <= s.g[p] < |x.b| && |x.done| == 256
    && var k := Prev(|x.b|, s.g[p]);
       0 <= x.b[k] < 256 && (x.done[x.b[k]] ||
           (0 <= p < |s.dst| && 0 <= s.dst[p] < |s.g| && Filled(x, s, x.b[k], s.dst[p]) && s.g[s.dst[p]] == k))
  }

  /** Rotations at the front of the region descend, those at its back ascend. */
  ghost predicate RegionOk(x: Ctx, s: Scan) {
    forall p :: InRegion(x, s, p) ==>
      && 0 <= p < |s.g| && 0 <= s.g[p] < |x.b| && x.b[s.g[p]] == x.ss
      && (if p < CopyStart(s, x.ss) then Descends(x.b, s.g[p]) else Ascends(x.b, s.g[p]))
  }

  ghost predicate DistinctOk(x: Ctx, s: Scan) {
    forall p, q :: InRegion(x, s, p) && InRegion(x, s, q) && p < q && 0 <= p && q < |s.g| ==> s.g[p] != s.g[q]
  }

  ghost predicate SortedOk(x: Ctx, s: Scan) {
    && Ascending(s.g, RotOrder(x.b), Lo(x), CopyStart(s, x.ss) - 1)
    && Ascending(s.g, RotOrder(x.b), CopyEnd(s, x.ss) + 1, Hi(x) - 1)
  }

  ghost predicate ScanOk(x: Ctx, s: Scan) {
    && Bounds(x, s) && KeptOk(x, s) && SlotsOk(x, s) && OrderOk(x, s) && CoverOk(x, s)
    && RegionOk(x, s) && DistinctOk(x, s) && SortedOk(x, s)
  }

  // ----- Where the buckets lie -----

  lemma Layout(x: Ctx)
    requires CtxOk(x)
    ensures 0 <= Lo(x) <= St(x, x.ss) <= En(x, x.ss) <= Hi(x) <= |x.b| <= |x.f|
    ensures forall c: nat :: c < 256 ==> 0 <= St(x, c) <= En(x, c) <= |x.b|
    ensures forall c: nat :: c < 256 && c != x.ss ==> En(x, c) <= Lo(x) || Hi(x) <= St(x, c)
    ensures forall c: nat, d: nat :: c < d < 256 ==> En(x, c) <= St(x, d)
  { hide Placed, Ascending; CtxPlaced(x); StartsMonotone(x.starts, |x.b|); }

  lemma CtxPlaced(x: Ctx)
    requires CtxOk(x)
    ensures IsStarts(x.starts, |x.b|) && |x.b| <= |x.f| && x.ss < 256
  { hide Ascending; }

  lemma StartsMonotone(starts: seq<int>, n: nat)
    requires IsStarts(starts, n)
    ensures forall j, k :: 0 <= j <= k <= 65536 ==> 0 <= starts[j] <= starts[k] <= n
  { }

  /** Small bucket [c, ss] before the scan. */
  lemma ColumnKey(x: Ctx, c: nat, p: int)
    requires CtxOk(x) && c < 256 && St(x, c) <= p < En(x, c)
    ensures 0 <= p < |x.b| <= |x.f| && 0 <= x.f[p] < |x.b| && x.b[x.f[p]] == c && x.b[Next(|x.b|, x.f[p])] == x.ss
  {
    hide Ascending, Placed, Key;
    CtxPlaced(x);
    BucketKey(x.b, x.starts, x.f, 256 * c + x.ss, p);
    KeyParts(x.b, x.starts, x.f, x.f[p], c, x.ss);
  }

  lemma KeyParts(b: seq<int>, starts: seq<int>, f: seq<int>, r: nat, c: nat, d: nat)
    requires Placed(b, starts, f) && r < |b| && c < 256 && d < 256 && Key(b, r) == 256 * c + d
    ensures b[r] == c && b[Next(|b|, r)] == d
  {
    hide IsStarts, InBucket;
  }

  /** Big bucket [ss] before the scan. */
  lemma RegionKey(x: Ctx, p: int)
    requires CtxOk(x) && Lo(x) <= p < Hi(x)
    ensures 0 <= p < |x.b| <= |x.f| && 0 <= x.f[p] < |x.b| && x.b[x.f[p]] == x.ss
    ensures p < St(x, x.ss) ==> x.b[Next(|x.b|, x.f[p])] < x.ss
    ensures En(x, x.ss) <= p ==> x.b[Next(|x.b|, x.f[p])] > x.ss
    ensures St(x, x.ss) <= p < En(x, x.ss) ==> x.b[Next(|x.b|, x.f[p])] == x.ss
  {
    Layout(x);
    RegionListed(x.b, x.starts, x.f, x.ss, p);
    BoundKey(x, p);
  }

  lemma RegionListed(b: seq<int>, starts: seq<int>, f: seq<int>, ss: nat, p: int)
    requires Placed(b, starts, f) && ss < 256 && |starts| == 65537 && starts[256 * ss] <= p < starts[256 * ss + 256]
    ensures 0 <= p < |b| <= |f| && 0 <= f[p] < |b| && 256 * ss <= Key(b, f[p]) < 256 * ss + 256 &&
        InBucket(starts, Key(b, f[p]), p)
  {
    assert starts[0] <= starts[256 * ss] && starts[256 * ss + 256] <= starts[65536];
    assert InBucket(starts, Key(b, f[p]), p);
  }

  lemma BoundKey(x: Ctx, p: int)
    requires CtxOk(x) && 0 <= p < |x.b| && 0 <= x.f[p] < |x.b| && 256 * x.ss <= Key(x.b, x.f[p]) < 256 * x.ss + 256
    requires InBucket(x.starts, Key(x.b, x.f[p]), p)
    ensures x.b[x.f[p]] == x.ss
    ensures p < St(x, x.ss) ==> x.b[Next(|x.b|, x.f[p])] < x.ss
    ensures En(x, x.ss) <= p ==> x.b[Next(|x.b|, x.f[p])] > x.ss
    ensures St(x, x.ss) <= p < En(x, x.ss) ==> x.b[Next(|x.b|, x.f[p])] == x.ss
  {
    hide Ascending;
    var d := x.b[Next(|x.b|, x.f[p])];
    assert 0 <= d < 256 && 0 <= x.b[x.f[p]] < 256;
    assert Key(x.b, x.f[p]) == 256 * x.ss + d;
    if d < x.ss { assert x.starts[256 * x.ss + d + 1] <= x.starts[256 * x.ss + x.ss]; }
    if d > x.ss { assert x.starts[256 * x.ss + x.ss + 1] <= x.starts[256 * x.ss + d]; }
  }

  // ----- One step of the scan -----

  /** The position being scanned, and the slot the rotation before it goes to. */
  ghost function At(s: Scan, fwd: bool): int { if fwd then s.j1 else s.j2 }

  ghost function SlotFor(s: Scan, fwd: bool, c: int): int { if fwd then CopyStart(s, c) else CopyEnd(s, c) }

  /** A rotation whose big bucket is done stays where it is. */
  ghost function Skip(s: Scan, fwd: bool): Scan {
    if fwd then s.(j1 := s.j1 + 1) else s.(j2 := s.j2 - 1)
  }

  /** Any other goes to the next free slot of its small bucket. */
  ghost function Put(s: Scan, fwd: bool, c: int, k: int): Scan
    requires 0 <= SlotFor(s, fwd, c) < |s.g| == |s.src| == |s.dst| && 0 <= c < |s.cs| == |s.ce| &&
        0 <= At(s, fwd) < |s.dst|
  {
    var p, y := SlotFor(s, fwd, c), At(s, fwd);
    Scan(s.g[p := k], if fwd then s.cs[c := p + 1] else s.cs, if fwd then s.ce else s.ce[c := p - 1],
         s.src[p := y], s.dst[y := p], if fwd then s.j1 + 1 else s.j1, if fwd then s.j2 else s.j2 - 1)
  }

  /** There is something left to scan at this end. */
  ghost predicate Going(x: Ctx, s: Scan, fwd: bool) {
    if fwd then s.j1 < CopyStart(s, x.ss) else s.j2 > CopyEnd(s, x.ss)
  }

  /** The scanned position is in the region and has not been scanned. */
  lemma AtInRegion(x: Ctx, s: Scan, fwd: bool)
    requires CtxOk(x) && ScanOk(x, s) && Going(x, s, fwd)
    ensures var y := At(s, fwd);
            && InRegion(x, s, y) && !Scanned(x, s, y) && Lo(x) <= y < Hi(x) && 0 <= y < |s.g|
            && 0 <= s.g[y] < |x.b| && x.b[s.g[y]] == x.ss
    ensures |s.g| == |s.src| == |s.dst| && |s.cs| == |s.ce| == 256
    ensures if fwd then Descends(x.b, s.g[At(s, fwd)]) else Ascends(x.b, s.g[At(s, fwd)])
  {
    hide CtxOk, KeptOk, SlotsOk, OrderOk, CoverOk, DistinctOk, SortedOk, Descends, Ascends, St, En, Lo, Hi;
    Layout(x);
    BoundsOf(x, s);
  }

  lemma BoundsOf(x: Ctx, s: Scan)
    requires CtxOk(x) && ScanOk(x, s)
    ensures Bounds(x, s) && St(x, x.ss) <= CopyStart(s, x.ss) <= CopyEnd(s, x.ss) + 1 <= En(x, x.ss)
  {
    hide CtxOk;
    PutLengths(x);
    hide KeptOk, SlotsOk, OrderOk, CoverOk, DistinctOk, SortedOk, RegionOk;
  }

  /** Different places of the region hold different rotations, wherever they are. */
  lemma RegionDiffers(x: Ctx, s: Scan, p: int, q: int)
    requires ScanOk(x, s) && InRegion(x, s, p) && InRegion(x, s, q) && p != q && 0 <= p < |s.g| && 0 <= q < |s.g|
    ensures s.g[p] != s.g[q]
  {
    hide Bounds, KeptOk, SlotsOk, OrderOk, CoverOk, SortedOk, RegionOk, InRegion;
    if p < q { assert s.g[p] != s.g[q]; } else { assert s.g[q] != s.g[p]; }
  }

  lemma ScannedInRegion(x: Ctx, s: Scan, p: int)
    requires Bounds(x, s) && Scanned(x, s, p)
    ensures InRegion(x, s, p)
  { }

  /** Slots of one small bucket differ from each other and from the next to be filled. */
  lemma SlotDiffers(x: Ctx, s: Scan, c: int, p: int, fwd: bool, k: int)
    requires CtxOk(x) && ScanOk(x, s) && Going(x, s, fwd) && Filled(x, s, c, p)
    requires 0 <= At(s, fwd) < |s.g| && 0 <= k < |x.b| && s.g[At(s, fwd)] == Next(|x.b|, k)
    ensures 0 <= p < |s.g| && s.g[p] != k
  {
    hide CtxOk, ScanOk, Bounds, Filled, InRegion, Scanned, Going, Descends, Ascends;
    AtInRegion(x, s, fwd);
    SlotAt(x, s, c, p);
    BoundsOf(x, s);
    ScannedInRegion(x, s, s.src[p]);
    RegionDiffers(x, s, s.src[p], At(s, fwd));
  }

  lemma SlotAt(x: Ctx, s: Scan, c: int, p: int)
    requires ScanOk(x, s) && Filled(x, s, c, p)
    ensures SlotOk(x, s, c, p)
  {
    hide Bounds, KeptOk, OrderOk, CoverOk, DistinctOk, SortedOk, RegionOk, Filled, SlotOk;
  }

  lemma SlotsDiffer(x: Ctx, s: Scan, c: int, p: int, q: int)
    requires CtxOk(x) && ScanOk(x, s) && Filled(x, s, c, p) && Filled(x, s, c, q) && p < q
    ensures 0 <= p < q < |s.g| && s.g[p] != s.g[q]
  {
    hide CtxOk, ScanOk, Bounds, Filled, InRegion, Scanned;
    SlotAt(x, s, c, p);
    SlotAt(x, s, c, q);
    BoundsOf(x, s);
    ScannedInRegion(x, s, s.src[p]);
    ScannedInRegion(x, s, s.src[q]);
    InOrderSlots(x, s, c, p, q);
    RegionDiffers(x, s, s.src[p], s.src[q]);
  }

  lemma InOrderSlots(x: Ctx, s: Scan, c: int, p: int, q: int)
    requires ScanOk(x, s) && Filled(x, s, c, p) && Filled(x, s, c, q) && p < q && 0 <= p && q < |s.src|
    ensures s.src[p] < s.src[q]
  {
    hide Bounds, KeptOk, SlotsOk, CoverOk, DistinctOk, SortedOk, RegionOk, Filled;
  }

  // ----- There is always room -----

  /** A rotation of column `ss` is listed in its small bucket before the scan. */
  lemma InPool(x: Ctx, r: int)
    requires CtxOk(x) && 0 <= r < |x.b| && x.b[Next(|x.b|, r)] == x.ss
    ensures 0 <= x.b[r] < 256 && 0 <= St(x, x.b[r]) <= En(x, x.b[r]) <= |x.f|
    ensures r in x.f[St(x, x.b[r])..En(x, x.b[r])]
  {
    hide Ascending;
    hide Placed;
    Layout(x);
    ByteAt(x, r);
    var p := Listed(x.b, x.starts, x.f, r);
    assert Key(x.b, r) == 256 * x.b[r] + x.ss;
    assert St(x, x.b[r]) <= p < En(x, x.b[r]);
    assert x.f[St(x, x.b[r])..En(x, x.b[r])][p - St(x, x.b[r])] == r;
  }

  lemma ByteAt(x: Ctx, r: int)
    requires CtxOk(x) && 0 <= r < |x.b|
    ensures 0 <= x.b[r] < 256
  { hide Ascending; }

  /** What a filled slot holds. */
  lemma SlotHolds(x: Ctx, s: Scan, c: int, p: int)
    requires CtxOk(x) && ScanOk(x, s) && Filled(x, s, c, p)
    ensures 0 <= p < |s.g| && 0 <= s.g[p] < |x.b| && x.b[s.g[p]] == c && x.b[Next(|x.b|, s.g[p])] == x.ss
  {
    hide CtxOk, ScanOk, Bounds, Filled, InRegion, Scanned;
    SlotAt(x, s, c, p);
    BoundsOf(x, s);
    ScannedInRegion(x, s, s.src[p]);
    RegionHolds(x, s, s.src[p]);
  }

  lemma RegionHolds(x: Ctx, s: Scan, p: int)
    requires ScanOk(x, s) && InRegion(x, s, p)
    ensures 0 <= p < |s.g| && 0 <= s.g[p] < |x.b| && x.b[s.g[p]] == x.ss
    ensures if p < CopyStart(s, x.ss) then Descends(x.b, s.g[p]) else Ascends(x.b, s.g[p])
  {
    hide Bounds, KeptOk, SlotsOk, OrderOk, CoverOk, DistinctOk, SortedOk, InRegion, Descends, Ascends;
  }

  /** The filled slots of a small bucket, in order. */
  ghost function SlotsOf(x: Ctx, s: Scan, c: int): seq<int>
    requires 0 <= St(x, c) <= CopyStart(s, c) <= CopyEnd(s, c) + 1 <= En(x, c) <= |s.g|
  {
    s.g[St(x, c)..CopyStart(s, c)] + s.g[CopyEnd(s, c) + 1..En(x, c)]
  }

  lemma SlotsOfAt(x: Ctx, s: Scan, c: int, i: int) returns (p: int)
    requires Bounds(x, s) && CtxOk(x) && 0 <= c < 256 && !x.done[c]
    requires 0 <= St(x, c) <= CopyStart(s, c) <= CopyEnd(s, c) + 1 <= En(x, c) <= |s.g|
    requires 0 <= i < |SlotsOf(x, s, c)|
    ensures Filled(x, s, c, p) && 0 <= p < |s.g| && SlotsOf(x, s, c)[i] == s.g[p]
    ensures p == if i < CopyStart(s, c) - St(x, c) then St(x, c) + i
        else CopyEnd(s, c) + 1 + (i - (CopyStart(s, c) - St(x, c)))
  {
    hide Bounds, Placed, Ascending;
    CtxPlaced(x);
    p := if i < CopyStart(s, c) - St(x, c) then St(x, c) + i
        else CopyEnd(s, c) + 1 + (i - (CopyStart(s, c) - St(x, c)));
  }

  lemma Spread(x: Ctx, s: Scan, c: int)
    requires CtxOk(x) && Bounds(x, s) && 0 <= c < 256
    ensures 0 <= St(x, c) <= CopyStart(s, c) <= CopyEnd(s, c) + 1 <= En(x, c) <= |x.b| <= |x.f| == |s.g|
  {
    hide CtxOk;
    Layout(x);
  }

  /** The filled slots are different rotations of the small bucket. */
  lemma SlotsDistinct(x: Ctx, s: Scan, c: int)
    requires CtxOk(x) && ScanOk(x, s) && 0 <= c < 256 && !x.done[c]
    requires 0 <= St(x, c) <= CopyStart(s, c) <= CopyEnd(s, c) + 1 <= En(x, c) <= |s.g| == |x.f|
    ensures Distinct(SlotsOf(x, s, c)) && Elems(SlotsOf(x, s, c)) <= Elems(x.f[St(x, c)..En(x, c)])
  {
    hide CtxOk, ScanOk, Bounds, Filled;
    BoundsOfAll(x, s);
    var w := SlotsOf(x, s, c);
    forall i, j | 0 <= i < j < |w|
      ensures w[i] != w[j]
    {
      var p := SlotsOfAt(x, s, c, i);
      var q := SlotsOfAt(x, s, c, j);
      SlotsDiffer(x, s, c, p, q);
    }
    forall v | v in Elems(w)
      ensures v in Elems(x.f[St(x, c)..En(x, c)])
    {
      var i :| 0 <= i < |w| && w[i] == v;
      var p := SlotsOfAt(x, s, c, i);
      SlotHolds(x, s, c, p);
      InPool(x, v);
    }
  }

  lemma BoundsOfAll(x: Ctx, s: Scan)
    requires ScanOk(x, s)
    ensures Bounds(x, s)
  {
    hide KeptOk, SlotsOk, OrderOk, CoverOk, DistinctOk, SortedOk, RegionOk;
  }

  /** The next slot is free. */
  lemma HasRoom(x: Ctx, s: Scan, fwd: bool, k: int)
    requires CtxOk(x) && ScanOk(x, s) && Going(x, s, fwd) && 0 <= k < |x.b|
    requires 0 <= At(s, fwd) < |s.g| && s.g[At(s, fwd)] == Next(|x.b|, k)
    requires 0 <= x.b[k] < 256 && |x.done| == 256 && !x.done[x.b[k]]
    ensures St(x, x.b[k]) <= CopyStart(s, x.b[k]) <= CopyEnd(s, x.b[k]) < En(x, x.b[k])
  {
    hide CtxOk, ScanOk, Bounds, Filled, InRegion, Scanned, Going, Descends, Ascends;
    var c := x.b[k];
    BoundsOfAll(x, s);
    Spread(x, s, c);
    AtInRegion(x, s, fwd);
    SlotsDistinct(x, s, c);
    InPool(x, k);
    var w, pool := SlotsOf(x, s, c), x.f[St(x, c)..En(x, c)];
    forall i | 0 <= i < |w|
      ensures w[i] != k
    {
      var p := SlotsOfAt(x, s, c, i);
      SlotDiffers(x, s, c, p, fwd, k);
    }
    OneMoreFits(w, k, pool);
  }

  lemma OneMoreFits(w: seq<int>, k: int, pool: seq<int>)
    requires Distinct(w) && Elems(w) <= Elems(pool) && k in pool && forall i :: 0 <= i < |w| ==> w[i] != k
    ensures |w| < |pool|
  {
    var more := w + [k];
    assert Distinct(more);
    forall v | v in Elems(more)
      ensures v in Elems(pool)
    {
      if v != k { assert v in w; assert v in Elems(w); }
    }
    Pigeonhole(more, Elems(pool));
    SeqSetSize(pool);
  }

  // ----- A rotation put back -----

  /** What one Put needs: the rotation before the scanned one, and a free slot. */
  ghost predicate CanPut(x: Ctx, s: Scan, fwd: bool, c: int, k: int) {
    && CtxOk(x) && ScanOk(x, s) && Going(x, s, fwd) && 0 <= k < |x.b| && x.b[k] == c && 0 <= c < 256 && !x.done[c]
    && 0 <= At(s, fwd) < |s.g| == |s.src| == |s.dst| && |s.cs| == |s.ce| == 256 && s.g[At(s, fwd)] == Next(|x.b|, k)
    && 0 <= St(x, c) <= CopyStart(s, c) <= CopyEnd(s, c) < En(x, c) <= |s.g| && 0 <= SlotFor(s, fwd, c) < |s.g|
    && InRegion(x, s, At(s, fwd)) && !Scanned(x, s, At(s, fwd)) && Lo(x) <= At(s, fwd) < Hi(x)
  }

  lemma PutReady(x: Ctx, s: Scan, fwd: bool, c: int, k: int)
    requires CtxOk(x) && ScanOk(x, s) && Going(x, s, fwd) && 0 <= k < |x.b| && x.b[k] == c
    requires 0 <= At(s, fwd) < |s.g| && s.g[At(s, fwd)] == Next(|x.b|, k)
    requires 0 <= c < 256 && |x.done| == 256 && !x.done[c]
    ensures CanPut(x, s, fwd, c, k)
  {
    hide CtxOk, ScanOk, Bounds, Filled, InRegion, Scanned, Going, Descends, Ascends;
    AtInRegion(x, s, fwd);
    HasRoom(x, s, fwd, k);
    BoundsOfAll(x, s);
    Spread(x, s, c);
  }

  lemma PutLengths(x: Ctx)
    requires CtxOk(x)
    ensures |x.done| == 256 && x.ss < 256 && !x.done[x.ss]
  { hide Placed, Ascending; }

  /** What a Put changes. */
  lemma PutFields(x: Ctx, s: Scan, fwd: bool, c: int, k: int)
    requires CanPut(x, s, fwd, c, k)
    ensures 0 <= c < 256 && 0 <= SlotFor(s, fwd, c) < |s.g| == |s.src| == |s.dst| && |s.cs| == |s.ce| == 256 &&
        0 <= At(s, fwd) < |s.g|
    ensures var s', p0, y := Put(s, fwd, c, k), SlotFor(s, fwd, c), At(s, fwd);
      && s'.g == s.g[p0 := k] && s'.src == s.src[p0 := y] && s'.dst == s.dst[y := p0] && |s'.cs| == |s'.ce| == 256
      && s'.j1 == (if fwd then s.j1 + 1 else s.j1) && s'.j2 == (if fwd then s.j2 else s.j2 - 1)
      && (forall d :: CopyStart(s', d) == if fwd && d == c then p0 + 1 else CopyStart(s, d))
      && (forall d :: CopyEnd(s', d) == if !fwd && d == c then p0 - 1 else CopyEnd(s, d))
  {
    hide CtxOk, ScanOk, Going, InRegion, Scanned, St, En, Lo, Hi;
  }

  lemma PutFacts(x: Ctx, s: Scan, fwd: bool, c: int, k: int)
    requires CanPut(x, s, fwd, c, k)
    ensures CtxOk(x) && ScanOk(x, s) && Going(x, s, fwd) && 0 <= k < |x.b| && x.b[k] == c && 0 <= c < 256 &&
        |x.done| == 256 && !x.done[c]
    ensures St(x, c) <= CopyStart(s, c) <= CopyEnd(s, c) < En(x, c) <= |s.g|
    ensures InRegion(x, s, At(s, fwd)) && !Scanned(x, s, At(s, fwd)) && Lo(x) <= At(s, fwd) < Hi(x)
    ensures 0 <= At(s, fwd) < |s.g| && s.g[At(s, fwd)] == Next(|x.b|, k)
  {
    hide CtxOk, ScanOk, Going, InRegion, Scanned, St, En, Lo, Hi;
    PutLengths(x);
  }

  lemma PutFilledAt(x: Ctx, s: Scan, fwd: bool, c: int, k: int, d: int, p: int)
    requires CanPut(x, s, fwd, c, k)
    ensures var p0 := SlotFor(s, fwd, c);
      (Filled(x, Put(s, fwd, c, k), d, p) <==> Filled(x, s, d, p) || (d == c && p == p0)) && !Filled(x, s, c, p0) &&
          St(x, c) <= p0 < En(x, c)
  {
    hide CanPut, CtxOk, ScanOk, Going, InRegion, Scanned, St, En, Lo, Hi, Put, CopyStart, CopyEnd;
    PutFields(x, s, fwd, c, k);
    PutFacts(x, s, fwd, c, k);
  }

  lemma PutScannedAt(x: Ctx, s: Scan, fwd: bool, c: int, k: int, p: int)
    requires CanPut(x, s, fwd, c, k)
    ensures Scanned(x, Put(s, fwd, c, k), p) <==> Scanned(x, s, p) || p == At(s, fwd)
  {
    hide CanPut, CtxOk, ScanOk, Going, InRegion, St, En, Lo, Hi, Put, CopyStart, CopyEnd;
    PutFields(x, s, fwd, c, k);
    PutFacts(x, s, fwd, c, k);
  }

  lemma PutRegionAt(x: Ctx, s: Scan, fwd: bool, c: int, k: int, p: int)
    requires CanPut(x, s, fwd, c, k)
    ensures InRegion(x, Put(s, fwd, c, k), p) <==> InRegion(x, s, p) || (c == x.ss && p == SlotFor(s, fwd, c))
  {
    hide CanPut, CtxOk, ScanOk, Going, Scanned, St, En, Lo, Hi, Put, CopyStart, CopyEnd;
    PutFields(x, s, fwd, c, k);
    PutFacts(x, s, fwd, c, k);
    Layout(x);
  }

  /** How the three kinds of positions change. */
  lemma PutShape(x: Ctx, s: Scan, fwd: bool, c: int, k: int)
    requires CanPut(x, s, fwd, c, k)
    ensures 0 <= c < 256 && 0 <= SlotFor(s, fwd, c) < |s.g| == |s.src| == |s.dst| && |s.cs| == |s.ce| == 256 &&
        0 <= At(s, fwd) < |s.g|
    ensures var s', p0, y := Put(s, fwd, c, k), SlotFor(s, fwd, c), At(s, fwd);
      && (forall d, p :: Filled(x, s', d, p) <==> Filled(x, s, d, p) || (d == c && p == p0))
      && (forall p :: Scanned(x, s', p) <==> Scanned(x, s, p) || p == y)
      && (forall p :: InRegion(x, s', p) <==> InRegion(x, s, p) || (c == x.ss && p == p0))
  {
    hide CanPut, Put, Filled, Scanned, InRegion, SlotFor, At;
    PutFields(x, s, fwd, c, k);
    var s' := Put(s, fwd, c, k);
    forall d, p
      ensures Filled(x, s', d, p) <==> Filled(x, s, d, p) || (d == c && p == SlotFor(s, fwd, c))
    { PutFilledAt(x, s, fwd, c, k, d, p); }
    forall p
      ensures Scanned(x, s', p) <==> Scanned(x, s, p) || p == At(s, fwd)
    { PutScannedAt(x, s, fwd, c, k, p); }
    forall p
      ensures InRegion(x, s', p) <==> InRegion(x, s, p) || (c == x.ss && p == SlotFor(s, fwd, c))
    { PutRegionAt(x, s, fwd, c, k, p); }
  }

  /** The free slot is none of the positions in use. */
  lemma FreeSlot(x: Ctx, s: Scan, fwd: bool, c: int, k: int)
    requires CanPut(x, s, fwd, c, k)
    ensures var p0 := SlotFor(s, fwd, c);
      && !InRegion(x, s, p0) && !Scanned(x, s, p0) && (forall d :: !Filled(x, s, d, p0)) && p0 != At(s, fwd)
      && 0 <= p0 < |x.b| <= |x.f| && 0 <= x.f[p0] < |x.b| && x.b[x.f[p0]] == c
  {
    hide CanPut;
    hide CtxOk, ScanOk;
    var p0 := SlotFor(s, fwd, c);
    PutFilledAt(x, s, fwd, c, k, c, p0);
    PutFacts(x, s, fwd, c, k);
    PutFields(x, s, fwd, c, k);
    ColumnKey(x, c, p0);
    FreeOutside(x, s, fwd, c);
    forall d
      ensures !Filled(x, s, d, p0)
    {
      if d != c { OtherBucket(x, s, c, d, p0); }
    }
  }

  lemma OtherBucket(x: Ctx, s: Scan, c: int, d: int, p: int)
    requires CtxOk(x) && 0 <= c < 256 && c != d && St(x, c) <= p < En(x, c)
    ensures !Filled(x, s, d, p)
  {
    hide CtxOk, St, En, Lo, Hi;
    Layout(x);
  }

  lemma FreeOutside(x: Ctx, s: Scan, fwd: bool, c: int)
    requires CtxOk(x) && ScanOk(x, s) && Going(x, s, fwd) && 0 <= c < 256 &&
        St(x, c) <= CopyStart(s, c) <= CopyEnd(s, c) < En(x, c)
    requires Lo(x) <= At(s, fwd) < Hi(x)
    ensures var p0 := SlotFor(s, fwd, c); !InRegion(x, s, p0) && !Scanned(x, s, p0) && p0 != At(s, fwd)
  {
    hide CtxOk, ScanOk, St, En, Lo, Hi, CopyStart, CopyEnd;
    Layout(x);
    BoundsOf(x, s);
  }

  lemma PutBounds(x: Ctx, s: Scan, fwd: bool, c: int, k: int)
    requires CanPut(x, s, fwd, c, k)
    ensures Bounds(x, Put(s, fwd, c, k))
  {
    hide CanPut, Put, CtxOk, ScanOk, InRegion, Scanned, St, En, Lo, Hi, CopyStart, CopyEnd;
    PutFields(x, s, fwd, c, k);
    PutFacts(x, s, fwd, c, k);
    PutLengths(x);
    BoundsOfAll(x, s);
  }

  lemma PutKept(x: Ctx, s: Scan, fwd: bool, c: int, k: int)
    requires CanPut(x, s, fwd, c, k)
    ensures KeptOk(x, Put(s, fwd, c, k))
  {
    hide CanPut, Put, SlotFor, At, CtxOk, ScanOk, InRegion, Scanned, Filled, Going, St, En, Lo, Hi;
    PutShape(x, s, fwd, c, k);
    PutFields(x, s, fwd, c, k);
    FreeSlot(x, s, fwd, c, k);
    PutFacts(x, s, fwd, c, k);
    KeptOf(x, s);
  }

  lemma KeptOf(x: Ctx, s: Scan)
    requires ScanOk(x, s)
    ensures KeptOk(x, s)
  { hide Bounds, SlotsOk, OrderOk, CoverOk, DistinctOk, SortedOk, RegionOk; }

  lemma PutSlots(x: Ctx, s: Scan, fwd: bool, c: int, k: int)
    requires CanPut(x, s, fwd, c, k)
    ensures SlotsOk(x, Put(s, fwd, c, k))
  {
    hide CtxOk, ScanOk, InRegion, Scanned, Filled, Going, SlotOk, CanPut, Put, SlotFor, At;
    PutShape(x, s, fwd, c, k);
    PutFacts(x, s, fwd, c, k);
    var s' := Put(s, fwd, c, k);
    forall d, p | Filled(x, s', d, p)
      ensures SlotOk(x, s', d, p)
    {
      if Filled(x, s, d, p) {
        OldSlot(x, s, fwd, c, k, d, p);
      } else {
        NewSlot(x, s, fwd, c, k);
      }
    }
  }

  lemma OldSlot(x: Ctx, s: Scan, fwd: bool, c: int, k: int, d: int, p: int)
    requires CanPut(x, s, fwd, c, k) && Filled(x, s, d, p)
    ensures SlotOk(x, Put(s, fwd, c, k), d, p)
  {
    hide CtxOk, ScanOk, InRegion, Scanned, Filled, Going, CanPut, Put, SlotFor, At, CopyStart, CopyEnd;
    PutFacts(x, s, fwd, c, k);
    SlotAt(x, s, d, p);
    SlotSide(x, s, fwd, c, k, d, p);
    FreeSlot(x, s, fwd, c, k);
    PutFields(x, s, fwd, c, k);
    PutScannedAt(x, s, fwd, c, k, s.src[p]);
  }

  lemma NewSlot(x: Ctx, s: Scan, fwd: bool, c: int, k: int)
    requires CanPut(x, s, fwd, c, k)
    ensures SlotOk(x, Put(s, fwd, c, k), c, SlotFor(s, fwd, c))
  {
    hide CtxOk, ScanOk, InRegion, Scanned, Filled, Going, CanPut, Put, CopyStart, CopyEnd;
    PutFacts(x, s, fwd, c, k);
    FreeSlot(x, s, fwd, c, k);
    PutFields(x, s, fwd, c, k);
    PutScannedAt(x, s, fwd, c, k, At(s, fwd));
  }

  /** A filled slot stays on its side. */
  lemma SlotSide(x: Ctx, s: Scan, fwd: bool, c: int, k: int, d: int, p: int)
    requires CanPut(x, s, fwd, c, k) && Filled(x, s, d, p)
    ensures p < CopyStart(s, d) <==> p < CopyStart(Put(s, fwd, c, k), d)
  {
    hide CanPut, Put, CtxOk, ScanOk, InRegion, Scanned, Going, St, En, Lo, Hi, CopyStart, CopyEnd;
    PutFields(x, s, fwd, c, k);
    PutFacts(x, s, fwd, c, k);
  }

  lemma PutOrder(x: Ctx, s: Scan, fwd: bool, c: int, k: int)
    requires CanPut(x, s, fwd, c, k)
    ensures OrderOk(x, Put(s, fwd, c, k))
  {
    hide CanPut, Put, CtxOk, ScanOk, InRegion, Scanned, Filled, Going, SlotFor, At;
    PutShape(x, s, fwd, c, k);
    PutFields(x, s, fwd, c, k);
    PutFacts(x, s, fwd, c, k);
    FreeSlot(x, s, fwd, c, k);
    var s' := Put(s, fwd, c, k);
    forall d, p, q | Filled(x, s', d, p) && Filled(x, s', d, q) && p < q && 0 <= p < |s'.src| && q < |s'.src|
      ensures s'.src[p] < s'.src[q]
    {
      if Filled(x, s, d, p) && Filled(x, s, d, q) {
        InOrderSlots(x, s, d, p, q);
      } else if Filled(x, s, d, p) {
        NewSlotOrder(x, s, fwd, c, k, p);
      } else {
        NewSlotOrder(x, s, fwd, c, k, q);
      }
    }
  }

  /** The new slot lies between those filled from the front and those filled from the back. */
  lemma NewSlotOrder(x: Ctx, s: Scan, fwd: bool, c: int, k: int, p: int)
    requires CanPut(x, s, fwd, c, k) && Filled(x, s, c, p) && 0 <= p < |s.src|
    ensures p != SlotFor(s, fwd, c)
    ensures p < SlotFor(s, fwd, c) ==> s.src[p] < At(s, fwd)
    ensures p > SlotFor(s, fwd, c) ==> s.src[p] > At(s, fwd)
  {
    hide CanPut, Put, CtxOk, ScanOk, St, En, Lo, Hi, CopyStart, CopyEnd, InRegion;
    PutFacts(x, s, fwd, c, k);
    PutFilledAt(x, s, fwd, c, k, c, p);
    SlotAt(x, s, c, p);
  }

  lemma PutCover(x: Ctx, s: Scan, fwd: bool, c: int, k: int)
    requires CanPut(x, s, fwd, c, k)
    ensures CoverOk(x, Put(s, fwd, c, k))
  {
    hide CanPut, Put, CtxOk, ScanOk, InRegion, Scanned, Filled, Going, SlotFor, At, Covered;
    PutShape(x, s, fwd, c, k);
    PutFacts(x, s, fwd, c, k);
    CoverOf(x, s);
    var s' := Put(s, fwd, c, k);
    forall p | Scanned(x, s', p)
      ensures Covered(x, s', p)
    {
      if p != At(s, fwd) {
        assert Covered(x, s, p);
        OldCover(x, s, fwd, c, k, p);
      } else {
        NewCover(x, s, fwd, c, k);
      }
    }
  }

  lemma OldCover(x: Ctx, s: Scan, fwd: bool, c: int, k: int, p: int)
    requires CanPut(x, s, fwd, c, k) && Scanned(x, s, p) && Covered(x, s, p) && p != At(s, fwd)
    ensures Covered(x, Put(s, fwd, c, k), p)
  {
    hide CanPut, Put, CtxOk, ScanOk, InRegion, Scanned, Filled, Going, SlotFor, At;
    PutShape(x, s, fwd, c, k);
    PutFields(x, s, fwd, c, k);
    FreeSlot(x, s, fwd, c, k);
  }

  lemma NewCover(x: Ctx, s: Scan, fwd: bool, c: int, k: int)
    requires CanPut(x, s, fwd, c, k)
    ensures Covered(x, Put(s, fwd, c, k), At(s, fwd))
  {
    hide CanPut, Put, CtxOk, ScanOk, InRegion, Scanned, Filled, Going, SlotFor, At, Next, Prev;
    PutShape(x, s, fwd, c, k);
    PutFields(x, s, fwd, c, k);
    PutFacts(x, s, fwd, c, k);
    FreeSlot(x, s, fwd, c, k);
    PrevNext(|x.b|, k);
  }

  lemma PrevNext(n: nat, k: nat)
    requires k < n
    ensures Prev(n, Next(n, k)) == k && Next(n, Prev(n, k)) == k
  { }

  lemma CoverOf(x: Ctx, s: Scan)
    requires ScanOk(x, s)
    ensures CoverOk(x, s)
  { hide Bounds, SlotsOk, OrderOk, KeptOk, DistinctOk, SortedOk, RegionOk, Covered; }

  lemma PutRegion(x: Ctx, s: Scan, fwd: bool, c: int, k: int)
    requires CanPut(x, s, fwd, c, k)
    ensures RegionOk(x, Put(s, fwd, c, k))
  {
    hide CanPut, Put, CtxOk, ScanOk, InRegion, Scanned, Filled, Going, SlotFor, At, Descends, Ascends;
    PutShape(x, s, fwd, c, k);
    PutFields(x, s, fwd, c, k);
    PutFacts(x, s, fwd, c, k);
    FreeSlot(x, s, fwd, c, k);
    var s' := Put(s, fwd, c, k);
    forall p | InRegion(x, s', p)
      ensures 0 <= p < |s'.g| && 0 <= s'.g[p] < |x.b| && x.b[s'.g[p]] == x.ss
      ensures if p < CopyStart(s', x.ss) then Descends(x.b, s'.g[p]) else Ascends(x.b, s'.g[p])
    {
      if InRegion(x, s, p) {
        RegionHolds(x, s, p);
        RegionSide(x, s, fwd, c, k, p);
      } else {
        NewInRegion(x, s, fwd, c, k);
      }
    }
  }

  lemma RegionSide(x: Ctx, s: Scan, fwd: bool, c: int, k: int, p: int)
    requires CanPut(x, s, fwd, c, k) && InRegion(x, s, p)
    ensures p < CopyStart(s, x.ss) <==> p < CopyStart(Put(s, fwd, c, k), x.ss)
  {
    hide CanPut, Put, CtxOk, ScanOk, Scanned, Going, St, En, Lo, Hi, CopyStart, CopyEnd;
    PutFields(x, s, fwd, c, k);
    PutFacts(x, s, fwd, c, k);
  }

  /** A repetition descends or ascends as what it was scanned from. */
  lemma NewInRegion(x: Ctx, s: Scan, fwd: bool, c: int, k: int)
    requires CanPut(x, s, fwd, c, k) && c == x.ss
    ensures 0 <= k < |x.b| && x.b[k] == x.ss
    ensures if fwd then Descends(x.b, k) else Ascends(x.b, k)
    ensures fwd <==> SlotFor(s, fwd, c) < CopyStart(Put(s, fwd, c, k), c)
  {
    hide CanPut, Put, CtxOk, ScanOk, Scanned, InRegion, Going, St, En, Lo, Hi, CopyStart, CopyEnd;
    hide Descends, Ascends;
    PutFields(x, s, fwd, c, k);
    PutFacts(x, s, fwd, c, k);
    AtInRegion(x, s, fwd);
    RunStep(x.b, k);
  }

  lemma PutDistinct(x: Ctx, s: Scan, fwd: bool, c: int, k: int)
    requires CanPut(x, s, fwd, c, k)
    ensures DistinctOk(x, Put(s, fwd, c, k))
  {
    hide CanPut, Put, CtxOk, ScanOk, InRegion, Scanned, Filled, Going, SlotFor, At;
    PutShape(x, s, fwd, c, k);
    PutFields(x, s, fwd, c, k);
    PutFacts(x, s, fwd, c, k);
    FreeSlot(x, s, fwd, c, k);
    var s', p0 := Put(s, fwd, c, k), SlotFor(s, fwd, c);
    forall p, q | InRegion(x, s', p) && InRegion(x, s', q) && p < q && 0 <= p && q < |s'.g|
      ensures s'.g[p] != s'.g[q]
    {
      if InRegion(x, s, p) && InRegion(x, s, q) {
        RegionDiffers(x, s, p, q);
      } else {
        NewDiffers(x, s, fwd, c, k, if p == p0 then q else p);
      }
    }
  }

  /** The rotation put into [ss, ss] is none of those in the region: not of another small bucket, and
      not a slot filled before. */
  lemma NewDiffers(x: Ctx, s: Scan, fwd: bool, c: int, k: int, p: int)
    requires CanPut(x, s, fwd, c, k) && c == x.ss && InRegion(x, s, p) && 0 <= p < |s.g|
    ensures s.g[p] != k
  {
    hide CanPut;
    PutFacts(x, s, fwd, c, k);
    if Filled(x, s, c, p) {
      SlotDiffers(x, s, c, p, fwd, k);
    } else {
      OutsideSlots(x, s, p);
      hide CtxOk, ScanOk;
    }
  }

  /** A region position that is no slot of [ss, ss] still holds a rotation with another second byte. */
  lemma OutsideSlots(x: Ctx, s: Scan, p: int)
    requires CtxOk(x) && ScanOk(x, s) && InRegion(x, s, p) && !Filled(x, s, x.ss, p)
    ensures Lo(x) <= p < St(x, x.ss) || En(x, x.ss) <= p < Hi(x)
    ensures 0 <= p < |s.g| == |x.f| && s.g[p] == x.f[p] && 0 <= s.g[p] < |x.b|
    ensures p < St(x, x.ss) ==> x.b[Next(|x.b|, s.g[p])] < x.ss
    ensures En(x, x.ss) <= p ==> x.b[Next(|x.b|, s.g[p])] > x.ss
  {
    hide CtxOk, ScanOk;
    RegionInside(x, s, p);
    RegionKey(x, p);
    KeptAt(x, s, p);
  }

  lemma RegionInside(x: Ctx, s: Scan, p: int)
    requires CtxOk(x) && ScanOk(x, s) && InRegion(x, s, p)
    ensures Lo(x) <= p < Hi(x)
    ensures !Filled(x, s, x.ss, p) ==> Lo(x) <= p < St(x, x.ss) || En(x, x.ss) <= p < Hi(x)
  {
    hide CtxOk, ScanOk, St, En, Lo, Hi, CopyStart, CopyEnd;
    Layout(x);
    BoundsOf(x, s);
    PutLengths(x);
  }

  lemma KeptAt(x: Ctx, s: Scan, p: int)
    requires CtxOk(x) && ScanOk(x, s) && 0 <= p < |x.b| <= |x.f| && 0 <= x.f[p] < |x.b| && !Filled(x, s, x.b[x.f[p]], p)
    ensures |s.g| == |x.f| && s.g[p] == x.f[p]
  {
    hide CtxOk, ScanOk, Filled;
    KeptOf(x, s);
  }

  // ----- The region stays in order -----

  /** A place back, rotations with the same byte are in the same order. */
  lemma PrevOrder(b: seq<int>, u: int, v: int)
    requires 0 <= u < |b| && 0 <= v < |b| && b[u] == b[v] && RotOrder(b)(Next(|b|, u), Next(|b|, v))
    ensures RotOrder(b)(u, v)
  {
    CmpStep(b, u, v);
  }

  /** Smaller second byte, smaller rotation. */
  lemma SecondByte(x: Ctx, u: int, v: int)
    requires CtxOk(x) && 0 <= u < |x.b| && 0 <= v < |x.b| && x.b[u] == x.b[v] &&
        x.b[Next(|x.b|, u)] < x.b[Next(|x.b|, v)]
    ensures RotOrder(x.b)(u, v)
  {
    hide Ascending, RotOrder, IsStarts, InBucket;
    KeysDecide(x.b, u, v);
  }

  lemma SortedOf(x: Ctx, s: Scan)
    requires ScanOk(x, s)
    ensures SortedOk(x, s)
  { hide Bounds, SlotsOk, OrderOk, CoverOk, DistinctOk, KeptOk, RegionOk, SortedOk; }

  lemma SortedPair(x: Ctx, s: Scan, p: int, q: int)
    requires ScanOk(x, s) && p < q
    requires (Lo(x) <= p && q < CopyStart(s, x.ss)) || (CopyEnd(s, x.ss) < p && q < Hi(x))
    ensures 0 <= p && q < |s.g| && RotOrder(x.b)(s.g[p], s.g[q])
  {
    hide ScanOk, RotOrder, CopyStart, CopyEnd, Lo, Hi;
    SortedOf(x, s);
  }

  /** The rotation put into [ss, ss] against one already in the same end of the region. */
  lemma NewInOrder(x: Ctx, s: Scan, fwd: bool, c: int, k: int, p: int)
    requires CanPut(x, s, fwd, c, k) && c == x.ss && 0 <= p < |s.g|
    requires if fwd then Lo(x) <= p < CopyStart(s, x.ss) else CopyEnd(s, x.ss) < p < Hi(x)
    ensures 0 <= s.g[p] < |x.b| && 0 <= k < |x.b| && if fwd then RotOrder(x.b)(s.g[p], k) else RotOrder(x.b)(k, s.g[p])
  {
    hide CanPut, Put, CtxOk, ScanOk, Filled, Going, RotOrder, Lo, Hi, CopyStart, CopyEnd, Descends, Ascends, Scanned;
    hide St, En;
    PutFacts(x, s, fwd, c, k);
    AtInRegion(x, s, fwd);
    RegionHolds(x, s, p);
    if Filled(x, s, c, p) {
      NewAfterSlot(x, s, fwd, c, k, p);
    } else {
      OutsideSlots(x, s, p);
      NewSide(x, s, fwd, c, k, p);
      if fwd { SecondByte(x, s.g[p], k); } else { SecondByte(x, k, s.g[p]); }
    }
  }

  lemma NewSide(x: Ctx, s: Scan, fwd: bool, c: int, k: int, p: int)
    requires CanPut(x, s, fwd, c, k) && c == x.ss
    requires if fwd then p < CopyStart(s, x.ss) else CopyEnd(s, x.ss) < p
    requires Lo(x) <= p < St(x, x.ss) || En(x, x.ss) <= p < Hi(x)
    ensures if fwd then p < St(x, x.ss) else En(x, x.ss) <= p
  {
    hide CanPut, Put, CtxOk, ScanOk, Filled, Going, Lo, Hi, CopyStart, CopyEnd, Scanned, St, En, InRegion;
    PutFacts(x, s, fwd, c, k);
  }

  lemma NewAfterSlot(x: Ctx, s: Scan, fwd: bool, c: int, k: int, p: int)
    requires CanPut(x, s, fwd, c, k) && c == x.ss && 0 <= p < |s.g| && Filled(x, s, c, p)
    requires if fwd then Lo(x) <= p < CopyStart(s, x.ss) else CopyEnd(s, x.ss) < p < Hi(x)
    ensures 0 <= s.g[p] < |x.b| && 0 <= k < |x.b| && if fwd then RotOrder(x.b)(s.g[p], k) else RotOrder(x.b)(k, s.g[p])
  {
    hide CanPut, Put, CtxOk, ScanOk, Filled, Going, RotOrder, Lo, Hi, CopyStart, CopyEnd, St, En, InRegion;
    PutFacts(x, s, fwd, c, k);
    BoundsOf(x, s);
    SlotAt(x, s, c, p);
    SlotEnd(x, s, fwd, c, k, p);
    var y := At(s, fwd);
    if fwd {
      SortedPair(x, s, s.src[p], y);
      PrevOrder(x.b, s.g[p], k);
    } else {
      SortedPair(x, s, y, s.src[p]);
      PrevOrder(x.b, k, s.g[p]);
    }
  }

  /** A slot filled from one end was filled from a position scanned before, at that end. */
  lemma SlotEnd(x: Ctx, s: Scan, fwd: bool, c: int, k: int, p: int)
    requires CanPut(x, s, fwd, c, k) && c == x.ss && SlotOk(x, s, c, p)
    requires if fwd then Lo(x) <= p < CopyStart(s, x.ss) else CopyEnd(s, x.ss) < p < Hi(x)
    ensures if fwd then Lo(x) <= s.src[p] < At(s, fwd) < CopyStart(s, x.ss)
        else CopyEnd(s, x.ss) < At(s, fwd) < s.src[p] < Hi(x)
  {
    hide CanPut, Put, CtxOk, ScanOk, Filled, RotOrder, Lo, Hi, CopyStart, CopyEnd, St, En, InRegion;
    PutFacts(x, s, fwd, c, k);
    BoundsOf(x, s);
  }

  lemma PutSorted(x: Ctx, s: Scan, fwd: bool, c: int, k: int)
    requires CanPut(x, s, fwd, c, k)
    ensures SortedOk(x, Put(s, fwd, c, k))
  {
    hide CanPut, Put, CtxOk, ScanOk, Filled, Going, RotOrder, Lo, Hi, CopyStart, CopyEnd, St, En, InRegion, Scanned;
    hide SortedOk;
    PutFacts(x, s, fwd, c, k);
    PutFields(x, s, fwd, c, k);
    PutLengths(x);
    BoundsOf(x, s);
    Spread(x, s, x.ss);
    Layout(x);
    FreeSides(x, s, fwd, c, k);
    var s', p0 := Put(s, fwd, c, k), SlotFor(s, fwd, c);
    var front, back := CopyStart(s', x.ss) - 1, CopyEnd(s', x.ss) + 1;
    forall p, q | Lo(x) <= p < q <= front
      ensures RotOrder(x.b)(s'.g[p], s'.g[q])
    {
      if q == p0 { NewInOrder(x, s, fwd, c, k, p); } else { SortedPair(x, s, p, q); }
    }
    forall p, q | back <= p < q <= Hi(x) - 1
      ensures RotOrder(x.b)(s'.g[p], s'.g[q])
    {
      if p == p0 { NewInOrder(x, s, fwd, c, k, q); } else { SortedPair(x, s, p, q); }
    }
    SortedFrom(x, s');
  }

  lemma SortedFrom(x: Ctx, s: Scan)
    requires 0 <= Lo(x) && CopyStart(s, x.ss) <= |s.g| && 0 <= CopyEnd(s, x.ss) + 1 && Hi(x) <= |s.g|
    requires forall p, q :: Lo(x) <= p < q <= CopyStart(s, x.ss) - 1 ==> RotOrder(x.b)(s.g[p], s.g[q])
    requires forall p, q :: CopyEnd(s, x.ss) + 1 <= p < q <= Hi(x) - 1 ==> RotOrder(x.b)(s.g[p], s.g[q])
    ensures SortedOk(x, s)
  { hide RotOrder, Lo, Hi, CopyStart, CopyEnd; }

  /** Where the new slot lies with respect to the two ends of the region. */
  lemma FreeSides(x: Ctx, s: Scan, fwd: bool, c: int, k: int)
    requires CanPut(x, s, fwd, c, k)
    ensures var p0 := SlotFor(s, fwd, c);
      if c == x.ss
      then p0 == (if fwd then CopyStart(s, x.ss) else CopyEnd(s, x.ss)) && CopyStart(s, x.ss) <= p0 <= CopyEnd(s, x.ss)
      else p0 < Lo(x) || Hi(x) <= p0
  {
    hide CanPut, Put, CtxOk, ScanOk, Filled, Going, Lo, Hi, CopyStart, CopyEnd, St, En, InRegion, Scanned;
    PutFacts(x, s, fwd, c, k);
    Layout(x);
  }

  // ----- Every step -----

  lemma PutOk(x: Ctx, s: Scan, fwd: bool, c: int, k: int)
    requires CanPut(x, s, fwd, c, k)
    ensures 0 <= SlotFor(s, fwd, c) < |s.g| == |s.src| == |s.dst| && 0 <= c < |s.cs| == |s.ce| &&
        0 <= At(s, fwd) < |s.dst|
    ensures ScanOk(x, Put(s, fwd, c, k))
  {
    hide CanPut, Put, Bounds, SlotsOk, OrderOk, CoverOk, DistinctOk, KeptOk, RegionOk, SortedOk, SlotFor, At;
    PutFields(x, s, fwd, c, k);
    PutBounds(x, s, fwd, c, k);
    PutKept(x, s, fwd, c, k);
    PutSlots(x, s, fwd, c, k);
    PutOrder(x, s, fwd, c, k);
    PutCover(x, s, fwd, c, k);
    PutRegion(x, s, fwd, c, k);
    PutDistinct(x, s, fwd, c, k);
    PutSorted(x, s, fwd, c, k);
  }

  lemma SkipOk(x: Ctx, s: Scan, fwd: bool)
    requires CtxOk(x) && ScanOk(x, s) && Going(x, s, fwd)
    requires 0 <= At(s, fwd) < |s.g| && 0 <= s.g[At(s, fwd)] < |x.b| && |x.done| == 256
    requires var c := x.b[Prev(|x.b|, s.g[At(s, fwd)])]; 0 <= c < 256 && x.done[c]
    ensures ScanOk(x, Skip(s, fwd))
  {
    hide CtxOk, KeptOk, RegionOk, DistinctOk, SortedOk, OrderOk, Lo, Hi, St, En, ScanOk;
    BoundsOf(x, s);
    SkipSlots(x, s, fwd);
    SkipCover(x, s, fwd);
    SkipRest(x, s, fwd);
  }

  lemma SkipRest(x: Ctx, s: Scan, fwd: bool)
    requires ScanOk(x, s) && Bounds(x, s) && Going(x, s, fwd) && SlotsOk(x, Skip(s, fwd)) && CoverOk(x, Skip(s, fwd))
    ensures ScanOk(x, Skip(s, fwd))
  {
    hide SlotsOk, CoverOk, Lo, Hi, St, En, RotOrder, Descends, Ascends, SlotOk, Covered;
    var s' := Skip(s, fwd);
    assert forall d, p :: Filled(x, s', d, p) <==> Filled(x, s, d, p);
    assert forall p :: InRegion(x, s', p) <==> InRegion(x, s, p);
    hide Filled, InRegion;
  }

  lemma SkipSlots(x: Ctx, s: Scan, fwd: bool)
    requires ScanOk(x, s) && Bounds(x, s)
    ensures SlotsOk(x, Skip(s, fwd))
  {
    hide ScanOk, Lo, Hi, St, En;
    var s' := Skip(s, fwd);
    forall d, p | Filled(x, s', d, p)
      ensures SlotOk(x, s', d, p)
    {
      assert Filled(x, s, d, p);
      SlotAt(x, s, d, p);
    }
  }

  lemma SkipCover(x: Ctx, s: Scan, fwd: bool)
    requires ScanOk(x, s) && Bounds(x, s) && Going(x, s, fwd) && CtxOk(x)
    requires 0 <= At(s, fwd) < |s.g| && 0 <= s.g[At(s, fwd)] < |x.b| && |x.done| == 256
    requires var c := x.b[Prev(|x.b|, s.g[At(s, fwd)])]; 0 <= c < 256 && x.done[c]
    ensures CoverOk(x, Skip(s, fwd))
  {
    hide ScanOk, Lo, Hi, St, En, CtxOk;
    CoverOf(x, s);
    var s' := Skip(s, fwd);
    forall p | Scanned(x, s', p)
      ensures Covered(x, s', p)
    {
      if p != At(s, fwd) {
        assert Scanned(x, s, p);
        assert Covered(x, s, p);
      }
    }
  }

  // ----- Before the scan -----

  /** copyStart and copyEnd as the scan starts. */
  ghost predicate Fresh(x: Ctx, s: Scan) {
    && s.g == x.f && |s.src| == |s.dst| == |x.f| && |s.cs| == |s.ce| == 256
    && (forall c :: 0 <= c < 256 ==> s.cs[c] == St(x, c) && s.ce[c] == En(x, c) - 1)
    && s.j1 == Lo(x) && s.j2 == Hi(x) - 1
  }

  lemma FreshOk(x: Ctx, s: Scan)
    requires CtxOk(x) && Fresh(x, s)
    ensures ScanOk(x, s)
  {
    hide CtxOk, St, En, Lo, Hi, RotOrder, Descends, Ascends, SlotOk, Covered, SortedOk;
    Layout(x);
    PutLengths(x);
    assert forall c ::
        CopyStart(s, c) == (if 0 <= c < 256 then St(x, c) else 0) &&
            CopyEnd(s, c) == (if 0 <= c < 256 then En(x, c) - 1 else 0);
    assert forall c, p :: !Filled(x, s, c, p);
    FreshSorted(x, s);
    FreshRegion(x, s);
    hide Fresh, Filled;
  }

  lemma FreshSorted(x: Ctx, s: Scan)
    requires CtxOk(x) && Fresh(x, s)
    ensures SortedOk(x, s)
  {
    hide Placed, St, En, Lo, Hi, RotOrder;
  }

  lemma FreshRegion(x: Ctx, s: Scan)
    requires CtxOk(x) && Fresh(x, s)
    ensures RegionOk(x, s) && DistinctOk(x, s)
  {
    hide CtxOk, St, En, Lo, Hi, RotOrder, Descends, Ascends;
    Layout(x);
    PutLengths(x);
    forall p | InRegion(x, s, p)
      ensures 0 <= p < |s.g| && 0 <= s.g[p] < |x.b| && x.b[s.g[p]] == x.ss
      ensures if p < CopyStart(s, x.ss) then Descends(x.b, s.g[p]) else Ascends(x.b, s.g[p])
    {
      RegionKey(x, p);
      RunEnd(x.b, s.g[p]);
    }
    forall p, q | InRegion(x, s, p) && InRegion(x, s, q) && p < q && 0 <= p && q < |s.g|
      ensures s.g[p] != s.g[q]
    {
      ListedOnce(x, p, q);
    }
  }

  lemma ListedOnce(x: Ctx, p: int, q: int)
    requires CtxOk(x) && 0 <= p < q < |x.b|
    ensures |x.b| <= |x.f| && x.f[p] != x.f[q]
  { hide Ascending, InBucket, IsStarts; }

  // ----- After the scan -----

  /** Both scans have caught up with the slots they filled. */
  ghost predicate Finished(x: Ctx, s: Scan) {
    CtxOk(x) && ScanOk(x, s) && !Going(x, s, true) && !Going(x, s, false)
  }

  lemma FinishedFacts(x: Ctx, s: Scan)
    requires Finished(x, s)
    ensures CtxOk(x) && ScanOk(x, s) && Bounds(x, s)
    ensures forall p :: Scanned(x, s, p) <==> InRegion(x, s, p)
  {
    hide CtxOk, KeptOk, SlotsOk, OrderOk, CoverOk, DistinctOk, SortedOk, RegionOk, St, En, Lo, Hi, CopyStart, CopyEnd;
    hide ScanOk;
    BoundsOf(x, s);
  }

  /** A rotation of the big bucket that still waits behind one in the region gets there itself. */
  lemma Reached(x: Ctx, s: Scan, r: int, p: int) returns (q: int)
    requires Finished(x, s) && 0 <= r < |x.b| && 0 <= x.b[r] < 256 && |x.done| == 256 && !x.done[x.b[r]]
    requires InRegion(x, s, p) && 0 <= p < |s.g| && s.g[p] == Next(|x.b|, r)
    ensures Filled(x, s, x.b[r], q) && 0 <= q < |s.g| && s.g[q] == r
  {
    hide Finished, CtxOk, ScanOk, Bounds, InRegion, Filled, Scanned, Next, Prev;
    FinishedFacts(x, s);
    CoverOf(x, s);
    assert Covered(x, s, p);
    PrevNext(|x.b|, r);
    q := s.dst[p];
  }

  /** The small buckets left and right of [ss, ss] are in the region from the start. */
  lemma OuterReached(x: Ctx, s: Scan, r: int) returns (q: int)
    requires Finished(x, s) && 0 <= r < |x.b| && x.b[r] == x.ss && x.b[Next(|x.b|, r)] != x.ss
    ensures InRegion(x, s, q) && 0 <= q < |s.g| && s.g[q] == r
  {
    hide Finished, CtxOk, ScanOk, Filled, InBucket, IsStarts;
    FinishedFacts(x, s);
    Layout(x);
    BoundsOf(x, s);
    q := ListedInCtx(x, r);
    RegionKeyOuter(x, r, q);
    NotColumn(x, s, q);
    KeptAt(x, s, q);
    hide Bounds, Lo, Hi, St, En;
  }

  lemma ListedInCtx(x: Ctx, r: int) returns (q: int)
    requires CtxOk(x) && 0 <= r < |x.b|
    ensures 0 <= q < |x.b| <= |x.f| && x.f[q] == r && InBucket(x.starts, Key(x.b, r), q)
  {
    hide Ascending, InBucket, Key;
    CtxPlaced(x);
    q := Listed(x.b, x.starts, x.f, r);
  }

  lemma RegionKeyOuter(x: Ctx, r: int, q: int)
    requires CtxOk(x) && 0 <= r < |x.b| && x.b[r] == x.ss && x.b[Next(|x.b|, r)] != x.ss &&
        InBucket(x.starts, Key(x.b, r), q)
    ensures Lo(x) <= q < St(x, x.ss) || En(x, x.ss) <= q < Hi(x)
  {
    hide Ascending;
    var d := x.b[Next(|x.b|, r)];
    assert 0 <= d < 256;
    assert Key(x.b, r) == 256 * x.ss + d;
    CtxPlaced(x);
    hide Placed, CtxOk, Key;
    StartsMonotone(x.starts, |x.b|);
  }

  lemma NotColumn(x: Ctx, s: Scan, q: int)
    requires CtxOk(x) && (Lo(x) <= q < St(x, x.ss) || En(x, x.ss) <= q < Hi(x))
    ensures 0 <= q < |x.b| <= |x.f| && 0 <= x.f[q] < |x.b| && !Filled(x, s, x.b[x.f[q]], q)
  {
    hide CtxOk, Lo, Hi, St, En;
    Layout(x);
    RegionKey(x, q);
  }

  /** Every rotation of the big bucket that descends or ascends ends up in the region. */
  lemma {:induction false} AllReached(x: Ctx, s: Scan, r: int, h: nat) returns (q: int)
    requires Finished(x, s) && 0 <= r < |x.b| && x.b[r] == x.ss && Cmp(x.b, r, Next(|x.b|, r), h) != 0
    ensures InRegion(x, s, q) && 0 <= q < |s.g| && s.g[q] == r
    decreases h
  {
    hide Finished, CtxOk, ScanOk, InRegion;
    FinishedFacts(x, s);
    if x.b[Next(|x.b|, r)] != x.ss {
      q := OuterReached(x, s, r);
    } else {
      var p := AllReached(x, s, Next(|x.b|, r), h - 1);
      PutLengths(x);
      q := Reached(x, s, r, p);
      FilledInRegion(x, s, q);
    }
  }

  lemma FilledInRegion(x: Ctx, s: Scan, q: int)
    requires CtxOk(x) && Filled(x, s, x.ss, q)
    ensures InRegion(x, s, q)
  {
    hide CtxOk, Lo, Hi, St, En, CopyStart, CopyEnd;
    Layout(x);
  }

  /** The whole block is one run of `ss`. */
  ghost predicate OneRun(x: Ctx) { Uniform(x.b, x.ss) }

  lemma EveryReached(x: Ctx, s: Scan, r: int) returns (q: int)
    requires Finished(x, s) && 0 <= r < |x.b| && x.b[r] == x.ss && !OneRun(x)
    ensures InRegion(x, s, q) && 0 <= q < |s.g| && s.g[q] == r
  {
    hide Finished, InRegion, Uniform;
    if Cmp(x.b, r, Next(|x.b|, r), |x.b|) == 0 { StillIsUniform(x.b, r); }
    q := AllReached(x, s, r, |x.b|);
  }

  /** Every rotation of a small bucket gets into a slot of it. */
  lemma PoolReached(x: Ctx, s: Scan, c: int, r: int)
    requires Finished(x, s) && !OneRun(x) && 0 <= c < 256 && |x.done| == 256 && !x.done[c]
    requires 0 <= r < |x.b| && x.b[r] == c && x.b[Next(|x.b|, r)] == x.ss
    requires 0 <= St(x, c) <= CopyStart(s, c) <= CopyEnd(s, c) + 1 <= En(x, c) <= |s.g|
    ensures r in Elems(SlotsOf(x, s, c))
  {
    hide Finished, InRegion, Uniform, OneRun, Next, St, En, CopyStart, CopyEnd;
    var p := EveryReached(x, s, Next(|x.b|, r));
    var q := Reached(x, s, r, p);
    if q < CopyStart(s, c) {
      assert SlotsOf(x, s, c)[q - St(x, c)] == r;
    } else {
      assert SlotsOf(x, s, c)[(CopyStart(s, c) - St(x, c)) + (q - (CopyEnd(s, c) + 1))] == r;
    }
  }

  /** Unless the whole block is one run, every small bucket is full. */
  lemma ColumnFull(x: Ctx, s: Scan, c: int)
    requires Finished(x, s) && !OneRun(x) && 0 <= c < 256 && |x.done| == 256 && !x.done[c]
    ensures CopyStart(s, c) == CopyEnd(s, c) + 1
  {
    hide Finished, CtxOk, ScanOk, Bounds, OneRun, St, En, CopyStart, CopyEnd;
    FinishedFacts(x, s);
    Spread(x, s, c);
    var pool := x.f[St(x, c)..En(x, c)];
    forall i, j | 0 <= i < j < |pool|
      ensures pool[i] != pool[j]
    {
      ListedOnce(x, St(x, c) + i, St(x, c) + j);
    }
    forall v | v in Elems(pool)
      ensures v in Elems(SlotsOf(x, s, c))
    {
      var i :| 0 <= i < |pool| && pool[i] == v;
      ColumnKey(x, c, St(x, c) + i);
      PoolReached(x, s, c, v);
    }
    Pigeonhole(pool, Elems(SlotsOf(x, s, c)));
    SeqSetSize(SlotsOf(x, s, c));
  }

  /** In a block that is one run there is nothing to scan. */
  lemma RunUntouched(x: Ctx, s: Scan, c: int, p: int)
    requires Finished(x, s) && OneRun(x)
    ensures !Filled(x, s, c, p) && !InRegion(x, s, p)
  {
    hide Finished, CtxOk, ScanOk, Bounds, Filled, InRegion, Scanned;
    FinishedFacts(x, s);
    if InRegion(x, s, p) {
      RegionHolds(x, s, p);
      UniformEqual(x.b, x.ss, s.g[p], Next(|x.b|, s.g[p]), |x.b|);
    }
    if Filled(x, s, c, p) {
      SlotAt(x, s, c, p);
      var q := s.src[p];
      ScannedInRegion(x, s, q);
      RegionHolds(x, s, q);
      UniformEqual(x.b, x.ss, s.g[q], Next(|x.b|, s.g[q]), |x.b|);
    }
  }

  /** The assertion after the scan: the two ends have met, or the block is one run. */
  lemma ScanMet(x: Ctx, s: Scan)
    requires Finished(x, s)
    ensures CopyStart(s, x.ss) - 1 == CopyEnd(s, x.ss) || (CopyStart(s, x.ss) == 0 && CopyEnd(s, x.ss) == |x.b| - 1)
  {
    hide Finished, CtxOk, ScanOk, OneRun, St, En, CopyStart, CopyEnd, Lo, Hi;
    FinishedFacts(x, s);
    PutLengths(x);
    Layout(x);
    BoundsOf(x, s);
    if OneRun(x) {
      RunFills(x);
      RunUntouched(x, s, 0, Lo(x));
      RunUntouched(x, s, 0, Hi(x) - 1);
    } else {
      ColumnFull(x, s, x.ss);
    }
  }

  /** A block that is one run has one small bucket. */
  lemma RunFills(x: Ctx)
    requires CtxOk(x) && OneRun(x)
    ensures St(x, x.ss) == Lo(x) == 0 && En(x, x.ss) == Hi(x) == |x.b|
  {
    hide CtxOk, Lo, Hi, St, En, Placed;
    Layout(x);
    PutLengths(x);
    TwoBytes(x);
    RunAt(x, 0);
    RunAt(x, |x.b| - 1);
  }

  lemma TwoBytes(x: Ctx)
    requires CtxOk(x)
    ensures |x.b| >= 2
  { hide Ascending, Placed; }

  lemma RunAt(x: Ctx, p: int)
    requires CtxOk(x) && OneRun(x) && 0 <= p < |x.b|
    ensures St(x, x.ss) <= p < En(x, x.ss)
  {
    hide Ascending, IsStarts, InBucket;
    assert InBucket(x.starts, Key(x.b, x.f[p]), p);
    KeyOfRun(x, x.f[p]);
    InBucketAt(x, p);
  }

  lemma KeyOfRun(x: Ctx, r: int)
    requires OneRun(x) && 0 <= r < |x.b|
    ensures Key(x.b, r) == 256 * x.ss + x.ss
  { }

  lemma InBucketAt(x: Ctx, p: int)
    requires InBucket(x.starts, 256 * x.ss + x.ss, p) && x.ss < 256
    ensures St(x, x.ss) <= p < En(x, x.ss)
  { }

  // ----- What the scan leaves behind -----

  /** A slot in use means a full small bucket. */
  lemma FullOrNone(x: Ctx, s: Scan, c: int, p: int)
    requires Finished(x, s) && Filled(x, s, c, p)
    ensures CopyStart(s, c) == CopyEnd(s, c) + 1
  {
    hide Finished, OneRun, St, En, CopyStart, CopyEnd;
    if OneRun(x) { RunUntouched(x, s, c, p); } else { ColumnFull(x, s, c); }
  }

  /** A rotation of column `ss` that did not move is in no other place. */
  lemma StayedIn(x: Ctx, s: Scan, c: int, p: int, q: int)
    requires Finished(x, s) && Filled(x, s, c, p) && 0 <= q < |x.b| && 0 <= p < |s.g| && q < |s.g|
    requires |x.f| >= |x.b| && 0 <= x.f[q] < |x.b| && !Filled(x, s, x.b[x.f[q]], q)
    ensures s.g[p] != x.f[q]
  {
    hide Finished, CtxOk, ScanOk, Bounds, CopyStart, CopyEnd;
    FinishedFacts(x, s);
    if s.g[p] == x.f[q] {
      SlotHolds(x, s, c, p);
      ColumnAt(x, q);
      FullOrNone(x, s, c, p);
    }
  }

  /** A rotation of column `ss` is listed in its small bucket. */
  lemma ColumnAt(x: Ctx, q: int)
    requires CtxOk(x) && 0 <= q < |x.b| <= |x.f| && 0 <= x.f[q] < |x.b| && x.b[Next(|x.b|, x.f[q])] == x.ss
    ensures 0 <= x.b[x.f[q]] < 256 && St(x, x.b[x.f[q]]) <= q < En(x, x.b[x.f[q]])
  {
    hide Ascending, IsStarts;
  }

  lemma StillPlaced(x: Ctx, s: Scan)
    requires Finished(x, s)
    ensures Placed(x.b, x.starts, s.g) && |s.g| == |x.f|
  {
    hide Finished, CtxOk, ScanOk, Filled, St, En, CopyStart, CopyEnd, Key, Lo, Hi, InBucket, IsStarts, Placed;
    FinishedFacts(x, s);
    CtxPlaced(x);
    forall p | 0 <= p < |x.b|
      ensures 0 <= s.g[p] < |x.b| && InBucket(x.starts, Key(x.b, s.g[p]), p)
    {
      PlacedAt(x, s, p);
    }
    forall p, q | 0 <= p < q < |x.b|
      ensures s.g[p] != s.g[q]
    {
      PlacedOnce(x, s, p, q);
    }
    PlacedFrom(x, s);
  }

  lemma PlacedFrom(x: Ctx, s: Scan)
    requires CtxOk(x) && |s.g| == |x.f|
    requires forall p :: 0 <= p < |x.b| <= |s.g| ==> 0 <= s.g[p] < |x.b|
    requires forall p :: 0 <= p < |x.b| <= |s.g| ==> InBucket(x.starts, Key(x.b, s.g[p]), p)
    requires forall p, q :: 0 <= p < q < |x.b| <= |s.g| ==> s.g[p] != s.g[q]
    ensures Placed(x.b, x.starts, s.g)
  { hide Ascending, IsStarts, InBucket, Key; }

  lemma PlacedAt(x: Ctx, s: Scan, p: int)
    requires Finished(x, s) && 0 <= p < |x.b|
    ensures p < |s.g| && 0 <= s.g[p] < |x.b| && InBucket(x.starts, Key(x.b, s.g[p]), p)
  {
    hide Finished, CtxOk, ScanOk, Bounds, Filled, InBucket, Key, St, En;
    FinishedFacts(x, s);
    ListedAt(x, p);
    var c := x.b[x.f[p]];
    if Filled(x, s, c, p) {
      SlotHolds(x, s, c, p);
      FilledBucket(x, s, c, p);
      KeyIs(x.b, s.g[p], c, x.ss);
    } else {
      KeptAt(x, s, p);
    }
  }

  lemma KeyIs(b: seq<int>, r: int, c: int, d: int)
    requires 0 <= r < |b| && b[r] == c && b[Next(|b|, r)] == d
    ensures Key(b, r) == 256 * c + d
  { }

  lemma FilledBucket(x: Ctx, s: Scan, c: int, p: int)
    requires CtxOk(x) && Filled(x, s, c, p)
    ensures InBucket(x.starts, 256 * c + x.ss, p)
  {
    hide CtxOk, CopyStart, CopyEnd;
    CtxPlaced(x);
  }

  lemma ListedAt(x: Ctx, p: int)
    requires CtxOk(x) && 0 <= p < |x.b|
    ensures |x.b| <= |x.f| && 0 <= x.f[p] < |x.b| && InBucket(x.starts, Key(x.b, x.f[p]), p)
  { hide Ascending, InBucket, IsStarts, Key; }

  lemma PlacedOnce(x: Ctx, s: Scan, p: int, q: int)
    requires Finished(x, s) && 0 <= p < q < |x.b|
    ensures q < |s.g| && s.g[p] != s.g[q]
  {
    hide Finished, CtxOk, ScanOk, Bounds, Filled, InBucket, Key, St, En;
    FinishedFacts(x, s);
    ListedAt(x, p);
    ListedAt(x, q);
    var c, d := x.b[x.f[p]], x.b[x.f[q]];
    if Filled(x, s, c, p) && Filled(x, s, d, q) {
      SlotHolds(x, s, c, p);
      SlotHolds(x, s, d, q);
      if c == d { SlotsDiffer(x, s, c, p, q); }
    } else if Filled(x, s, c, p) {
      SlotAt(x, s, c, p);
      KeptAt(x, s, q);
      StayedIn(x, s, c, p, q);
    } else if Filled(x, s, d, q) {
      SlotAt(x, s, d, q);
      KeptAt(x, s, p);
      StayedIn(x, s, d, q, p);
    } else {
      KeptAt(x, s, p);
      KeptAt(x, s, q);
      ListedOnce(x, p, q);
    }
  }

  /** The region, once filled, is in order throughout. */
  lemma RegionOrder(x: Ctx, s: Scan, p: int, q: int)
    requires Finished(x, s) && InRegion(x, s, p) && InRegion(x, s, q) && p < q
    ensures 0 <= p && q < |s.g| && RotOrder(x.b)(s.g[p], s.g[q])
  {
    hide Finished, CtxOk, ScanOk, Bounds, St, En, CopyStart, CopyEnd, Lo, Hi, RotOrder, Descends, Ascends;
    FinishedFacts(x, s);
    BoundsOf(x, s);
    if q < CopyStart(s, x.ss) || CopyEnd(s, x.ss) < p {
      SortedPair(x, s, p, q);
    } else {
      RegionHolds(x, s, p);
      RegionHolds(x, s, q);
      FrontBeforeBack(x.b, s.g[p], s.g[q]);
    }
  }

  lemma FrontBeforeBack(b: seq<int>, u: int, v: int)
    requires 0 <= u < |b| && 0 <= v < |b| && b[u] == b[v] && Descends(b, u) && Ascends(b, v)
    ensures RotOrder(b)(u, v)
  {
    DescendsFirst(b, u, v, |b|);
  }

  /** Two filled slots of a small bucket are in order. */
  lemma SlotOrder(x: Ctx, s: Scan, c: int, p: int, q: int)
    requires Finished(x, s) && Filled(x, s, c, p) && Filled(x, s, c, q) && p < q
    ensures 0 <= p && q < |s.g| && RotOrder(x.b)(s.g[p], s.g[q])
  {
    hide Finished, CtxOk, ScanOk, Bounds, St, En, CopyStart, CopyEnd, Lo, Hi, RotOrder, Filled, InRegion, Scanned;
    FinishedFacts(x, s);
    SlotAt(x, s, c, p);
    SlotAt(x, s, c, q);
    InOrderSlots(x, s, c, p, q);
    RegionOrder(x, s, s.src[p], s.src[q]);
    PrevOrder(x.b, s.g[p], s.g[q]);
  }

  /** Column `ss` is sorted, the buckets done before included. */
  lemma ColumnSorted(x: Ctx, s: Scan, c: int)
    requires Finished(x, s) && 0 <= c < 256 && |x.done| == 256 && !x.done[c]
    ensures Ascending(s.g, RotOrder(x.b), St(x, c), En(x, c) - 1)
  {
    hide Finished, CtxOk, ScanOk, St, En, CopyStart, CopyEnd, Lo, Hi, RotOrder, OneRun;
    FinishedFacts(x, s);
    Spread(x, s, c);
    forall p, q | St(x, c) <= p < q <= En(x, c) - 1
      ensures RotOrder(x.b)(s.g[p], s.g[q])
    {
      if OneRun(x) {
        StillPlaced(x, s);
        RunOrder(x, s, p, q);
      } else {
        ColumnFull(x, s, c);
        SlotOrder(x, s, c, p, q);
      }
    }
  }

  lemma RunOrder(x: Ctx, s: Scan, p: int, q: int)
    requires OneRun(x) && Placed(x.b, x.starts, s.g) && 0 <= p < |x.b| && 0 <= q < |x.b|
    ensures RotOrder(x.b)(s.g[p], s.g[q])
  {
    hide Uniform, IsStarts, InBucket;
    UniformEqual(x.b, x.ss, s.g[p], s.g[q], |x.b|);
  }

  /** Everything else is where it was. */
  lemma OthersKept(x: Ctx, s: Scan, p: int)
    requires Finished(x, s) && 0 <= p < |x.b| <= |x.f| && 0 <= x.f[p] < |x.b| && 0 <= x.b[x.f[p]] < 256 &&
        |x.done| == 256
    requires x.b[Next(|x.b|, x.f[p])] != x.ss || x.done[x.b[x.f[p]]]
    ensures |s.g| == |x.f| && s.g[p] == x.f[p]
  {
    hide Finished, CtxOk, ScanOk, Bounds, St, En;
    FinishedFacts(x, s);
    var c := x.b[x.f[p]];
    if Filled(x, s, c, p) { ColumnKey(x, c, p); }
    hide Filled;
    KeptAt(x, s, p);
  }
}
