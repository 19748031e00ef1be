/** mainSort (blocksort.c): radix sort on two bytes, then one big bucket after the other: its small buckets
    are quicksorted unless a scan has sorted them already, a scan of it sorts the small buckets that lead to
    it, and the quadrants remember its order. */
module MainSort {
  import opened Rotations
  import opened Permutations
  import opened Bwt
  import opened InverseBwt
  import opened Bits
  import opened ThreeWay
  import opened ShellSort
  import opened MainOrder
  import opened Power
  import opened Multiples
  import opened Repetition
  import opened Quadrants
  import opened MainSimple
  import MainQSort
  import opened SmallBuckets
  import opened BucketOrder
  import opened PointerScan
  import opened MainRadix

  // ----- ftab and its flag bit -----

  /** SETMASK: bit 21. */
  const SETMASK := 0x20_0000

  predicate IsSet(v: int) { (v / SETMASK) % 2 == 1 }

  /** `v & CLEARMASK`. */
  function Clear(v: int): int { if IsSet(v) then v - SETMASK else v }

  /** `v | SETMASK`. */
  function Set(v: int): int { if IsSet(v) then v else v + SETMASK }

  lemma MaskFacts(v: int, flag: bool)
    requires 0 <= v < SETMASK
    ensures var w := if flag then v + SETMASK else v; IsSet(w) == flag && Clear(w) == v && Set(w) == v + SETMASK
  { }

  /** ftab holds the bucket starts, flagged where the small bucket is sorted. */
  ghost predicate FtabOk(ftab: seq<int>, starts: seq<int>, flags: seq<bool>) {
    && |ftab| == |starts| == 65537 && |flags| == 65536 && ftab[65536] == starts[65536]
    && (forall k :: 0 <= k <= 65536 ==> 0 <= starts[k] < SETMASK)
    && forall k :: 0 <= k < 65536 ==> ftab[k] == if flags[k] then starts[k] + SETMASK else starts[k]
  }

  lemma FtabAt(ftab: seq<int>, starts: seq<int>, flags: seq<bool>, k: int)
    requires FtabOk(ftab, starts, flags) && 0 <= k <= 65536
    ensures |ftab| == |starts| == 65537 && |flags| == 65536 && Clear(ftab[k]) == starts[k]
    ensures k < 65536 ==> IsSet(ftab[k]) == flags[k] && FtabOk(ftab[k := Set(ftab[k])], starts, flags[k := true])
  {
    MaskFacts(starts[k], k < 65536 && flags[k]);
    hide IsSet, Clear, Set;
  }

  ghost function FlagAt(flags: seq<bool>, c: int, d: int): bool
    requires |flags| == 65536 && 0 <= c < 256 && 0 <= d < 256
  {
    flags[256 * c + d]
  }

  /** Flagged are the small buckets of a big bucket done, those leading to one, and the first `j` of [ss]. */
  ghost predicate FlagsAre(flags: seq<bool>, done: seq<bool>, ss: int, j: int) {
    && |flags| == 65536 && |done| == 256
    && forall c, d :: 0 <= c < 256 && 0 <= d < 256 ==>
         (FlagAt(flags, c, d) <==> done[c] || done[d] || (c == ss && d < j && d != ss))
  }

  lemma FlagMore(flags: seq<bool>, done: seq<bool>, ss: int, j: int)
    requires FlagsAre(flags, done, ss, j) && 0 <= ss < 256 && 0 <= j < 256
    ensures j == ss ==> FlagsAre(flags, done, ss, j + 1)
    ensures j != ss ==> FlagsAre(flags[256 * ss + j := true], done, ss, j + 1)
  {
    if j != ss {
      var more := flags[256 * ss + j := true];
      forall c, d | 0 <= c < 256 && 0 <= d < 256
        ensures FlagAt(more, c, d) <==> done[c] || done[d] || (c == ss && d < j + 1 && d != ss)
      {
        assert FlagAt(more, c, d) == (if c == ss && d == j then true else FlagAt(flags, c, d));
      }
    }
  }

  // ----- The running order -----

  /** BIGFREQ, before any flag is set. */
  function BigFreq(ftab: seq<int>, c: int): int
    requires |ftab| == 65537
  {
    if 0 <= c < 256 then ftab[256 * c + 256] - ftab[256 * c] else 0
  }

  ghost function FreqOrder(ftab: seq<int>): (int, int) -> bool
  {
    (u, v) =>
      && |ftab| == 65537 && 0 <= u < 256 && 0 <= v < 256
      && ftab[256 * u + 256] - ftab[256 * u] <= ftab[256 * v + 256] - ftab[256 * v]
  }

  ghost predicate Bucketwise(f: seq<int>) { forall x :: 0 <= x < |f| ==> 0 <= f[x] < 256 }

  /** One entry sinks to its place among those a multiple of `h` below it. */
  method SinkBucket(order: array<int>, ftab: seq<int>, i: int, h: int)
    requires order.Length == 256 && |ftab| == 65537 && 0 < h <= i < 256 && Bucketwise(order[..])
    requires h == 1 ==> Ascending(order[..], FreqOrder(ftab), 0, i - 1)
    modifies order
    ensures Rearranged(old(order[..]), order[..], 0, i)
    ensures h == 1 ==> Ascending(order[..], FreqOrder(ftab), 0, i)
  {
    hide Ascending, Sinking, Rearranged, Slid, FreqOrder, Transitive, Bucketwise, BigFreq;
    ghost var f, le := order[..], FreqOrder(ftab);
    ghost var cur := f;
    FreqOrderTransitive(ftab);
    SinkStart(f, le, 0, i, h);
    var vv := order[i];
    var j := i;
    BucketOrders(f, ftab, i, i);
    while BigFreq(ftab, order[j - h]) > BigFreq(ftab, vv)
      invariant h <= j <= i
      invariant cur == order[..] && Sinking(f, cur, le, 0, j, i, h)
      decreases j
    {
      Below(f, cur, le, 0, j, i, h);
      BucketOrders(f, ftab, i, j - h);
      SinkStep(f, cur, le, 0, j, i, h);
      order[j] := order[j - h];
      cur := cur[j := cur[j - h]];
      j := j - h;
      if j <= h - 1 { break; }
    }
    if j >= h {
      Below(f, cur, le, 0, j, i, h);
      BucketOrders(f, ftab, j - h, i);
    }
    SinkDone(f, cur, le, 0, j, i, h);
    order[j] := vv;
  }

  lemma FreqOrderTransitive(ftab: seq<int>)
    ensures Transitive(FreqOrder(ftab))
  { }

  lemma BucketOrders(f: seq<int>, ftab: seq<int>, x: int, y: int)
    requires Bucketwise(f) && |ftab| == 65537 && 0 <= x < |f| && 0 <= y < |f|
    ensures BigFreq(ftab, f[x]) <= BigFreq(ftab, f[y]) ==> FreqOrder(ftab)(f[x], f[y])
  { }

  /** Which big bucket comes when: all of them, the least full first. */
  method OrderBigBuckets(order: array<int>, ftab: seq<int>)
    requires order.Length == 256 && |ftab| == 65537 && IsPerm(order[..], 256)
    modifies order
    ensures IsPerm(order[..], 256) && Ascending(order[..], FreqOrder(ftab), 0, 255)
  {
    hide Ascending, Rearranged, FreqOrder, BigFreq;
    var h := 1;
    h := 3 * h + 1;
    while h <= 256
      invariant h == 4 || h == 13 || h == 40 || h == 121 || h == 364
      decreases 364 - h
    {
      h := 3 * h + 1;
    }
    while true
      invariant h == 4 || h == 13 || h == 40 || h == 121 || h == 364
      invariant IsPerm(order[..], 256)
      decreases h
    {
      h := h / 3;
      StrideBuckets(order, ftab, h);
      if h == 1 { break; }
    }
  }

  method StrideBuckets(order: array<int>, ftab: seq<int>, h: int)
    requires order.Length == 256 && |ftab| == 65537 && 0 < h < 256 && IsPerm(order[..], 256)
    modifies order
    ensures IsPerm(order[..], 256)
    ensures h == 1 ==> Ascending(order[..], FreqOrder(ftab), 0, 255)
  {
    hide Ascending, Rearranged, FreqOrder, BigFreq, IsPerm, Bucketwise;
    OneEntry(order[..], FreqOrder(ftab));
    for i := h to 256
      invariant IsPerm(order[..], 256)
      invariant h == 1 ==> Ascending(order[..], FreqOrder(ftab), 0, i - 1)
    {
      ghost var f := order[..];
      PermBucketwise(f);
      SinkBucket(order, ftab, i, h);
      PermRearranged(f, order[..], i);
    }
  }

  lemma OneEntry(f: seq<int>, le: (int, int) -> bool)
    requires |f| == 256
    ensures Ascending(f, le, 0, 0)
  { }

  lemma PermBucketwise(f: seq<int>)
    requires IsPerm(f, 256)
    ensures Bucketwise(f)
  { }

  lemma PermRearranged(f: seq<int>, g: seq<int>, i: int)
    requires IsPerm(f, 256) && Rearranged(f, g, 0, i)
    ensures IsPerm(g, 256)
  {
    MultisetPerm(f, g, 256);
  }

  // ----- Step 1 -----

  /** What every step keeps. */
  ghost predicate Sorted(b: seq<int>, starts: seq<int>, f: seq<int>, ftab: seq<int>, flags: seq<bool>) {
    Placed(b, starts, f) && |b| >= 2 && FtabOk(ftab, starts, flags) && FlagsSorted(b, starts, f, flags)
  }

  /** One small bucket, quicksorted unless it is sorted already or has at most one entry. */
  method SortSmall(ptr: array<int>, block: seq<int>, quadrant: seq<int>, ftab: array<int>, nblock: nat, sb: int,
                   budget0: int,
                   ghost b: seq<int>, ghost starts: seq<int>, ghost flags: seq<bool>)
    returns (budget: int)
    requires ptr != ftab && nblock == |b| <= 900000 && Readable(b, block, quadrant) && budget0 >= 0 && 0 <= sb < 65536
    requires Sorted(b, starts, ptr[..], ftab[..], flags)
    modifies ptr, ftab
    ensures budget <= budget0
    ensures budget >= 0 ==> Sorted(b, starts, ptr[..], ftab[..], flags[sb := true])
  {
    hide Readable, Placed, FlagsSorted, FtabOk, Rearranged, Ascending, IsStarts, RotOrder, Prefixed, IsSet, Clear, Set;
    hide Overshot;
    budget := budget0;
    ghost var f := ptr[..];
    FtabAt(ftab[..], starts, flags, sb);
    FtabAt(ftab[..], starts, flags, sb + 1);
    PlacedStarts(b, starts, f);
    StartsRange(starts, |b|, sb, sb + 1);
    if !IsSet(ftab[sb]) {
      var lo := Clear(ftab[sb]);
      var hi := Clear(ftab[sb + 1]) - 1;
      BucketPrefixed(b, starts, f, sb);
      if hi > lo {
        budget := MainQSort.QSort3(ptr, block, quadrant, nblock, lo, hi, 2, budget, b);
        if budget < 0 { return; }
        RearrangedPlaced(b, starts, f, ptr[..], sb);
      } else {
        Trivial(b, f, lo, hi);
      }
      OneMoreSorted(b, starts, f, ptr[..], flags, sb);
    } else {
      assert flags[sb := true] == flags;
    }
    ftab[sb] := Set(ftab[sb]);
  }

  lemma Trivial(b: seq<int>, f: seq<int>, lo: int, hi: int)
    requires 0 <= lo && hi < |f| && hi <= lo
    ensures Ascending(f, RotOrder(b), lo, hi) && Rearranged(f, f, lo, hi)
  { }

  /** Step 1: all small buckets [ss, j] except [ss, ss]. */
  method SortRest(ptr: array<int>, block: seq<int>, quadrant: seq<int>, ftab: array<int>, nblock: nat, ss: int,
                  budget0: int,
                  ghost b: seq<int>, ghost starts: seq<int>, ghost done: seq<bool>, ghost flags0: seq<bool>)
    returns (budget: int, ghost flags: seq<bool>)
    requires ptr != ftab && nblock == |b| <= 900000 && Readable(b, block, quadrant) && budget0 >= 0 && 0 <= ss < 256
    requires Sorted(b, starts, ptr[..], ftab[..], flags0) && FlagsAre(flags0, done, ss, 0)
    modifies ptr, ftab
    ensures budget <= budget0
    ensures budget >= 0 ==> Sorted(b, starts, ptr[..], ftab[..], flags) && FlagsAre(flags, done, ss, 256)
  {
    hide Readable, Sorted, FlagsAre;
    budget, flags := budget0, flags0;
    for j := 0 to 256
      invariant 0 <= budget <= budget0
      invariant Sorted(b, starts, ptr[..], ftab[..], flags) && FlagsAre(flags, done, ss, j)
    {
      FlagMore(flags, done, ss, j);
      FlagCount(flags, done, ss, j);
      if j != ss {
        budget := SortSmall(ptr, block, quadrant, ftab, nblock, 256 * ss + j, budget, b, starts, flags);
        if budget < 0 { return; }
        flags := flags[256 * ss + j := true];
      }
    }
  }

  lemma FlagCount(flags: seq<bool>, done: seq<bool>, ss: int, j: int)
    requires FlagsAre(flags, done, ss, j)
    ensures |flags| == 65536 && |done| == 256
  { }

  // ----- Step 2 -----

  /** The scan as the arrays hold it. */
  ghost predicate Holds(s: Scan, ptr: seq<int>, copyStart: seq<int>, copyEnd: seq<int>) {
    s.g == ptr && s.cs == copyStart && s.ce == copyEnd
  }

  /** One scanned position: the rotation a place back goes to its small bucket, unless that is done. */
  method ScanOne(ptr: array<int>, block: seq<int>, bigDone: array<bool>, copies: array<int>, fwd: bool, j: int,
                 nblock: nat,
                 ghost x: Ctx, ghost s: Scan, ghost others: seq<int>)
    returns (ghost s': Scan)
    requires ptr != copies && nblock == |x.b| <= |block| && (forall i :: 0 <= i < nblock ==> block[i] == x.b[i])
    requires bigDone.Length == 256 && x.done == bigDone[..] && CtxOk(x) && ScanOk(x, s) && Going(x, s, fwd) &&
        j == At(s, fwd)
    requires if fwd then Holds(s, ptr[..], copies[..], others) else Holds(s, ptr[..], others, copies[..])
    modifies ptr, copies
    ensures ScanOk(x, s')
    ensures if fwd then Holds(s', ptr[..], copies[..], others) else Holds(s', ptr[..], others, copies[..])
    ensures if fwd then s'.j1 == s.j1 + 1 && s'.j2 == s.j2 else s'.j2 == s.j2 - 1 && s'.j1 == s.j1
  {
    hide CtxOk, ScanOk, Going, InRegion, Scanned, CanPut, Descends, Ascends, Lo, Hi;
    AtInRegion(x, s, fwd);
    var k := ptr[j] - 1;
    if k < 0 { k := k + nblock; }
    PrevNext(nblock, s.g[j]);
    assert k == Prev(nblock, s.g[j]);
    ByteAt(x, k);
    var c1 := block[k];
    if !bigDone[c1] {
      PutReady(x, s, fwd, c1, k);
      PutFields(x, s, fwd, c1, k);
      PutOk(x, s, fwd, c1, k);
      s' := Put(s, fwd, c1, k);
      ptr[copies[c1]] := k;
      copies[c1] := if fwd then copies[c1] + 1 else copies[c1] - 1;
    } else {
      SkipOk(x, s, fwd);
      s' := Skip(s, fwd);
    }
  }

  /** The scan from both ends. */
  method ScanBoth(ptr: array<int>, block: seq<int>, bigDone: array<bool>, copyStart: array<int>, copyEnd: array<int>,
                  ss: nat, first: int, last: int, nblock: nat,
                  ghost x: Ctx, ghost s0: Scan)
    returns (ghost s: Scan)
    requires ptr != copyStart && ptr != copyEnd && copyStart != copyEnd && nblock == |x.b| <= |block|
    requires forall i :: 0 <= i < nblock ==> block[i] == x.b[i]
    requires bigDone.Length == 256 && x.done == bigDone[..] && CtxOk(x) && Fresh(x, s0) &&
        Holds(s0, ptr[..], copyStart[..], copyEnd[..])
    requires ss == x.ss && first == Lo(x) && last == Hi(x) - 1 && copyStart.Length == copyEnd.Length == 256
    modifies ptr, copyStart, copyEnd
    ensures Finished(x, s) && Holds(s, ptr[..], copyStart[..], copyEnd[..])
  {
    hide CtxOk, ScanOk, Lo, Hi, St, En;
    s := s0;
    FreshOk(x, s);
    FreshEnds(x, s);
    PutLengths(x);
    var j := first;
    while j < copyStart[ss]
      invariant Holds(s, ptr[..], copyStart[..], copyEnd[..]) && ScanOk(x, s) && j == s.j1 && s.j2 == last
      decreases Hi(x) - j
    {
      StillInside(x, s, true);
      s := ScanOne(ptr, block, bigDone, copyStart, true, j, nblock, x, s, copyEnd[..]);
      j := j + 1;
    }
    BoundsOf(x, s);
    j := last;
    ghost var met := s.j1;
    while j > copyEnd[ss]
      invariant Holds(s, ptr[..], copyStart[..], copyEnd[..]) && ScanOk(x, s) && j == s.j2 && s.j1 == met &&
          copyStart[ss] == met
      decreases j - Lo(x)
    {
      StillInside(x, s, false);
      s := ScanOne(ptr, block, bigDone, copyEnd, false, j, nblock, x, s, copyStart[..]);
      j := j - 1;
    }
  }

  lemma FreshEnds(x: Ctx, s: Scan)
    requires Fresh(x, s)
    ensures s.j1 == Lo(x) && s.j2 == Hi(x) - 1 && |s.cs| == |s.ce| == 256
  { hide St, En, Lo, Hi; }

  lemma StillInside(x: Ctx, s: Scan, fwd: bool)
    requires CtxOk(x) && ScanOk(x, s) && Going(x, s, fwd)
    ensures Lo(x) <= At(s, fwd) < Hi(x)
  {
    hide CtxOk, ScanOk, Going, Lo, Hi, InRegion, Scanned, Descends, Ascends;
    AtInRegion(x, s, fwd);
  }

  // ----- What the scan sorts -----

  lemma FlaggedSorted(b: seq<int>, starts: seq<int>, f: seq<int>, flags: seq<bool>, c: int, d: int)
    requires FlagsSorted(b, starts, f, flags) && 0 <= c < 256 && 0 <= d < 256 && FlagAt(flags, c, d)
    ensures |flags| == 65536 && BucketSorted(b, starts, f, 256 * c + d)
  { hide BucketSorted; }

  lemma FlagIs(flags: seq<bool>, done: seq<bool>, ss: int, j: int, c: int, d: int)
    requires FlagsAre(flags, done, ss, j) && 0 <= c < 256 && 0 <= d < 256
    ensures |flags| == 65536 && |done| == 256 &&
        (FlagAt(flags, c, d) <==> done[c] || done[d] || (c == ss && d < j && d != ss))
  { hide FlagAt; }

  /** After step 1 the scan can start. */
  lemma CtxReady(x: Ctx, ftab: seq<int>, flags: seq<bool>)
    requires Sorted(x.b, x.starts, x.f, ftab, flags) && FlagsAre(flags, x.done, x.ss, 256) && x.ss < 256 &&
        |x.done| == 256 && !x.done[x.ss]
    ensures CtxOk(x)
  {
    hide FlagsAre, FlagsSorted, Placed, BucketSorted, FlagAt, FtabOk, Ascending;
    forall k | 256 * x.ss <= k < 256 * x.ss + 256 && k != 256 * x.ss + x.ss
      ensures BucketSorted(x.b, x.starts, x.f, k)
    {
      var d := k - 256 * x.ss;
      FlagIs(flags, x.done, x.ss, 256, x.ss, d);
      FlaggedSorted(x.b, x.starts, x.f, flags, x.ss, d);
    }
    SidesSorted(x);
  }

  lemma SidesSorted(x: Ctx)
    requires Placed(x.b, x.starts, x.f) && |x.b| >= 2 && x.ss < 256 && |x.done| == 256 && !x.done[x.ss]
    requires forall k :: 256 * x.ss <= k < 256 * x.ss + 256 && k != 256 * x.ss + x.ss ==>
        BucketSorted(x.b, x.starts, x.f, k)
    ensures CtxOk(x)
  {
    hide Placed, BucketSorted, IsStarts, RotOrder;
    PlacedStarts(x.b, x.starts, x.f);
    StartsCount(x.starts, |x.b|);
    RunOfBuckets(x.b, x.starts, x.f, 256 * x.ss, 256 * x.ss + x.ss);
    RunOfBuckets(x.b, x.starts, x.f, 256 * x.ss + x.ss + 1, 256 * x.ss + 256);
  }

  lemma StartsCount(starts: seq<int>, n: nat)
    requires IsStarts(starts, n)
    ensures |starts| == 65537
  { }

  /** The flags of column `ss` up to row `j` added. */
  ghost predicate ColumnFlags(fl: seq<bool>, flags: seq<bool>, ss: int, j: int) {
    && |fl| == |flags| == 65536
    && forall c, d :: 0 <= c < 256 && 0 <= d < 256 ==> (FlagAt(fl, c, d) <==> FlagAt(flags, c, d) || (d == ss && c < j))
  }

  lemma ColumnMore(fl: seq<bool>, flags: seq<bool>, ss: int, j: int)
    requires ColumnFlags(fl, flags, ss, j) && 0 <= ss < 256 && 0 <= j < 256
    ensures ColumnFlags(fl[256 * j + ss := true], flags, ss, j + 1)
  {
    var more := fl[256 * j + ss := true];
    forall c, d | 0 <= c < 256 && 0 <= d < 256
      ensures FlagAt(more, c, d) <==> FlagAt(flags, c, d) || (d == ss && c < j + 1)
    {
      assert FlagAt(more, c, d) == (if c == j && d == ss then true else FlagAt(fl, c, d));
    }
  }

  lemma ColumnDone(fl: seq<bool>, flags: seq<bool>, done: seq<bool>, ss: int)
    requires ColumnFlags(fl, flags, ss, 256) && FlagsAre(flags, done, ss, 256) && 0 <= ss < 256 && |done| == 256
    ensures FlagsAre(fl, done[ss := true], 0, 0)
  {
    hide FlagAt, FlagsAre;
    forall c, d | 0 <= c < 256 && 0 <= d < 256
      ensures FlagAt(fl, c, d) <==> done[ss := true][c] || done[ss := true][d]
    {
      FlagIs(flags, done, ss, 256, c, d);
    }
    FlagsFrom(fl, done[ss := true]);
  }

  lemma FlagsFrom(fl: seq<bool>, done: seq<bool>)
    requires |fl| == 65536 && |done| == 256
    requires forall c, d :: 0 <= c < 256 && 0 <= d < 256 ==> (FlagAt(fl, c, d) <==> done[c] || done[d])
    ensures FlagsAre(fl, done, 0, 0)
  { hide FlagAt; }

  /** Every small bucket flagged now is sorted. */
  lemma ScanSorted(x: Ctx, s: Scan, flags: seq<bool>, fl: seq<bool>)
    requires Finished(x, s) && FlagsSorted(x.b, x.starts, x.f, flags) && FlagsAre(flags, x.done, x.ss, 256) &&
        x.ss < 256
    requires ColumnFlags(fl, flags, x.ss, 256)
    ensures FlagsSorted(x.b, x.starts, s.g, fl)
  {
    hide Finished, FlagsAre, BucketSorted, ColumnFlags, FlagAt, FlagsSorted;
    ColumnSizes(fl, flags, x.ss);
    forall k | 0 <= k < 65536 && fl[k]
      ensures BucketSorted(x.b, x.starts, s.g, k)
    {
      FlagSplit(fl, k);
      ScanSortedAt(x, s, flags, fl, k / 256, k % 256);
    }
    AllFlags(x.b, x.starts, s.g, fl);
  }

  lemma ColumnSizes(fl: seq<bool>, flags: seq<bool>, ss: int)
    requires ColumnFlags(fl, flags, ss, 256)
    ensures |fl| == |flags| == 65536
  { hide FlagAt; }

  lemma FlagSplit(fl: seq<bool>, k: int)
    requires |fl| == 65536 && 0 <= k < 65536
    ensures 0 <= k / 256 < 256 && 0 <= k % 256 < 256 && k == 256 * (k / 256) + k % 256 &&
        FlagAt(fl, k / 256, k % 256) == fl[k]
  { }

  lemma AllFlags(b: seq<int>, starts: seq<int>, f: seq<int>, fl: seq<bool>)
    requires |fl| == 65536 && forall k :: 0 <= k < 65536 && fl[k] ==> BucketSorted(b, starts, f, k)
    ensures FlagsSorted(b, starts, f, fl)
  { hide BucketSorted; }

  lemma ScanSortedAt(x: Ctx, s: Scan, flags: seq<bool>, fl: seq<bool>, c: int, d: int)
    requires Finished(x, s) && FlagsSorted(x.b, x.starts, x.f, flags) && FlagsAre(flags, x.done, x.ss, 256) &&
        x.ss < 256
    requires ColumnFlags(fl, flags, x.ss, 256) && 0 <= c < 256 && 0 <= d < 256 && |fl| == 65536 && FlagAt(fl, c, d)
    ensures BucketSorted(x.b, x.starts, s.g, 256 * c + d)
  {
    hide Finished, FlagsAre, BucketSorted, FlagAt, FlagsSorted, CtxOk, ScanOk, Bounds;
    FinishedFacts(x, s);
    FlagIs(flags, x.done, x.ss, 256, c, d);
    if d == x.ss && !x.done[c] {
      ColumnSorted(x, s, c);
      ColumnBucket(x, s, c);
    } else {
      FlaggedSorted(x.b, x.starts, x.f, flags, c, d);
      BucketKept(x, s, c, d);
    }
  }

  lemma ColumnBucket(x: Ctx, s: Scan, c: int)
    requires CtxOk(x) && 0 <= c < 256 && Ascending(s.g, RotOrder(x.b), St(x, c), En(x, c) - 1)
    ensures BucketSorted(x.b, x.starts, s.g, 256 * c + x.ss)
  {
    hide CtxOk, RotOrder, Ascending;
    CtxPlaced(x);
  }

  /** A small bucket the scan does not touch. */
  lemma BucketKept(x: Ctx, s: Scan, c: int, d: int)
    requires Finished(x, s) && 0 <= c < 256 && 0 <= d < 256 && |x.done| == 256 &&
        BucketSorted(x.b, x.starts, x.f, 256 * c + d)
    requires d != x.ss || x.done[c]
    ensures BucketSorted(x.b, x.starts, s.g, 256 * c + d)
  {
    hide Finished, CtxOk, ScanOk, Bounds, RotOrder, Placed, IsStarts, Ascending;
    FinishedFacts(x, s);
    CtxListing(x);
    StillPlaced(x, s);
    var k := 256 * c + d;
    forall p | x.starts[k] <= p <= x.starts[k + 1] - 1
      ensures 0 <= p < |x.f| && s.g[p] == x.f[p]
    {
      BucketKey(x.b, x.starts, x.f, k, p);
      PlacedStarts(x.b, x.starts, x.f);
      KeyParts(x.b, x.starts, x.f, x.f[p], c, d);
      OthersKept(x, s, p);
    }
    SameRange(x.f, s.g, RotOrder(x.b), x.starts[k], x.starts[k + 1] - 1);
  }

  lemma CtxListing(x: Ctx)
    requires CtxOk(x)
    ensures Placed(x.b, x.starts, x.f) && |x.starts| == 65537 && |x.b| >= 2
  {
    hide Ascending, InBucket, Key;
  }

  /** copyStart and copyEnd: the small buckets [j, ss]. */
  method CopyEnds(ftab: array<int>, copyStart: array<int>, copyEnd: array<int>, ss: nat, ghost x: Ctx,
                  ghost flags: seq<bool>)
    requires ftab != copyStart && ftab != copyEnd && copyStart != copyEnd && copyStart.Length == copyEnd.Length == 256
    requires ss == x.ss < 256 && FtabOk(ftab[..], x.starts, flags)
    modifies copyStart, copyEnd
    ensures forall c :: 0 <= c < 256 ==> copyStart[c] == St(x, c) && copyEnd[c] == En(x, c) - 1
  {
    hide FtabOk, Clear, IsSet, Set;
    for j := 0 to 256
      invariant forall c :: 0 <= c < j ==> copyStart[c] == St(x, c) && copyEnd[c] == En(x, c) - 1
    {
      FtabAt(ftab[..], x.starts, flags, 256 * j + ss);
      FtabAt(ftab[..], x.starts, flags, 256 * j + ss + 1);
      copyStart[j] := Clear(ftab[256 * j + ss]);
      copyEnd[j] := Clear(ftab[256 * j + ss + 1]) - 1;
    }
  }

  /** Step 2: the scan, and the flags of the small buckets it has sorted. */
  method ScanBucket(ptr: array<int>, block: seq<int>, ftab: array<int>, bigDone: array<bool>, copyStart: array<int>,
                    copyEnd: array<int>,
                    ss: nat, nblock: nat, ghost b: seq<int>, ghost starts: seq<int>, ghost flags: seq<bool>)
    returns (ghost fl: seq<bool>)
    requires ptr != ftab && ptr != copyStart && ptr != copyEnd && ftab != copyStart && ftab != copyEnd &&
        copyStart != copyEnd
    requires copyStart.Length == copyEnd.Length == bigDone.Length == 256 && ss < 256 && !bigDone[ss] &&
        nblock == |b| <= |block|
    requires forall i :: 0 <= i < nblock ==> block[i] == b[i]
    requires Sorted(b, starts, ptr[..], ftab[..], flags) && FlagsAre(flags, bigDone[..], ss, 256)
    modifies ptr, ftab, copyStart, copyEnd
    ensures Sorted(b, starts, ptr[..], ftab[..], fl) && FlagsAre(fl, bigDone[..][ss := true], 0, 0)
  {
    hide Sorted, FlagsAre, Finished, Placed, FlagsSorted, FtabOk, CtxOk, St, En, Lo, Hi, ScanOk, Fresh, ColumnFlags;
    hide Clear, IsSet, Set, FlagAt;
    ghost var x := Ctx(b, starts, ss, bigDone[..], ptr[..]);
    SortedFacts(b, starts, ptr[..], ftab[..], flags);
    CtxReady(x, ftab[..], flags);
    CopyEnds(ftab, copyStart, copyEnd, ss, x, flags);
    FtabAt(ftab[..], starts, flags, 256 * ss);
    FtabAt(ftab[..], starts, flags, 256 * ss + 256);
    ghost var s := Scan(ptr[..], copyStart[..], copyEnd[..], ptr[..], ptr[..], Lo(x), Hi(x) - 1);
    FreshNow(x, s);
    LoHi(x);
    s := ScanBoth(ptr, block, bigDone, copyStart, copyEnd, ss, Clear(ftab[256 * ss]), Clear(ftab[256 * ss + 256]) - 1,
        nblock, x, s);
    ScanMet(x, s);
    assert copyStart[ss] - 1 == copyEnd[ss] || (copyStart[ss] == 0 && copyEnd[ss] == nblock - 1);
    fl := flags;
    NoColumn(flags, ss);
    for j := 0 to 256
      invariant ptr[..] == s.g && FtabOk(ftab[..], starts, fl) && ColumnFlags(fl, flags, ss, j)
    {
      FtabAt(ftab[..], starts, fl, 256 * j + ss);
      ColumnMore(fl, flags, ss, j);
      ftab[256 * j + ss] := Set(ftab[256 * j + ss]);
      fl := fl[256 * j + ss := true];
    }
    ScanSorted(x, s, flags, fl);
    StillPlaced(x, s);
    ColumnDone(fl, flags, bigDone[..], ss);
    SortedFromFacts(b, starts, ptr[..], ftab[..], fl);
  }

  lemma SortedFacts(b: seq<int>, starts: seq<int>, f: seq<int>, ftab: seq<int>, flags: seq<bool>)
    requires Sorted(b, starts, f, ftab, flags)
    ensures Placed(b, starts, f) && |b| >= 2 && FtabOk(ftab, starts, flags) && FlagsSorted(b, starts, f, flags)
  { hide Placed, FtabOk, FlagsSorted; }

  lemma SortedFromFacts(b: seq<int>, starts: seq<int>, f: seq<int>, ftab: seq<int>, flags: seq<bool>)
    requires Placed(b, starts, f) && |b| >= 2 && FtabOk(ftab, starts, flags) && FlagsSorted(b, starts, f, flags)
    ensures Sorted(b, starts, f, ftab, flags)
  { hide Placed, FtabOk, FlagsSorted; }

  lemma NoColumn(flags: seq<bool>, ss: int)
    requires |flags| == 65536
    ensures ColumnFlags(flags, flags, ss, 0)
  { hide FlagAt; }

  lemma LoHi(x: Ctx)
    requires CtxOk(x)
    ensures |x.starts| == 65537 && x.ss < 256 && Lo(x) == x.starts[256 * x.ss] && Hi(x) == x.starts[256 * x.ss + 256]
  {
    hide CtxOk;
    CtxPlaced(x);
  }

  lemma FreshNow(x: Ctx, s: Scan)
    requires s.g == x.f && |s.src| == |s.dst| == |x.f| && |s.cs| == |s.ce| == 256 && s.j1 == Lo(x) && s.j2 == Hi(x) - 1
    requires forall c :: 0 <= c < 256 ==> s.cs[c] == St(x, c) && s.ce[c] == En(x, c) - 1
    ensures Fresh(x, s)
  { hide St, En, Lo, Hi; }

  // ----- Step 3 -----

  /** How far positions must be shifted to fit in 16 bits. */
  method Shifts(bbSize: nat) returns (shifts: nat)
    ensures LeastShift(bbSize, shifts)
  {
    shifts := 0;
    while Shr(bbSize, shifts) > 65534
      invariant forall n: nat :: n < shifts ==> Shr(bbSize, n) > 65534
      decreases Shr(bbSize, shifts)
    {
      ShrMore(bbSize, shifts);
      shifts := shifts + 1;
    }
  }

  /** The quadrants of big bucket `ss` from position `j` on. */
  ghost predicate Updated(b: seq<int>, f: seq<int>, q0: seq<int>, q: seq<int>, ss: int, first: int, size: nat, j: int,
                          shifts: nat) {
    && |b| <= |q0| == |q| && 0 <= first && first + size <= |f|
    && (forall r :: 0 <= r < |b| && b[r] != ss ==> q[r] == q0[r])
    && (forall p :: first + j <= p < first + size && first <= p ==>
        0 <= f[p] < |b| && q[f[p]] == Shr(p - first, shifts))
    && (N_OVERSHOOT < |b| && |b| + N_OVERSHOOT <= |q|) && (forall r :: 0 <= r < N_OVERSHOOT ==> q[|b| + r] == q[r])
  }

  /** One rotation of the big bucket gets its quadrant, once more if it starts in the overshoot area. */
  method UpdateOne(ptr: seq<int>, quadrant: array<u16>, first: int, j: nat, qVal: u16, nblock: nat,
                   ghost b: seq<int>, ghost q0: seq<int>, ghost ss: int, ghost size: nat, ghost shifts: nat)
    requires nblock == |b| && j < size && Updated(b, ptr, q0, quadrant[..], ss, first, size, j + 1, shifts) &&
        qVal == Shr(j, shifts)
    requires 0 <= ptr[first + j] < nblock && b[ptr[first + j]] == ss
    requires forall p :: first + j < p < first + size ==> ptr[p] != ptr[first + j]
    modifies quadrant
    ensures Updated(b, ptr, q0, quadrant[..], ss, first, size, j, shifts)
  {
    hide Shr;
    var a2update := ptr[first + j];
    quadrant[a2update] := qVal;
    if a2update < N_OVERSHOOT { quadrant[a2update + nblock] := qVal; }
  }

  /** Step 3: positions in the big bucket, shifted to fit, become the quadrants of its rotations. They are strict
      exactly if the number of equal rotations of a kind divides 2^shifts. */
  method UpdateQuadrants(ptr: seq<int>, quadrant: array<u16>, first: int, size: nat, ss: nat, nblock: nat,
                         ghost b: seq<int>, ghost starts: seq<int>)
    returns (ghost g: seq<int>, ghost shifts: nat)
    requires nblock == |b| && nblock + N_OVERSHOOT <= quadrant.Length && Placed(b, starts, ptr) && ss < 256 &&
        |starts| == 65537
    requires first == starts[256 * ss] && size == starts[256 * ss + 256] - first
    requires N_OVERSHOOT < nblock && QuadOk(b, quadrant[..nblock]) && Overshot(quadrant[..nblock], quadrant[..])
    requires Ascending(ptr, RotOrder(b), first, first + size - 1)
    modifies quadrant
    ensures QuadOk(b, quadrant[..nblock]) && Overshot(quadrant[..nblock], quadrant[..])
    ensures 0 <= first && first + size <= |ptr| && g == ptr[first..first + size]
    ensures LeastShift(size, shifts) && Numbered(g, quadrant[..nblock], shifts)
    ensures size > 0 ==> (BucketStrict(b, quadrant[..nblock], ss) <==> Divides(Repeats(b), Pow2(shifts)))
    ensures 0 < size <= 65534 ==> (QuadStrict(b, quadrant[..nblock]) <==> Primitive(b))
  {
    hide Shr, Placed, Ascending, RotOrder, QuadOk, Overshot, Updated, IsStarts, QuadStrict, LeastShift, Numbered;
    hide BucketStrict, Divides;
    hide Pow2, Primitive, Bucket, InOrder;
    PlacedStarts(b, starts, ptr);
    StartsRange(starts, |b|, 256 * ss, 256 * ss + 256);
    g := ptr[first..first + size];
    ghost var q0: seq<int> := quadrant[..];
    assert q0[..|b|] == quadrant[..nblock];
    var n := Shifts(size);
    shifts := n;
    ShiftFits(size, shifts);
    NothingUpdated(b, ptr, q0, ss, first, size, shifts);
    var j := size - 1;
    while j >= 0
      invariant -1 <= j < size && Updated(b, ptr, q0, quadrant[..], ss, first, size, j + 1, shifts)
    {
      ShrMonotone(j, size, shifts);
      BigBucketAt(b, starts, ptr, ss, first, size, j);
      UpdateOne(ptr, quadrant, first, j, Shr(j, n), nblock, b, q0, ss, size, shifts);
      j := j - 1;
    }
    ShiftFits(size, shifts);
    assert Shr(size, shifts) <= 65535;
    ghost var q: seq<int> := quadrant[..];
    assert q[..|b|] == quadrant[..nblock];
    QuadsUpdated(b, starts, ptr, q0, q, ss, first, size, shifts);
    BucketListed(b, starts, ptr, ss, first, size);
    NowNumbered(b, ptr, q0, q, ss, first, size, shifts);
    if size > 0 {
      StrictIff(b, g, q[..|b|], ss, shifts);
      if size <= 65534 { StrictIfNoShift(b, g, q[..|b|], ss, shifts); }
    }
  }

  lemma NowNumbered(b: seq<int>, f: seq<int>, q0: seq<int>, q: seq<int>, ss: int, first: int, size: nat, shifts: nat)
    requires Updated(b, f, q0, q, ss, first, size, 0, shifts)
    ensures Numbered(f[first..first + size], q[..|b|], shifts)
  {
    hide Shr;
    forall p | 0 <= p < size
      ensures 0 <= f[first + p] < |b| && q[f[first + p]] == Shr(p, shifts)
    {
    }
  }

  /** The big bucket by itself. */
  lemma BucketListed(b: seq<int>, starts: seq<int>, f: seq<int>, ss: nat, first: int, size: nat)
    requires Placed(b, starts, f) && ss < 256 && |starts| == 65537 && first == starts[256 * ss] &&
        size == starts[256 * ss + 256] - first
    requires Ascending(f, RotOrder(b), first, first + size - 1) && 0 <= first && first + size <= |f|
    ensures Bucket(b, f[first..first + size], ss) && InOrder(b, f[first..first + size])
  {
    hide Placed, Ascending, RotOrder, IsStarts, RotLe;
    var g := f[first..first + size];
    forall p | 0 <= p < size
      ensures 0 <= g[p] < |b| && b[g[p]] == ss
      ensures forall q :: p < q < size ==> g[p] != g[q] && (0 <= g[q] < |b| ==> RotLe(b, g[p], g[q]))
    {
      BigBucketAt(b, starts, f, ss, first, size, p);
      forall q | p < q < size
        ensures g[p] != g[q] && (0 <= g[q] < |b| ==> RotLe(b, g[p], g[q]))
      {
        assert f[first + q] != f[first + p];
        AscendingPair(f, RotOrder(b), first, first + size - 1, first + p, first + q);
        if 0 <= g[q] < |b| { OrderIsLe(b, g[p], g[q]); }
      }
    }
    forall r | 0 <= r < |b| && b[r] == ss
      ensures r in g
    {
      var u := BigListed(b, starts, f, ss, r);
      assert first <= u < first + size;
      assert g[u - first] == f[u];
    }
  }

  lemma ShiftFits(size: nat, shifts: nat)
    requires LeastShift(size, shifts)
    ensures Shr(size, shifts) <= 65534
  { hide Shr; }

  lemma NothingUpdated(b: seq<int>, f: seq<int>, q: seq<int>, ss: int, first: int, size: nat, shifts: nat)
    requires |b| <= |q| && Overshot(q[..|b|], q) && 0 <= first && first + size <= |f|
    ensures Updated(b, f, q, q, ss, first, size, size, shifts)
  {
    hide Shr;
    forall r | 0 <= r < N_OVERSHOOT
      ensures q[|b| + r] == q[r]
    {
      assert q[|b| + r] == q[..|b|][Wrap(|b|, |b| + r)];
    }
  }

  /** A position of the big bucket. */
  lemma BigBucketAt(b: seq<int>, starts: seq<int>, f: seq<int>, ss: nat, first: int, size: nat, j: int)
    requires Placed(b, starts, f) && ss < 256 && |starts| == 65537 && first == starts[256 * ss] &&
        size == starts[256 * ss + 256] - first
    requires 0 <= j < size
    ensures 0 <= first + j < |b| <= |f| && 0 <= f[first + j] < |b| && b[f[first + j]] == ss
    ensures forall p :: first + j < p < first + size ==> p < |f| && f[p] != f[first + j]
  {
    hide Placed, Key, InBucket;
    RegionListed(b, starts, f, ss, first + j);
    KeyHead(b, starts, f, f[first + j], ss);
    BigBucketDiffers(b, starts, f, ss, first + j);
  }

  lemma BigBucketDiffers(b: seq<int>, starts: seq<int>, f: seq<int>, ss: nat, p0: int)
    requires Placed(b, starts, f) && ss < 256 && |starts| == 65537 && starts[256 * ss] <= p0 < starts[256 * ss + 256]
    ensures 0 <= p0 < |f| && starts[256 * ss + 256] <= |f|
    ensures forall p :: p0 < p < starts[256 * ss + 256] ==> f[p] != f[p0]
  {
    hide Placed, Key, InBucket;
    RegionListed(b, starts, f, ss, p0);
    RegionListed(b, starts, f, ss, starts[256 * ss + 256] - 1);
    forall p | p0 < p < starts[256 * ss + 256]
      ensures f[p] != f[p0]
    {
      RegionListed(b, starts, f, ss, p);
      PlacedDiffer(b, starts, f, p0, p);
    }
  }

  lemma KeyHead(b: seq<int>, starts: seq<int>, f: seq<int>, r: int, ss: nat)
    requires Placed(b, starts, f) && 0 <= r < |b| && 256 * ss <= Key(b, r) < 256 * ss + 256
    ensures b[r] == ss
  {
    hide IsStarts, InBucket;
  }

  lemma PlacedDiffer(b: seq<int>, starts: seq<int>, f: seq<int>, p: int, q: int)
    requires Placed(b, starts, f) && 0 <= p < q < |b|
    ensures q < |f| && f[p] != f[q]
  { hide IsStarts, InBucket, Key; }

  /** The quadrants say what the order of the big bucket says. */
  lemma QuadsUpdated(b: seq<int>, starts: seq<int>, f: seq<int>, q0: seq<int>, q: seq<int>, ss: nat, first: int,
                     size: nat, shifts: nat)
    requires Placed(b, starts, f) && ss < 256 && |starts| == 65537 && first == starts[256 * ss] &&
        size == starts[256 * ss + 256] - first
    requires Ascending(f, RotOrder(b), first, first + size - 1) && |b| <= |q0| && QuadOk(b, q0[..|b|])
    requires Updated(b, f, q0, q, ss, first, size, 0, shifts)
    ensures QuadOk(b, q[..|b|]) && Overshot(q[..|b|], q)
  {
    UpdatedOvershot(b, f, q0, q, ss, first, size, shifts);
    hide Placed, Ascending, RotOrder, Updated, Overshot, Shr, RotLe;
    forall i, j | 0 <= i < |b| && 0 <= j < |b| && b[i] == b[j] && q[..|b|][i] < q[..|b|][j]
      ensures RotLe(b, i, j)
    {
      if b[i] == ss {
        UpdatedPair(b, starts, f, q0, q, ss, first, size, shifts, i, j);
      } else {
        UpdatedElsewhere(b, f, q0, q, ss, first, size, shifts, i);
        UpdatedElsewhere(b, f, q0, q, ss, first, size, shifts, j);
      }
    }
  }

  lemma UpdatedElsewhere(b: seq<int>, f: seq<int>, q0: seq<int>, q: seq<int>, ss: int, first: int, size: nat,
                         shifts: nat, r: int)
    requires Updated(b, f, q0, q, ss, first, size, 0, shifts) && 0 <= r < |b| && b[r] != ss
    ensures |b| <= |q0| == |q| && q[r] == q0[r] && q[..|b|][r] == q0[..|b|][r]
  { hide Shr; }

  lemma UpdatedOvershot(b: seq<int>, f: seq<int>, q0: seq<int>, q: seq<int>, ss: int, first: int, size: nat,
                        shifts: nat)
    requires Updated(b, f, q0, q, ss, first, size, 0, shifts)
    ensures |b| <= |q| && Overshot(q[..|b|], q)
  {
    hide Shr;
    forall x | 0 <= x < |b| + N_OVERSHOOT
      ensures q[x] == q[..|b|][Wrap(|b|, x)]
    {
      if |b| <= x { assert q[|b| + (x - |b|)] == q[x - |b|]; }
    }
  }

  lemma UpdatedPair(b: seq<int>, starts: seq<int>, f: seq<int>, q0: seq<int>, q: seq<int>, ss: nat, first: int,
                    size: nat, shifts: nat, i: int, j: int)
    requires Placed(b, starts, f) && ss < 256 && |starts| == 65537 && first == starts[256 * ss] &&
        size == starts[256 * ss + 256] - first
    requires Ascending(f, RotOrder(b), first, first + size - 1) && Updated(b, f, q0, q, ss, first, size, 0, shifts)
    requires 0 <= i < |b| <= |q| && 0 <= j < |b| && b[i] == b[j] == ss && q[i] < q[j]
    ensures RotLe(b, i, j)
  {
    hide Placed, Ascending, RotOrder, Updated, Shr, RotLe, IsStarts;
    var u := BigListed(b, starts, f, ss, i);
    var v := BigListed(b, starts, f, ss, j);
    UpdatedAt(b, f, q0, q, ss, first, size, shifts, u - first);
    UpdatedAt(b, f, q0, q, ss, first, size, shifts, v - first);
    if v <= u {
      ShrMonotone(v - first, u - first, shifts);
    } else {
      AscendingPair(f, RotOrder(b), first, first + size - 1, u, v);
      OrderIsLe(b, i, j);
    }
  }

  lemma AscendingPair(f: seq<int>, le: (int, int) -> bool, lo: int, hi: int, u: int, v: int)
    requires Ascending(f, le, lo, hi) && lo <= u < v <= hi
    ensures 0 <= u && v < |f| && le(f[u], f[v])
  { }

  lemma UpdatedAt(b: seq<int>, f: seq<int>, q0: seq<int>, q: seq<int>, ss: int, first: int, size: nat, shifts: nat,
                  t: int)
    requires Updated(b, f, q0, q, ss, first, size, 0, shifts) && 0 <= t < size
    ensures 0 <= first + t < |f| && 0 <= f[first + t] < |b| <= |q| && q[f[first + t]] == Shr(t, shifts)
  {
    hide Shr;
    var p := first + t;
    assert 0 <= f[p] < |b|;
  }

  /** Where a rotation of the big bucket is. */
  lemma BigListed(b: seq<int>, starts: seq<int>, f: seq<int>, ss: nat, r: int) returns (u: int)
    requires Placed(b, starts, f) && ss < 256 && |starts| == 65537 && 0 <= r < |b| && b[r] == ss
    ensures starts[256 * ss] <= u < starts[256 * ss + 256] && 0 <= u < |f| && f[u] == r
  {
    hide Placed, IsStarts;
    PlacedStarts(b, starts, f);
    u := Listed(b, starts, f, r);
    BigOf(starts, |b|, b[r], b[Next(|b|, r)], u);
  }

  lemma BigOf(starts: seq<int>, n: nat, c: int, d: int, u: int)
    requires IsStarts(starts, n) && 0 <= c < 256 && 0 <= d < 256 && InBucket(starts, 256 * c + d, u)
    ensures starts[256 * c] <= u < starts[256 * c + 256]
  { }

  // ----- The main loop -----

  /** The big buckets done are the first `i` of the running order. */
  ghost predicate DoneAre(done: seq<bool>, order: seq<int>, i: int) {
    && |done| == 256 && IsPerm(order, 256) && 0 <= i <= 256
    && forall k :: 0 <= k < 256 ==> done[order[k]] == (k < i)
  }

  lemma DoneNext(done: seq<bool>, order: seq<int>, i: int)
    requires DoneAre(done, order, i) && i < 256
    ensures 0 <= order[i] < 256 && !done[order[i]] && DoneAre(done[order[i] := true], order, i + 1)
  { }

  lemma DoneAll(done: seq<bool>, order: seq<int>, flags: seq<bool>)
    requires DoneAre(done, order, 256) && FlagsAre(flags, done, 0, 0)
    ensures |flags| == 65536 && forall k :: 0 <= k < 65536 ==> flags[k]
  {
    forall k | 0 <= k < 65536
      ensures flags[k]
    {
      FlagSplit(flags, k);
      PermOnto(order, 256, k / 256);
      assert done[k / 256];
    }
  }

  /** What the main loop keeps. */
  ghost predicate State(b: seq<int>, starts: seq<int>, ptr: seq<int>, ftab: seq<int>, flags: seq<bool>, done: seq<bool>,
                        order: seq<int>, i: int) {
    Sorted(b, starts, ptr, ftab, flags) && FlagsAre(flags, done, 0, 0) && DoneAre(done, order, i)
  }

  lemma FlagsAnyRow(flags: seq<bool>, done: seq<bool>, ss: int)
    requires FlagsAre(flags, done, 0, 0)
    ensures FlagsAre(flags, done, ss, 0)
  { hide FlagAt; }

  /** The whole big bucket, once its small buckets are sorted. */
  lemma BigSorted(b: seq<int>, starts: seq<int>, f: seq<int>, ftab: seq<int>, flags: seq<bool>, done: seq<bool>,
                  ss: int)
    requires Sorted(b, starts, f, ftab, flags) && FlagsAre(flags, done, 0, 0) && 0 <= ss < 256 && |done| == 256 &&
        done[ss]
    ensures Placed(b, starts, f) && |starts| == 65537 && |b| <= |f|
    ensures 0 <= starts[256 * ss] <= starts[256 * ss + 256]
    ensures Ascending(f, RotOrder(b), starts[256 * ss], starts[256 * ss + 256] - 1)
  {
    hide Sorted, FlagsAre, FlagsSorted, Placed, BucketSorted, FlagAt, FtabOk, Ascending, IsStarts;
    SortedFacts(b, starts, f, ftab, flags);
    PlacedStarts(b, starts, f);
    StartsCount(starts, |b|);
    StartsRange(starts, |b|, 256 * ss, 256 * ss + 256);
    forall k | 256 * ss <= k < 256 * ss + 256
      ensures BucketSorted(b, starts, f, k)
    {
      var d := k - 256 * ss;
      FlagIs(flags, done, 0, 0, ss, d);
      FlaggedSorted(b, starts, f, flags, ss, d);
    }
    RunOfBuckets(b, starts, f, 256 * ss, 256 * ss + 256);
  }

  /** Step 3 for big bucket `ss`. */
  method Remember(ptr: array<int>, quadrant: array<u16>, ftab: array<int>, ss: nat, nblock: nat,
                  ghost b: seq<int>, ghost starts: seq<int>, ghost flags: seq<bool>, ghost done: seq<bool>,
                      ghost block: seq<int>)
    requires nblock == |b| && nblock + N_OVERSHOOT <= quadrant.Length && ss < 256 && |done| == 256 && done[ss]
    requires ptr != quadrant as object && ftab != quadrant as object
    requires Sorted(b, starts, ptr[..], ftab[..], flags) && FlagsAre(flags, done, 0, 0) &&
        Readable(b, block, quadrant[..])
    modifies quadrant
    ensures Readable(b, block, quadrant[..])
  {
    hide Sorted, FlagsAre, Readable, FtabOk, Placed, Ascending, RotOrder, QuadOk, Overshot, Clear, Set, IsSet;
    BigSorted(b, starts, ptr[..], ftab[..], flags, done, ss);
    SortedFacts(b, starts, ptr[..], ftab[..], flags);
    FtabAt(ftab[..], starts, flags, 256 * ss);
    FtabAt(ftab[..], starts, flags, 256 * ss + 256);
    ReadableParts(b, block, quadrant[..]);
    assert quadrant[..][..nblock] == quadrant[..nblock];
    var bbStart := Clear(ftab[256 * ss]);
    var bbSize := Clear(ftab[256 * ss + 256]) - bbStart;
    ghost var g, shifts := UpdateQuadrants(ptr[..], quadrant, bbStart, bbSize, ss, nblock, b, starts);
    assert quadrant[..][..nblock] == quadrant[..nblock];
    ReadableFrom(b, block, quadrant[..]);
  }

  lemma ReadableParts(b: seq<int>, block: seq<int>, quadrant: seq<int>)
    requires Readable(b, block, quadrant)
    ensures N_OVERSHOOT < |b| <= |quadrant| && QuadOk(b, quadrant[..|b|]) && Overshot(quadrant[..|b|], quadrant) &&
        Overshot(b, block)
  { hide QuadOk; }

  lemma ReadableFrom(b: seq<int>, block: seq<int>, quadrant: seq<u16>)
    requires Overshot(b, block) && |b| <= |quadrant| && QuadOk(b, quadrant[..|b|]) &&
        Overshot(quadrant[..|b|], quadrant)
    ensures Readable(b, block, quadrant)
  { hide QuadOk, Overshot; }

  /** One big bucket: steps 1 to 3. */
  method BigBucket(i: nat, order: array<int>, ptr: array<int>, block: array<byte>, quadrant: array<u16>,
                   ftab: array<int>, bigDone: array<bool>,
                   copyStart: array<int>, copyEnd: array<int>, nblock: nat, budget0: int,
                   ghost b: seq<int>, ghost starts: seq<int>, ghost flags: seq<bool>)
    returns (budget: int, ghost fl: seq<bool>)
    requires ptr != ftab && ptr != copyStart && ptr != copyEnd && ftab != copyStart && ftab != copyEnd &&
        copyStart != copyEnd
    requires order != ptr && order != ftab && order != copyStart && order != copyEnd
    requires quadrant as object !in {ptr, ftab, copyStart, copyEnd, order, block, bigDone} &&
        block as object !in {ptr, ftab, copyStart, copyEnd, bigDone}
    requires bigDone as object !in {ptr, ftab, copyStart, copyEnd, order}
    requires copyStart.Length == copyEnd.Length == bigDone.Length == order.Length == 256 && i < 256 && budget0 >= 0
    requires nblock == |b| <= 900000 && nblock + N_OVERSHOOT <= quadrant.Length && nblock <= block.Length
    requires (forall x :: 0 <= x < nblock ==> block[x] == b[x]) && Readable(b, block[..], quadrant[..])
    requires State(b, starts, ptr[..], ftab[..], flags, bigDone[..], order[..], i)
    modifies ptr, ftab, bigDone, copyStart, copyEnd, quadrant
    ensures budget <= budget0
    ensures budget >= 0 ==>
        Readable(b, block[..], quadrant[..]) && State(b, starts, ptr[..], ftab[..], fl, bigDone[..], order[..], i + 1)
  {
    hide Readable, Sorted, FlagsAre, DoneAre;
    DoneNext(bigDone[..], order[..], i);
    var ss := order[i];
    FlagsAnyRow(flags, bigDone[..], ss);
    budget, fl := SortRest(ptr, block[..], quadrant[..], ftab, nblock, ss, budget0, b, starts, bigDone[..], flags);
    if budget < 0 { return; }
    assert !bigDone[ss];
    fl := ScanBucket(ptr, block[..], ftab, bigDone, copyStart, copyEnd, ss, nblock, b, starts, fl);
    bigDone[ss] := true;
    if i < 255 {
      Remember(ptr, quadrant, ftab, ss, nblock, b, starts, fl, bigDone[..], block[..]);
    }
  }

  /** Before the first big bucket. */
  lemma FirstState(b: seq<int>, ptr: seq<int>, ftab: seq<int>, done: seq<bool>, order: seq<int>)
    returns (flags: seq<bool>)
    requires Placed(b, Starts(b), ptr) && 2 <= |b| <= 900000 && ftab == Starts(b) && |done| == 256 && IsPerm(order, 256)
    requires forall c :: 0 <= c < 256 ==> !done[c]
    ensures State(b, Starts(b), ptr, ftab, flags, done, order, 0)
  {
    hide Starts, Placed;
    PlacedStarts(b, Starts(b), ptr);
    StartsMonotone(Starts(b), |b|);
    flags := seq(65536, k => false);
    hide IsStarts, BucketSorted;
  }

  /** The first listing, the quadrants and the overshoot area. */
  method Initialise(ptr: array<int>, block: array<byte>, quadrant: array<u16>, ftab: array<int>, nblock: nat,
                    ghost b: seq<int>)
    requires N_OVERSHOOT < nblock == |b| && nblock + N_OVERSHOOT <= block.Length &&
        nblock + N_OVERSHOOT <= quadrant.Length
    requires nblock <= ptr.Length && ftab.Length == 65537 && ptr != ftab && block != quadrant as object
    requires quadrant as object !in {ptr, ftab} && block as object !in {ptr, ftab}
    requires Bytes(b) && forall x :: 0 <= x < nblock ==> block[x] == b[x]
    modifies ptr, block, quadrant, ftab
    ensures (forall x :: 0 <= x < nblock ==> block[x] == b[x]) && Readable(b, block[..], quadrant[..])
    ensures Placed(b, Starts(b), ptr[..]) && ftab[..] == Starts(b)
  {
    hide Starts, Placed, Overshot, Counted, Filling, Bytes;
    CountPairs(block, quadrant, ftab, nblock, b);
    CopyOvershoot(block, quadrant, nblock, b);
    NoQuadrants(b, block[..], quadrant[..]);
    AddUp(ftab, b);
    Fill(ptr, block, ftab, nblock, b);
  }

  lemma NoQuadrants(b: seq<int>, block: seq<int>, quadrant: seq<u16>)
    requires Overshot(b, block) && |b| + N_OVERSHOOT <= |quadrant|
    requires forall x :: 0 <= x < |b| + N_OVERSHOOT ==> quadrant[x] == 0
    ensures Readable(b, block, quadrant)
  { }

  /** The big bucket loop, after the initial sort. */
  method SortBigBuckets(order: array<int>, ptr: array<int>, block: array<byte>, quadrant: array<u16>, ftab: array<int>,
                        bigDone: array<bool>,
                        nblock: nat, budget0: int, ghost b: seq<int>, ghost flags0: seq<bool>)
    returns (budget: int)
    requires ptr != ftab && order != ptr && order != ftab
    requires quadrant as object !in {ptr, ftab, order, block, bigDone} && block as object !in {ptr, ftab, bigDone}
    requires bigDone as object !in {ptr, ftab, order}
    requires bigDone.Length == order.Length == 256 && budget0 >= 0
    requires nblock == |b| <= 900000 && nblock + N_OVERSHOOT <= quadrant.Length && nblock <= block.Length &&
        nblock <= ptr.Length
    requires (forall x :: 0 <= x < nblock ==> block[x] == b[x]) && Readable(b, block[..], quadrant[..])
    requires State(b, Starts(b), ptr[..], ftab[..], flags0, bigDone[..], order[..], 0)
    modifies ptr, ftab, bigDone, quadrant
    ensures budget <= budget0
    ensures budget >= 0 ==> SortedRotations(b, ptr[..nblock])
  {
    hide State, Readable, Starts;
    var copyStart, copyEnd := new int[256], new int[256];
    budget := budget0;
    ghost var flags := flags0;
    for i := 0 to 256
      invariant 0 <= budget <= budget0
      invariant (forall x :: 0 <= x < nblock ==> block[x] == b[x]) && Readable(b, block[..], quadrant[..])
      invariant State(b, Starts(b), ptr[..], ftab[..], flags, bigDone[..], order[..], i)
    {
      budget, flags := BigBucket(i, order, ptr, block, quadrant, ftab, bigDone, copyStart, copyEnd, nblock, budget, b,
          Starts(b), flags);
      if budget < 0 { return; }
    }
    LastState(b, Starts(b), ptr[..], ftab[..], flags, bigDone[..], order[..]);
    assert ptr[..][..nblock] == ptr[..nblock];
  }

  lemma LastState(b: seq<int>, starts: seq<int>, ptr: seq<int>, ftab: seq<int>, flags: seq<bool>, done: seq<bool>,
                  order: seq<int>)
    requires State(b, starts, ptr, ftab, flags, done, order, 256)
    ensures |b| <= |ptr| && SortedRotations(b, ptr[..|b|])
  {
    hide Sorted, FlagsAre, DoneAre, Placed, FtabOk, FlagsSorted, SortedRotations;
    SortedFacts(b, starts, ptr, ftab, flags);
    DoneAll(done, order, flags);
    AllSorted(b, starts, ptr, flags);
  }

  /** mainSort: unless the budget runs out, `ptr` lists the rotations in order. The block stays as it
      is; what follows it is overwritten. */
  method MainSort(ptr: array<int>, block: array<byte>, quadrant: array<u16>, ftab: array<int>, nblock: nat,
                  budget0: int)
    returns (budget: int)
    requires N_OVERSHOOT < nblock <= 900000 && nblock + N_OVERSHOOT <= block.Length &&
        nblock + N_OVERSHOOT <= quadrant.Length
    requires nblock <= ptr.Length && ftab.Length == 65537 && ptr != ftab && block != quadrant as object && budget0 >= 0
    requires quadrant as object !in {ptr, ftab} && block as object !in {ptr, ftab}
    modifies ptr, block, quadrant, ftab
    ensures block[..nblock] == old(block[..nblock]) && budget <= budget0
    ensures budget >= 0 ==> SortedRotations(block[..nblock], ptr[..nblock])
  {
    hide Starts, Placed, State, Readable, SortedRotations, IsPerm;
    ghost var b: seq<int> := block[..nblock];
    Initialise(ptr, block, quadrant, ftab, nblock, b);
    var bigDone, order := new bool[256], new int[256];
    for i := 0 to 256
      invariant forall c :: 0 <= c < i ==> !bigDone[c] && order[c] == c
      invariant (forall x :: 0 <= x < nblock ==> block[x] == b[x]) && Readable(b, block[..], quadrant[..])
      invariant Placed(b, Starts(b), ptr[..]) && ftab[..] == Starts(b)
    {
      bigDone[i], order[i] := false, i;
    }
    CountingPerm(order[..]);
    OrderBigBuckets(order, ftab[..]);
    ghost var flags := FirstState(b, ptr[..], ftab[..], bigDone[..], order[..]);
    budget := SortBigBuckets(order, ptr, block, quadrant, ftab, bigDone, nblock, budget0, b, flags);
    assert block[..nblock] == b;
  }

  lemma CountingPerm(order: seq<int>)
    requires |order| == 256 && forall c :: 0 <= c < 256 ==> order[c] == c
    ensures IsPerm(order, 256)
  { }
}
