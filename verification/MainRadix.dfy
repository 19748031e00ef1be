/** The first phase of mainSort (blocksort.c): the overshoot area, and a radix sort of all rotations by
    their first two bytes. */
module MainRadix {
  import opened Rotations
  import opened Bwt
  import opened InverseBwt
  import opened MainOrder
  import opened SmallBuckets

  /** The two-byte keys of all rotations. */
  ghost function Keys(b: seq<int>): (r: seq<int>)
    ensures |r| == |b|
  {
    seq(|b|, i requires 0 <= i < |b| => Key(b, i))
  }

  /** Where the small buckets start. */
  ghost function Starts(b: seq<int>): (r: seq<int>)
    ensures |r| == 65537
  {
    seq(65537, k => CountBelow(Keys(b), |b|, k))
  }

  lemma StartsAt(b: seq<int>, k: int)
    requires 0 <= k <= 65536
    ensures Starts(b)[k] == CountBelow(Keys(b), |b|, k)
  { hide CountBelow; }

  lemma KeyAtIs(b: seq<int>, i: int)
    requires Bytes(b) && 0 <= i < |b|
    ensures Keys(b)[i] == Key(b, i) == 256 * b[i] + b[Next(|b|, i)]
    ensures 0 <= b[i] < 256 && 0 <= b[Next(|b|, i)] < 256 && 0 <= Key(b, i) < 65536
  { }

  lemma {:induction false} AllBelow(l: seq<int>, k: nat, c: int)
    requires k <= |l| && forall i :: 0 <= i < |l| ==> 0 <= l[i] < c
    ensures CountBelow(l, k, c) == k && CountBelow(l, k, 0) == 0 && CountEq(l, k, c) == 0
  {
    if k > 0 { AllBelow(l, k - 1, c); }
  }

  lemma KeysInRange(b: seq<int>)
    requires Bytes(b)
    ensures forall i :: 0 <= i < |Keys(b)| ==> 0 <= Keys(b)[i] < 65536
  {
    forall i | 0 <= i < |Keys(b)|
      ensures 0 <= Keys(b)[i] < 65536
    { KeyAtIs(b, i); }
  }

  lemma StartsOk(b: seq<int>)
    requires Bytes(b)
    ensures IsStarts(Starts(b), |b|)
  {
    hide CountBelow, CountEq, Starts, Keys;
    var l := Keys(b);
    KeysInRange(b);
    AllBelow(l, |b|, 65536);
    StartsAt(b, 0);
    StartsAt(b, 65536);
    forall j, k | 0 <= j <= k <= 65536
      ensures Starts(b)[j] <= Starts(b)[k]
    {
      StartsAt(b, j);
      StartsAt(b, k);
      if j < k { CountBelowMonotone(l, |b|, j, k); }
    }
  }

  /** ftab before the bucket starts are known: counts of the keys from `i` on. */
  ghost predicate Counted(ftab: seq<int>, b: seq<int>, i: nat)
    requires i <= |b|
  {
    |ftab| == 65537 && forall k :: 0 <= k < 65537 ==> ftab[k] == CountEq(Keys(b), |b|, k) - CountEq(Keys(b), i, k)
  }

  /** `j = (j >> 8) | (block[i] << 8)`. */
  function Shifted(j: int, c: int): int { j / 256 + 256 * c }

  lemma ShiftedKey(b: seq<int>, i: int, j: int)
    requires Bytes(b) && 0 <= i < |b| && j / 256 == b[Next(|b|, i)]
    ensures Shifted(j, b[i]) == Key(b, i) == Keys(b)[i] && Shifted(j, b[i]) / 256 == b[i] &&
        0 <= Shifted(j, b[i]) < 65536
  {
    KeyAtIs(b, i);
  }

  lemma NoneYet(b: seq<int>, ftab: seq<int>)
    requires |ftab| == 65537 && forall k :: 0 <= k < 65537 ==> ftab[k] == 0
    ensures Counted(ftab, b, |b|)
  { hide CountEq, Keys; }

  lemma OneCounted(b: seq<int>, ftab: seq<int>, i: nat, k: int)
    requires i < |b| && Counted(ftab, b, i + 1) && 0 <= k < 65536 && k == Keys(b)[i]
    ensures Counted(ftab[k := ftab[k] + 1], b, i)
  {
    hide Keys;
    var l := Keys(b);
    forall m | 0 <= m < 65537
      ensures CountEq(l, i + 1, m) == CountEq(l, i, m) + (if m == k then 1 else 0)
    { }
    hide CountEq;
  }

  /** Count the pairs, from the end backwards. */
  method CountPairs(block: array<byte>, quadrant: array<u16>, ftab: array<int>, nblock: nat, ghost b: seq<int>)
    requires 0 < nblock == |b| <= block.Length && nblock <= quadrant.Length && ftab.Length == 65537
    requires Bytes(b) && forall x :: 0 <= x < nblock ==> block[x] == b[x]
    requires ftab != quadrant as object && ftab != block as object && block != quadrant as object
    modifies ftab, quadrant
    ensures Counted(ftab[..], b, 0) && forall x :: 0 <= x < nblock ==> quadrant[x] == 0
  {
    hide Counted, Keys, Key, CountEq, Bytes;
    for i := 0 to 65537
      invariant forall k :: 0 <= k < i ==> ftab[k] == 0
    {
      ftab[i] := 0;
    }
    NoneYet(b, ftab[..]);
    KeyAtIs(b, 0);
    var j: int := 256 * (block[0] as int);
    var i := nblock - 1;
    while i >= 0
      invariant -1 <= i < nblock && Counted(ftab[..], b, i + 1)
      invariant i >= 0 ==> j / 256 == b[Next(nblock, i)]
      invariant forall x :: i < x < nblock ==> quadrant[x] == 0
    {
      quadrant[i] := 0;
      ShiftedKey(b, i, j);
      j := Shifted(j, block[i]);
      OneCounted(b, ftab[..], i, j);
      ftab[j] := ftab[j] + 1;
      i := i - 1;
    }
  }

  /** The block and its quadrants once more at the end. */
  method CopyOvershoot(block: array<byte>, quadrant: array<u16>, nblock: nat, ghost b: seq<int>)
    requires N_OVERSHOOT < nblock == |b| && nblock + N_OVERSHOOT <= block.Length &&
        nblock + N_OVERSHOOT <= quadrant.Length
    requires block != quadrant as object && forall x :: 0 <= x < nblock ==> block[x] == b[x]
    requires forall x :: 0 <= x < nblock ==> quadrant[x] == 0
    modifies block, quadrant
    ensures Overshot(b, block[..]) && forall x :: 0 <= x < nblock + N_OVERSHOOT ==> quadrant[x] == 0
    ensures forall x :: 0 <= x < nblock ==> block[x] == b[x]
  {
    for i := 0 to N_OVERSHOOT
      invariant forall x :: 0 <= x < nblock ==> block[x] == b[x]
      invariant forall x :: nblock <= x < nblock + i ==> block[x] == b[x - nblock]
      invariant forall x :: 0 <= x < nblock + i ==> quadrant[x] == 0
    {
      block[nblock + i] := block[i];
      quadrant[nblock + i] := 0;
    }
    assert forall x :: 0 <= x < nblock + N_OVERSHOOT ==> block[..][x] == block[x];
  }

  /** ftab while the listing is filled: the end of what is left of every small bucket. */
  ghost predicate Filling(ftab: seq<int>, b: seq<int>, i: nat)
    requires i <= |b|
  {
    && |ftab| == 65537 && ftab[65536] == |b|
    && forall k :: 0 <= k < 65536 ==> ftab[k] == CountBelow(Keys(b), |b|, k) + CountEq(Keys(b), i, k)
  }

  /** Add up the counts. */
  method AddUp(ftab: array<int>, ghost b: seq<int>)
    requires ftab.Length == 65537 && Bytes(b) && Counted(ftab[..], b, 0)
    modifies ftab
    ensures Filling(ftab[..], b, |b|)
  {
    ghost var l, n := Keys(b), |b|;
    KeysInRange(b);
    AllBelow(l, n, 65536);
    forall k | 0 <= k < 65537
      ensures ftab[k] == CountEq(l, n, k)
    {
      assert ftab[..][k] == CountEq(l, n, k) - CountEq(l, 0, k);
    }
    hide CountEq, CountBelow, Keys;
    CountsBound(l, n, 0);
    for i := 1 to 65537
      invariant forall k :: 0 <= k < i ==> ftab[k] == CountBelow(l, n, k + 1)
      invariant forall k :: i <= k < 65537 ==> ftab[k] == CountEq(l, n, k)
    {
      CountsBound(l, n, i);
      ftab[i] := ftab[i] + ftab[i - 1];
    }
    CountsBound(l, n, 65536);
    forall k | 0 <= k < 65536
      ensures ftab[..][k] == CountBelow(l, n, k) + CountEq(l, n, k)
    {
      CountsBound(l, n, k);
    }
  }

  /** One rotation goes to its slot. */
  lemma FillOne(b: seq<int>, ftab: seq<int>, i: nat, k: int)
    requires i < |b| && Filling(ftab, b, i + 1) && 0 <= k < 65536 && k == Keys(b)[i]
    ensures ftab[k] - 1 == Slot(Keys(b), i) && Filling(ftab[k := ftab[k] - 1], b, i)
    ensures 0 <= Slot(Keys(b), i) < |b|
  {
    hide Keys, CountBelow;
    var l := Keys(b);
    forall m | 0 <= m < 65537
      ensures CountEq(l, i + 1, m) == CountEq(l, i, m) + (if m == k then 1 else 0)
    { }
    hide CountEq;
    SlotInRange(l, i);
  }

  /** Every rotation to its small bucket, from the end backwards; ftab ends up with the starts. */
  method Fill(ptr: array<int>, block: array<byte>, ftab: array<int>, nblock: nat, ghost b: seq<int>)
    requires 0 < nblock == |b| <= block.Length && nblock <= ptr.Length && ftab.Length == 65537 && ptr != ftab
    requires Bytes(b) && (forall x :: 0 <= x < nblock ==> block[x] == b[x]) && Filling(ftab[..], b, nblock)
    requires ftab != block as object && ptr != block as object
    modifies ptr, ftab
    ensures Placed(b, Starts(b), ptr[..])
    ensures ftab[..] == Starts(b)
  {
    ghost var l, slots := Keys(b), Slots(Keys(b));
    hide Filling, Keys, Key, CountEq, CountBelow, Bytes, Placed, Starts;
    KeyAtIs(b, 0);
    var s: int := 256 * (block[0] as int);
    var i := nblock - 1;
    while i >= 0
      invariant -1 <= i < nblock && Filling(ftab[..], b, i + 1)
      invariant i >= 0 ==> s / 256 == b[Next(nblock, i)]
      invariant forall r :: i < r < nblock ==> ptr[slots[r]] == r
    {
      ShiftedKey(b, i, s);
      s := Shifted(s, block[i]);
      FillOne(b, ftab[..], i, s);
      assert slots[i] == Slot(l, i);
      var j := ftab[s] - 1;
      ftab[s] := j;
      ptr[j] := i;
      i := i - 1;
    }
    FilledPlaced(b, ptr[..], slots);
    FilledStarts(b, ftab[..]);
  }

  lemma FilledPlaced(b: seq<int>, f: seq<int>, slots: seq<int>)
    requires Bytes(b) && |b| <= |f| && slots == Slots(Keys(b))
    requires forall r :: 0 <= r < |b| ==> 0 <= slots[r] < |f| && f[slots[r]] == r
    ensures Placed(b, Starts(b), f)
  {
    hide CountEq, CountBelow, Keys, Starts, Slot, InBucket, Key;
    var l, p := Keys(b), f[..|b|];
    StartsOk(b);
    forall r | 0 <= r < |l|
      ensures Slot(l, r) < |l| && p[Slot(l, r)] == r
    {
      assert slots[r] == Slot(l, r);
      SlotInRange(l, r);
    }
    LinksArePerm(l, p);
    forall x | 0 <= x < |b|
      ensures 0 <= f[x] < |b| && InBucket(Starts(b), Key(b, f[x]), x)
    {
      assert p[x] == f[x] && Slot(l, p[x]) == x;
      SlotInBucket(b, f[x]);
    }
    assert forall x, y :: 0 <= x < y < |b| ==> p[x] != p[y];
    assert forall x :: 0 <= x < |b| ==> p[x] == f[x];
  }

  lemma SlotInBucket(b: seq<int>, r: int)
    requires Bytes(b) && 0 <= r < |b|
    ensures InBucket(Starts(b), Key(b, r), Slot(Keys(b), r))
  {
    hide CountEq, CountBelow, Keys, Starts, Key;
    KeyAtIs(b, r);
    StartsAt(b, Key(b, r));
    StartsAt(b, Key(b, r) + 1);
    SlotInRange(Keys(b), r);
    CountsBound(Keys(b), |b|, Key(b, r));
  }

  lemma FilledStarts(b: seq<int>, ftab: seq<int>)
    requires Bytes(b) && Filling(ftab, b, 0)
    ensures ftab == Starts(b)
  {
    StartsOk(b);
    hide Starts, CountBelow, Keys;
    forall k | 0 <= k < 65537
      ensures ftab[k] == Starts(b)[k]
    {
      StartsAt(b, k);
    }
  }
}
