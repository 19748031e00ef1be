/** The decoder's two inverse transforms (decompress.c, bzlib_private.h): the FAST form, one
    32-bit word per row, and the SMALL form, 20-bit links split over a 16-bit and a 4-bit array
    and turned round in place. */
module InverseBwt {
  import opened Rotations
  import opened Permutations
  import opened Bwt
  import opened BlockCheck

  type u16 = x: int | 0 <= x < 0x1_0000

  /** `cftab[c]` is the number of entries of the last column below `c`. */
  ghost predicate IsCumulative(cftab: seq<int>, l: seq<int>) {
    && |cftab| == 257
    && forall c :: 0 <= c <= 256 ==> cftab[c] == CountBelow(l, |l|, c)
  }

  lemma {:induction false} NoneBelowZero(l: seq<int>, k: nat)
    requires k <= |l| && forall x :: 0 <= x < |l| ==> 0 <= l[x] < 256
    ensures CountBelow(l, k, 0) == 0 && CountBelow(l, k, 256) == k
  {
    if k != 0 {
      NoneBelowZero(l, k - 1);
    }
  }

  /** decompress.c:490-492: turn the byte counts `unzftab` into the cumulative table. */
  method MakeCftab(unzftab: array<int>, cftab: array<int>, ghost l: seq<int>)
    requires unzftab.Length == 256 && cftab.Length == 257
    requires forall x :: 0 <= x < |l| ==> 0 <= l[x] < 256
    requires forall c :: 0 <= c < 256 ==> unzftab[c] == CountEq(l, |l|, c)
    requires unzftab != cftab
    modifies cftab
    ensures IsCumulative(cftab[..], l)
  {
    cftab[0] := 0;
    NoneBelowZero(l, |l|);
    for i := 1 to 257
      invariant cftab[0] == 0
      invariant forall c :: 1 <= c < i ==> cftab[c] == CountEq(l, |l|, c - 1)
    {
      cftab[i] := unzftab[i - 1];
    }
    for i := 1 to 257
      invariant forall c :: 0 <= c < i ==> cftab[c] == CountBelow(l, |l|, c)
      invariant forall c :: i <= c <= 256 ==> cftab[c] == CountEq(l, |l|, c - 1)
    {
      CountsBound(l, |l|, i - 1);
      cftab[i] := cftab[i] + cftab[i - 1];
    }
  }

  // ----- FAST -----

  /** The byte and the link packed in a FAST word: bits 0-7 and 8-31. */
  function LowByte(w: u32): (r: byte) { w % 256 }

  function Link(w: u32): (r: nat) { w / 256 }

  ghost function Links(tt: seq<u32>): (r: seq<int>)
    ensures |r| == |tt|
  {
    seq(|tt|, k requires 0 <= k < |tt| => Link(tt[k]))
  }

  /** A FAST table: every word carries its last-column byte and its link. */
  ghost predicate IsFastTable(tt: seq<u32>, l: seq<int>) {
    && |tt| == |l|
    && (forall k :: 0 <= k < |l| ==> LowByte(tt[k]) == l[k])
    && IsLinks(l, Links(tt))
  }

  lemma SlotsDiffer(l: seq<int>, x: nat, y: nat)
    requires x < |l| && y < |l| && x != y
    ensures Slot(l, x) != Slot(l, y)
  {
    if l[x] < l[y] || (l[x] == l[y] && x < y) {
      SlotOrder(l, x, y);
    } else {
      SlotOrder(l, y, x);
    }
  }

  /** All slots of `l`, in row order. */
  ghost function Slots(l: seq<int>): (r: seq<int>)
    ensures IsPerm(r, |l|)
    ensures forall x :: 0 <= x < |l| ==> r[x] == Slot(l, x)
  {
    var r := seq(|l|, x requires 0 <= x < |l| => Slot(l, x));
    assert forall x :: 0 <= x < |l| ==> 0 <= r[x] < |l| by {
      forall x | 0 <= x < |l| ensures r[x] < |l| { SlotInRange(l, x); }
    }
    assert Distinct(r) by {
      forall x, y | 0 <= x < y < |l| ensures r[x] != r[y] { SlotsDiffer(l, x, y); }
    }
    r
  }

  /** `tt[k] |= (i << 8)` on a word whose link bits are clear. */
  method OrLink(tt: array<u32>, k: nat, i: nat)
    requires k < tt.Length && i < 900000 && Link(tt[k]) == 0
    modifies tt
    ensures LowByte(tt[k]) == old(LowByte(tt[k])) && Link(tt[k]) == i
    ensures forall j :: 0 <= j < tt.Length && j != k ==> tt[j] == old(tt[j])
  {
    tt[k] := tt[k] + i * 256;
  }

  /** decompress.c:560-565: OR each row number into the word at its slot. The link bits of that
      word are still clear, so the OR is an addition. */
  method ComputeFastLinks(tt: array<u32>, cftab: array<int>, nblock: nat, ghost l: seq<int>)
    requires nblock == |l| <= tt.Length && nblock <= 900000
    requires forall x :: 0 <= x < |l| ==> 0 <= l[x] < 256 && tt[x] == l[x]
    requires cftab.Length == 257 && IsCumulative(cftab[..], l)
    requires tt as object != cftab
    modifies tt, cftab
    ensures IsFastTable(tt[..nblock], l)
    ensures forall k :: nblock <= k < tt.Length ==> tt[k] == old(tt[k])
  {
    ghost var slots := Slots(l);
    ghost var t0: seq<u32> := tt[..];
    NoLinksYet(t0, l, slots);
    CountersStart(cftab[..], l);
    hide CountBelow, CountEq, IsCumulative, IsFastTable, Slot, Linked, Counters, LowByte, Link;
    for i := 0 to nblock
      invariant Counters(cftab[..], l, i) && Linked(tt[..], l, slots, i)
      invariant tt[nblock..] == t0[nblock..]
    {
      ghost var t: seq<u32>, c := tt[..], cftab[..];
      LinkedAt(t, l, slots, i);
      CountersAt(c, l, i);
      var uc := LowByte(tt[i]);
      OrLink(tt, cftab[uc], i);
      cftab[uc] := cftab[uc] + 1;
      LinkedMore(t, tt[..], l, slots, i);
      assert cftab[..] == c[l[i] := c[l[i]] + 1];
      CountersMore(c, l, i);
      assert tt[nblock..] == t[nblock..];
    }
    LinkedAll(tt[..], l, slots);
    ConcludeFastTable(tt[..nblock], l, slots);
  }

  /** Every byte is in place and the first `i` links are. */
  ghost predicate Linked(tt: seq<u32>, l: seq<int>, slots: seq<int>, i: nat) {
    && i <= |l| <= |tt| && |slots| == |l| && (forall x :: 0 <= x < |l| ==> 0 <= slots[x] < |l|)
    && (forall k :: 0 <= k < |l| ==> LowByte(tt[k]) == l[k])
    && (forall x :: 0 <= x < i ==> Link(tt[slots[x]]) == x)
    && (forall x :: i <= x < |l| ==> Link(tt[slots[x]]) == 0)
  }

  /** The counters after `i` bytes. */
  ghost predicate Counters(cftab: seq<int>, l: seq<int>, i: nat) {
    i <= |l| && |cftab| == 257 && forall c :: 0 <= c < 256 ==> cftab[c] == CountBelow(l, |l|, c) + CountEq(l, i, c)
  }

  lemma CountersStart(cftab: seq<int>, l: seq<int>)
    requires IsCumulative(cftab, l)
    ensures Counters(cftab, l, 0)
  { hide CountBelow; }

  lemma CountersAt(cftab: seq<int>, l: seq<int>, i: nat)
    requires Counters(cftab, l, i) && i < |l| && 0 <= l[i] < 256
    ensures |cftab| == 257 && cftab[l[i]] == Slot(l, i)
  { }

  lemma CountersMore(cftab: seq<int>, l: seq<int>, i: nat)
    requires Counters(cftab, l, i) && i < |l| && 0 <= l[i] < 256
    ensures |cftab| == 257 && Counters(cftab[l[i] := cftab[l[i]] + 1], l, i + 1)
  { hide CountBelow; }

  lemma NoLinksYet(tt: seq<u32>, l: seq<int>, slots: seq<int>)
    requires |l| <= |tt| && slots == Slots(l) && forall x :: 0 <= x < |l| ==> 0 <= l[x] < 256 && tt[x] == l[x]
    ensures Linked(tt, l, slots, 0)
  { hide Slot; }

  lemma LinkedAt(tt: seq<u32>, l: seq<int>, slots: seq<int>, i: nat)
    requires Linked(tt, l, slots, i) && i < |l| && slots == Slots(l)
    ensures i < |tt| && LowByte(tt[i]) == l[i] && 0 <= slots[i] < |l| <= |tt| && Link(tt[slots[i]]) == 0
    ensures slots[i] == Slot(l, i)
  { hide Slot, LowByte, Link; }

  lemma LinkedMore(t: seq<u32>, tt: seq<u32>, l: seq<int>, slots: seq<int>, i: nat)
    requires Linked(t, l, slots, i) && i < |l| && slots == Slots(l) && |tt| == |t| && 0 <= slots[i] < |l| <= |t|
    requires LowByte(tt[slots[i]]) == LowByte(t[slots[i]]) && Link(tt[slots[i]]) == i
    requires forall j :: 0 <= j < |t| && j != slots[i] ==> tt[j] == t[j]
    ensures Linked(tt, l, slots, i + 1)
  {
    hide Slot, LowByte, Link;
    forall x | 0 <= x < |l|
      ensures x != i ==> tt[slots[x]] == t[slots[x]]
    {
      assert x < i ==> slots[x] != slots[i];
      assert x > i ==> slots[i] != slots[x];
    }
  }

  lemma LinkedAll(tt: seq<u32>, l: seq<int>, slots: seq<int>)
    requires Linked(tt, l, slots, |l|)
    ensures |l| <= |tt| && |slots| == |l| && forall k :: 0 <= k < |l| ==> LowByte(tt[..|l|][k]) == l[k]
    ensures forall x :: 0 <= x < |l| ==> 0 <= slots[x] < |l| && Link(tt[..|l|][slots[x]]) == x
  { hide LowByte, Link; }

  lemma ConcludeFastTable(tt: seq<u32>, l: seq<int>, slots: seq<int>)
    requires |tt| == |l| && slots == Slots(l)
    requires forall k :: 0 <= k < |l| ==> LowByte(tt[k]) == l[k]
    requires forall x :: 0 <= x < |l| ==> Link(tt[slots[x]]) == x
    ensures IsFastTable(tt, l)
  {
    assert IsLinks(l, Links(tt)) by {
      forall x | 0 <= x < |l|
        ensures Slot(l, x) < |l| && Links(tt)[Slot(l, x)] == x
      {
        assert slots[x] == Slot(l, x);
      }
    }
  }

  // ----- SMALL -----

  /** The 20-bit entries of the SMALL form: low 16 bits in `ll16`, high 4 bits packed two to a
      byte in `ll4`. */
  class SmallTable {
    const ll16: array<u16>
    const ll4: array<byte>

    constructor (n: nat)
      ensures Valid() && ll16.Length == n && fresh(ll16) && fresh(ll4)
    {
      ll16 := new u16[n](_ => 0);
      ll4 := new byte[(1 + n) / 2](_ => 0);
    }

    ghost predicate Valid() {
      (1 + ll16.Length) / 2 <= ll4.Length && ll16 as object != ll4
    }

    /** GET_LL4. */
    function Nibble(i: nat): (r: nat)
      requires i < ll16.Length && Valid()
      reads ll4
      ensures r < 16
    {
      if i % 2 == 0 then ll4[i / 2] % 16 else ll4[i / 2] / 16
    }

    /** GET_LL. */
    function Get(i: nat): (r: nat)
      requires i < ll16.Length && Valid()
      reads ll16, ll4
      ensures r < 0x10_0000
    {
      ll16[i] + Nibble(i) * 0x1_0000
    }

    /** All entries, in order. */
    ghost function Entries(n: nat): (r: seq<int>)
      requires n <= ll16.Length && Valid()
      reads ll16, ll4
      ensures |r| == n
    {
      seq(n, i requires 0 <= i < n && Valid() && n <= ll16.Length reads ll16, ll4 => Get(i))
    }

    /** SET_LL: stores 20 bits without touching any other entry. */
    method Set(i: nat, v: nat)
      requires i < ll16.Length && v < 0x10_0000 && Valid()
      modifies ll16, ll4
      ensures Get(i) == v
      ensures forall k :: 0 <= k < ll16.Length && k != i ==> Get(k) == old(Get(k)) && ll16[k] == old(ll16[k])
    {
      ll16[i] := v % 0x1_0000;
      var n := v / 0x1_0000;
      if i % 2 == 0 {
        ll4[i / 2] := ll4[i / 2] / 16 * 16 + n;
      } else {
        ll4[i / 2] := ll4[i / 2] % 16 + n * 16;
      }
      forall k | 0 <= k < ll16.Length && k != i
        ensures Nibble(k) == old(Nibble(k))
      {
        if k / 2 == i / 2 {
          assert k % 2 != i % 2;
        }
      }
    }

    /** decompress.c:529-533: entry i becomes the slot of row i. */
    method ComputeSlots(cftabCopy: array<int>, nblock: nat, ghost l: seq<int>)
      requires Valid() && nblock == |l| <= ll16.Length && nblock <= 900000
      requires cftabCopy.Length == 257 && IsCumulative(cftabCopy[..], l)
      requires cftabCopy != ll16 as object && cftabCopy != ll4 as object
      requires forall x :: 0 <= x < nblock ==> 0 <= l[x] < 256 && ll16[x] == l[x]
      modifies ll16, ll4, cftabCopy
      ensures forall x :: 0 <= x < nblock ==> Get(x) == Slot(l, x)
    {
      assert forall c :: 0 <= c <= 256 ==> cftabCopy[..][c] == cftabCopy[c];
      hide Get, Nibble, CountBelow, IsCumulative;
      for i := 0 to nblock
        invariant forall c :: 0 <= c < 256 ==> cftabCopy[c] == CountBelow(l, nblock, c) + CountEq(l, i, c)
        invariant forall x :: i <= x < nblock ==> ll16[x] == l[x]
        invariant forall x :: 0 <= x < i ==> Get(x) == Slot(l, x)
      {
        var uc := ll16[i];
        SlotInRange(l, i);
        Set(i, cftabCopy[uc]);
        cftabCopy[uc] := cftabCopy[uc] + 1;
      }
    }

    /** decompress.c:536-544: turn round the cycle of the permutation `t` through `origPtr`.
        Afterwards every entry on the cycle holds its predecessor, and no other entry has moved. */
    method ReverseCycle(origPtr: nat, nblock: nat, ghost t: seq<int>) returns (ghost cycle: seq<int>)
      requires Valid() && origPtr < nblock <= ll16.Length && nblock <= 900000 && IsPerm(t, nblock)
      requires forall x :: 0 <= x < nblock ==> Get(x) == t[x]
      modifies ll16, ll4
      ensures Cycle(cycle, t, origPtr)
      ensures forall s :: 0 <= s < |cycle| ==> Get(cycle[s]) == cycle[Prev(|cycle|, s)]
      ensures forall k :: 0 <= k < nblock && k !in cycle ==> Get(k) == t[k]
    {
      hide Get, Nibble;
      var i := origPtr;
      var j := Get(i);
      cycle := [origPtr];
      var done := false;
      while !done
        invariant Path(cycle, t, origPtr)
        invariant 0 <= i < nblock && 0 <= j < nblock
        invariant !done ==> i == cycle[|cycle| - 1] && j == t[i]
        invariant done ==> t[cycle[|cycle| - 1]] == origPtr && Get(origPtr) == cycle[|cycle| - 1]
        invariant forall s :: 1 <= s < |cycle| ==> Get(cycle[s]) == cycle[s - 1]
        invariant forall k :: 0 <= k < nblock && (k !in cycle || (k == origPtr && !done)) ==> Get(k) == t[k]
        decreases !done, nblock - |cycle|
      {
        PathBound(cycle, t, origPtr);
        if j != origPtr {
          PathExtends(cycle, t, origPtr);
        }
        assert Get(j) == t[j];
        var tmp := Get(j);
        Set(j, i);
        i := j;
        j := tmp;
        if i == origPtr {
          done := true;
        } else {
          cycle := cycle + [i];
        }
      }
    }
  }

  /** `origPtr`, its image under the permutation `t`, the image of that, ...: distinct so far. */
  ghost predicate Path(path: seq<int>, t: seq<int>, origPtr: nat)
    requires IsPerm(t, |t|)
  {
    && 0 < |path| && path[0] == origPtr && Distinct(path)
    && (forall s :: 0 <= s < |path| ==> 0 <= path[s] < |t|)
    && (forall s :: 1 <= s < |path| ==> path[s] == t[path[s - 1]])
  }

  /** A path that has come back to where it started. */
  ghost predicate Cycle(path: seq<int>, t: seq<int>, origPtr: nat)
    requires IsPerm(t, |t|)
  {
    && Path(path, t, origPtr)
    && t[path[|path| - 1]] == origPtr
  }

  lemma CycleInRange(path: seq<int>, t: seq<int>, origPtr: nat)
    requires IsPerm(t, |t|) && Cycle(path, t, origPtr)
    ensures forall s :: 0 <= s < |path| ==> 0 <= path[s] < |t|
  {
  }

  lemma PathBound(path: seq<int>, t: seq<int>, origPtr: nat)
    requires IsPerm(t, |t|) && Path(path, t, origPtr)
    ensures |path| <= |t|
  {
    RangeSize(|t|);
    Pigeonhole(path, Range(|t|));
  }

  lemma PathExtends(path: seq<int>, t: seq<int>, origPtr: nat)
    requires IsPerm(t, |t|) && Path(path, t, origPtr) && t[path[|path| - 1]] != origPtr
    ensures t[path[|path| - 1]] !in path
    ensures Path(path + [t[path[|path| - 1]]], t, origPtr)
    ensures |path| < |t|
  {
    var last := path[|path| - 1];
    forall s | 0 <= s < |path|
      ensures path[s] != t[last]
    {
      if 0 < s {
        assert path[s] == t[path[s - 1]];
        assert path[s - 1] != last;
      }
    }
    PathBound(path + [t[last]], t, origPtr);
  }

  // ----- SMALL refines FAST -----

  /** The first column: the byte whose range of rows contains `k`. */
  ghost predicate IsFirstByte(l: seq<int>, k: nat, c: int) {
    CountBelow(l, |l|, c) <= k < CountBelow(l, |l|, c + 1)
  }

  lemma FirstByteUnique(l: seq<int>, k: nat, c: int, d: int)
    requires IsFirstByte(l, k, c) && IsFirstByte(l, k, d)
    ensures c == d
  {
    CountsBound(l, |l|, c);
    CountsBound(l, |l|, d);
    if c < d {
      CountBelowMonotone(l, |l|, c, d);
    } else if d < c {
      CountBelowMonotone(l, |l|, d, c);
    }
  }

  lemma SlotFirstByte(l: seq<int>, x: nat)
    requires x < |l|
    ensures IsFirstByte(l, Slot(l, x), l[x])
  {
    SlotInRange(l, x);
    CountsBound(l, |l|, l[x]);
  }

  /** BZ2_indexIntoF: binary search of the cumulative table for the byte of row `indx`. */
  method IndexIntoF(indx: nat, cftab: array<int>, ghost l: seq<int>) returns (nb: nat)
    requires cftab.Length == 257 && IsCumulative(cftab[..], l)
    requires forall x :: 0 <= x < |l| ==> 0 <= l[x] < 256
    requires indx < |l|
    ensures nb < 256 && IsFirstByte(l, indx, nb)
  {
    assert forall c :: 0 <= c <= 256 ==> cftab[..][c] == cftab[c];
    NoneBelowZero(l, |l|);
    nb := 0;
    var na := 256;
    while na - nb != 1
      invariant 0 <= nb < na <= 256
      invariant cftab[nb] <= indx < cftab[na]
      decreases na - nb
    {
      var mid := (nb + na) / 2;
      if indx >= cftab[mid] {
        nb := mid;
      } else {
        na := mid;
      }
    }
  }

  /** The rows visited when entry `k` is followed `h` times through `entries`. */
  ghost function Follow(entries: seq<int>, k: int, h: nat): (r: int)
    decreases h
  {
    if h == 0 then k
    else if 0 <= k < |entries| then Follow(entries, entries[k], h - 1)
    else k
  }

  /** On a turned-round cycle the entries are the links, and they stay on the cycle. */
  lemma CycleEntriesAreLinks(l: seq<int>, links: seq<int>, entries: seq<int>, cycle: seq<int>, origPtr: nat, k: int)
    requires IsLinks(l, links) && |entries| == |l|
    requires Cycle(cycle, Slots(l), origPtr)
    requires forall s :: 0 <= s < |cycle| ==> entries[cycle[s]] == cycle[Prev(|cycle|, s)]
    requires k in cycle
    ensures 0 <= k < |l| && entries[k] in cycle && entries[k] == links[k]
  {
    var s :| 0 <= s < |cycle| && cycle[s] == k;
    var r := Prev(|cycle|, s);
    assert entries[k] == cycle[r];
    assert Slots(l)[cycle[r]] == k;
    assert links[Slot(l, cycle[r])] == cycle[r];
  }

  /** SMALL refines FAST: after the in-place reversal, following the 20-bit entries from
      `origPtr` visits the rows that following the links visits, step for step. */
  lemma {:induction false} SmallFollowsLinks(l: seq<int>, links: seq<int>, entries: seq<int>, cycle: seq<int>,
                                             origPtr: nat, k: int, h: nat)
    requires IsLinks(l, links) && |entries| == |l|
    requires Cycle(cycle, Slots(l), origPtr)
    requires forall s :: 0 <= s < |cycle| ==> entries[cycle[s]] == cycle[Prev(|cycle|, s)]
    requires k in cycle
    ensures Follow(entries, k, h) == Follow(links, k, h)
    ensures Follow(entries, k, h) in cycle
    decreases h
  {
    if h != 0 {
      CycleEntriesAreLinks(l, links, entries, cycle, origPtr, k);
      SmallFollowsLinks(l, links, entries, cycle, origPtr, entries[k], h - 1);
    }
  }

  /** The first-column byte of a row is the last-column byte of the row its link leads to. */
  lemma FirstByteIsLinkedByte(l: seq<int>, links: seq<int>, k: nat, c: int)
    requires IsLinks(l, links) && k < |l|
    ensures 0 <= links[k] < |l|
    ensures IsFirstByte(l, k, c) <==> c == l[links[k]]
  {
    LinksArePerm(l, links);
    SlotFirstByte(l, links[k]);
    if IsFirstByte(l, k, c) {
      FirstByteUnique(l, k, c, l[links[k]]);
    }
  }
}
