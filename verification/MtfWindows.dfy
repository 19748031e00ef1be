/** The decoder's two-level move-to-front list (decompress.c): sixteen windows of sixteen entries that
    slide down a long array, so that moving an entry costs one window and one step per window before
    it. It behaves as the plain list of its 256 entries. */
module MtfWindows {
  import opened Rotations
  import opened MoveToFront

  /** MTFA_SIZE, MTFL_SIZE. */
  const MTFA := 4096
  const MTFL := 16

  /** Windows lie in order, apart from each other, within the array. */
  ghost predicate Windows(b: seq<int>) {
    && |b| == 16 && 0 <= b[0] && b[15] + MTFL <= MTFA
    && forall i, j :: 0 <= i < j < 16 ==> b[i] + MTFL * (j - i) <= b[j]
  }

  ghost function At(a: seq<byte>, p: int): int {
    if 0 <= p < |a| then a[p] else -1
  }

  /** Entry `j` of window `i`. */
  ghost function Entry(a: seq<byte>, b: seq<int>, i: int, j: int): int {
    if 0 <= i < |b| then At(a, b[i] + j) else -1
  }

  lemma WindowInside(b: seq<int>, i: int)
    requires Windows(b) && 0 <= i < 16
    ensures 0 <= b[i] && b[i] + MTFL * (16 - i) <= MTFA
    ensures forall j :: 0 <= j < i ==> b[j] + MTFL <= b[i]
    ensures forall j :: i < j < 16 ==> b[i] + MTFL <= b[j]
  {
    assert i > 0 ==> b[0] + MTFL * (i - 0) <= b[i];
    assert i < 15 ==> b[i] + MTFL * (15 - i) <= b[15];
    forall j | 0 <= j < i
      ensures b[j] + MTFL <= b[i]
    {
      assert b[j] + MTFL * (i - j) <= b[i];
    }
    forall j | i < j < 16
      ensures b[i] + MTFL <= b[j]
    {
      assert b[i] + MTFL * (j - i) <= b[j];
    }
  }

  /** The list the windows spell. */
  ghost function List(a: seq<byte>, b: seq<int>): (r: seq<int>)
    ensures |r| == 256
  {
    seq(256, k requires 0 <= k < 256 => Entry(a, b, k / 16, k % 16))
  }

  // ----- The general case -----

  /** Within window `w`, the entries before entry `off` have made room. */
  ghost predicate Shifted(a0: seq<byte>, b0: seq<int>, a: seq<byte>, w: int, off: int) {
    && (forall i, j :: 0 <= i < 16 && 0 <= j < 16 && i != w ==> Entry(a, b0, i, j) == Entry(a0, b0, i, j))
    && (forall j :: 1 <= j < 16 ==> Entry(a, b0, w, j) == Entry(a0, b0, w, if j <= off then j - 1 else j))
  }

  /** Windows between `m` and `w` have slid down by one and taken over the last entry of the window
      before them. */
  ghost predicate Carried(a0: seq<byte>, b0: seq<int>, a: seq<byte>, b: seq<int>, w: int, off: int, m: int) {
    && Shifted(a0, b0, a, w, off) && |b| == |b0|
    && (forall i :: 0 <= i < |b| ==> b[i] == b0[i] + if m == i == w then 1 else if m < i < w then -1 else 0)
    && (m < w ==> Entry(a, b0, w, 0) == Entry(a0, b0, w - 1, 15))
    && (forall i :: m < i < w ==> Entry(a, b0, i, -1) == Entry(a0, b0, i - 1, 15))
  }

  /** Writing the last entry of window m-1 at the start of window `w`, or just below window m < w. */
  lemma CarryWrite(a: seq<byte>, b0: seq<int>, w: int, m: int, i: int, j: int)
    requires Windows(b0) && |a| == MTFA && b0[0] > 0 && 0 < m <= w < 16 && 0 <= i < 16 && -1 <= j < 16
    requires j >= 0 || m <= i < w
    ensures var p, v := if m == w then b0[w] else b0[m] - 1, Entry(a, b0, m - 1, 15);
            && 0 <= p < MTFA && 0 <= v < 256
            && Entry(a[p := v], b0, i, j) == if i == m && j == (if m == w then 0 else -1) then v else Entry(a, b0, i, j)
  {
    WindowInside(b0, m);
    WindowInside(b0, i);
  }

  /** One step of the carry loop. */
  lemma CarryStep(a0: seq<byte>, b0: seq<int>, a: seq<byte>, b: seq<int>, w: int, off: int, m: int)
    requires Windows(b0) && |a| == |a0| == MTFA && 0 < m <= w < 16 && b0[0] > 0 && Carried(a0, b0, a, b, w, off, m)
    ensures 0 <= b[m] - 1 < MTFA && 0 <= b[m - 1] + 15 < MTFA
    ensures Carried(a0, b0, a[b[m] - 1 := a[b[m - 1] + 15]], b[m := b[m] - 1], w, off, m - 1)
  {
    WindowInside(b0, m);
    WindowInside(b0, m - 1);
    assert b[m] == b0[m] + (if m == w then 1 else 0) && b[m - 1] == b0[m - 1];
    var v := Entry(a, b0, m - 1, 15);
    assert v == a[b[m - 1] + 15] == Entry(a0, b0, m - 1, 15);
    var a2, b2 := a[b[m] - 1 := v], b[m := b[m] - 1];
    hide Entry, At, Windows;
    forall i, j | 0 <= i < 16 && 0 <= j < 16
      ensures Entry(a2, b0, i, j) == if i == m == w && j == 0 then v else Entry(a, b0, i, j)
    {
      CarryWrite(a, b0, w, m, i, j);
    }
    forall i | m - 1 < i < w
      ensures Entry(a2, b0, i, -1) == Entry(a0, b0, i - 1, 15)
    {
      CarryWrite(a, b0, w, m, i, -1);
    }
  }

  /** Which old entry is entry `j` of window `i` once entry `off` of window `w` has moved to the front. */
  ghost function MovedEntry(a0: seq<byte>, b0: seq<int>, w: int, off: int, i: int, j: int): int {
    if i > w || (i == w && j > off) then Entry(a0, b0, i, j)
    else if j > 0 then Entry(a0, b0, i, j - 1)
    else if i > 0 then Entry(a0, b0, i - 1, 15)
    else Entry(a0, b0, w, off)
  }

  /** All windows before `w` have slid; the moved entry goes in front of everything. */
  lemma CarryDone(a0: seq<byte>, b0: seq<int>, a: seq<byte>, b: seq<int>, w: int, off: int, i: int, j: int)
    requires Windows(b0) && |a| == |a0| == MTFA && 0 < w < 16 && 0 <= off < 16 && b0[0] > 0
    requires Carried(a0, b0, a, b, w, off, 0) && 0 <= i < 16 && 0 <= j < 16
    ensures b[0] == b0[0]
    ensures var a2, b2 := a[b[0] - 1 := a0[b0[w] + off]], b[0 := b[0] - 1];
            Entry(a2, b2, i, j) == MovedEntry(a0, b0, w, off, i, j)
  {
    WindowInside(b0, i);
    WindowInside(b0, w);
    assert b[i] == b0[i] + if i < w && i != 0 then -1 else 0;
    var p := b[i] - (if i == 0 then 1 else 0) + j;
    if i >= w {
      assert At(a, p) == Entry(a, b0, i, j);
    } else if i > 0 || j > 0 {
      assert At(a, p) == Entry(a, b0, i, j - 1);
    }
  }

  lemma CarryWindows(b0: seq<int>, b: seq<int>, w: int)
    requires Windows(b0) && 0 < w < 16 && b0[0] > 0 && |b| == 16
    requires forall i :: 0 <= i < 16 ==> b[i] == b0[i] - if i < w then 1 else 0
    ensures Windows(b)
  {
    forall i, j | 0 <= i < j < 16
      ensures b[i] + MTFL * (j - i) <= b[j]
    {
      assert b0[i] + MTFL * (j - i) <= b0[j];
    }
  }

  lemma ToFrontAt(l: seq<int>, nn: nat, k: nat)
    requires nn < |l| && k < |l|
    ensures ToFront(l, nn)[k] == if k == 0 then l[nn] else if k <= nn then l[k - 1] else l[k]
  {
  }

  lemma Split16(k: nat, w: nat, off: nat)
    requires off < 16
    ensures k > 16 * w + off <==> k / 16 > w || (k / 16 == w && k % 16 > off)
    ensures k > 0 ==> (k - 1) / 16 == (if k % 16 > 0 then k / 16 else k / 16 - 1)
    ensures k > 0 ==> (k - 1) % 16 == (if k % 16 > 0 then k % 16 - 1 else 15)
    ensures k > 0 && k % 16 == 0 ==> k / 16 > 0
    ensures k < 256 ==> k / 16 < 16
    ensures (16 * w + off) / 16 == w && (16 * w + off) % 16 == off
  {
  }

  /** What moving entry `off` of window `w` to the front means, entry by entry. */
  lemma ListMoved(a0: seq<byte>, b0: seq<int>, a: seq<byte>, b: seq<int>, w: int, off: int)
    requires 0 <= w < 16 && 0 <= off < 16
    requires forall i, j :: 0 <= i < 16 && 0 <= j < 16 ==> Entry(a, b, i, j) == MovedEntry(a0, b0, w, off, i, j)
    ensures List(a, b) == ToFront(List(a0, b0), 16 * w + off)
  {
    hide Entry;
    var l, r, nn := List(a0, b0), List(a, b), 16 * w + off;
    forall k | 0 <= k < 256
      ensures r[k] == ToFront(l, nn)[k]
    {
      Split16(k, w, off);
      ToFrontAt(l, nn, k);
      assert l[nn] == Entry(a0, b0, w, off);
      assert r[k] == Entry(a, b, k / 16, k % 16) && l[k] == Entry(a0, b0, k / 16, k % 16);
      if k > 0 {
        assert l[k - 1] == Entry(a0, b0, (k - 1) / 16, (k - 1) % 16);
      }
    }
  }

  // ----- Rebuilding at the top of the array -----

  /** Where entry `j` of window `i` lies when all windows are packed at the top. */
  function Packed(i: int, j: int): int {
    MTFA - 256 + MTFL * i + j
  }

  /** Filling window `w` from its last entry down: entries before `n` and windows before `w` are still
      unread, the others are done. */
  ghost predicate Refilled(a0: seq<byte>, b0: seq<int>, a: seq<byte>, w: int, n: int) {
    && (forall i, j :: 0 <= i < 16 && 0 <= j < 16 && (i < w || (i == w && j < n)) ==>
        Entry(a, b0, i, j) == Entry(a0, b0, i, j))
    && (forall i, j :: 0 <= i < 16 && 0 <= j < 16 && (i > w || (i == w && j >= n)) ==>
        At(a, Packed(i, j)) == Entry(a0, b0, i, j))
  }

  /** Packing one entry overwrites no unread entry and no packed one. */
  lemma RefillStep(a0: seq<byte>, b0: seq<int>, a: seq<byte>, w: int, n: int)
    requires Windows(b0) && |a| == |a0| == MTFA && 0 <= w < 16 && 0 < n <= 16 && Refilled(a0, b0, a, w, n)
    ensures 0 <= b0[w] + n - 1 < MTFA
    ensures Refilled(a0, b0, a[Packed(w, n - 1) := a[b0[w] + n - 1]], w, n - 1)
  {
    WindowInside(b0, w);
    assert a[b0[w] + n - 1] == Entry(a, b0, w, n - 1) == Entry(a0, b0, w, n - 1);
    var a2 := a[Packed(w, n - 1) := a[b0[w] + n - 1]];
    forall i, j | 0 <= i < 16 && 0 <= j < 16 && (i < w || (i == w && j < n - 1))
      ensures Entry(a2, b0, i, j) == Entry(a0, b0, i, j)
    {
      WindowInside(b0, i);
      assert Entry(a, b0, i, j) == Entry(a0, b0, i, j);
    }
    forall i, j | 0 <= i < 16 && 0 <= j < 16 && (i > w || (i == w && j >= n - 1))
      ensures At(a2, Packed(i, j)) == Entry(a0, b0, i, j)
    {
    }
  }

  lemma RefillNext(a0: seq<byte>, b0: seq<int>, a: seq<byte>, w: int)
    requires Refilled(a0, b0, a, w, 0)
    ensures Refilled(a0, b0, a, w - 1, 16)
  {
    hide Entry, At;
  }

  lemma RefillStart(b0: seq<int>, a: seq<byte>)
    ensures Refilled(a, b0, a, 15, 16)
  {
  }

  /** All windows packed: the same list. */
  lemma RefillDone(a0: seq<byte>, b0: seq<int>, a: seq<byte>, b: seq<int>)
    requires Refilled(a0, b0, a, -1, 16) && |b| == 16 && forall i :: 0 <= i < 16 ==> b[i] == Packed(i, 0)
    ensures List(a, b) == List(a0, b0) && Windows(b)
  {
    forall k | 0 <= k < 256
      ensures List(a, b)[k] == List(a0, b0)[k]
    {
      var i, j := k / 16, k % 16;
      assert 0 <= i < 16 && 0 <= j < 16;
      assert List(a, b)[k] == Entry(a, b, i, j) == At(a, Packed(i, j));
    }
    forall i, j | 0 <= i < j < 16
      ensures b[i] + MTFL * (j - i) <= b[j]
    {
    }
  }

  // ----- The fast case -----

  /** Entries below `nn` of the first window shifted up by one. */
  ghost predicate FrontShifted(a0: seq<byte>, a: seq<byte>, pp: int, nn: int, done: int)
    requires 0 <= pp && pp + 16 <= |a0| == |a|
  {
    && (forall p :: 0 <= p < |a| && !(pp + done < p <= pp + nn) ==> a[p] == a0[p])
    && (forall p :: pp + done < p <= pp + nn ==> 0 < p < |a| && a[p] == a0[p - 1])
  }

  lemma FrontDone(a0: seq<byte>, b: seq<int>, a: seq<byte>, nn: int)
    requires Windows(b) && 0 <= nn < 16 && |a0| == |a| == MTFA && b[0] + 16 <= MTFA && FrontShifted(a0, a, b[0], nn, 0)
    ensures List(a[b[0] := a0[b[0] + nn]], b) == ToFront(List(a0, b), nn)
  {
    var a2 := a[b[0] := a0[b[0] + nn]];
    forall i, j | 0 <= i < 16 && 0 <= j < 16
      ensures Entry(a2, b, i, j) == MovedEntry(a0, b, 0, nn, i, j)
    {
      WindowInside(b, i);
    }
    ListMoved(a0, b, a2, b, 0, nn);
  }

  lemma ShiftedWindow(a0: seq<byte>, b: seq<int>, a: seq<byte>, w: int, off: int)
    requires Windows(b) && 0 <= w < 16 && 0 <= off < 16 && |a0| == |a| == MTFA && 0 <= b[w] && b[w] + 16 <= MTFA
    requires FrontShifted(a0, a, b[w], off, 0)
    ensures Shifted(a0, b, a, w, off)
  {
    forall i, j | 0 <= i < 16 && 0 <= j < 16 && i != w
      ensures Entry(a, b, i, j) == Entry(a0, b, i, j)
    {
      WindowInside(b, i);
    }
  }

  lemma CarryStart(a0: seq<byte>, b0: seq<int>, a: seq<byte>, w: int, off: int)
    requires Shifted(a0, b0, a, w, off) && 0 <= w < |b0|
    ensures Carried(a0, b0, a, b0[w := b0[w] + 1], w, off, w)
  {
    hide Shifted;
  }

  /** The sliding move as a whole. */
  lemma SlideDone(a0: seq<byte>, b0: seq<int>, a: seq<byte>, b: seq<int>, w: int, off: int)
    requires Windows(b0) && |a| == |a0| == MTFA && 0 < w < 16 && 0 <= off < 16 && b0[0] > 0
    requires Carried(a0, b0, a, b, w, off, 0) && |b| == 16
    ensures 0 <= b0[w] + off < MTFA && b[0] == b0[0] <= MTFA
    ensures var a2, b2 := a[b[0] - 1 := a0[b0[w] + off]], b[0 := b[0] - 1];
            Windows(b2) && 0 <= b2[0] && List(a2, b2) == ToFront(List(a0, b0), 16 * w + off)
  {
    WindowInside(b0, w);
    WindowInside(b0, 0);
    assert b[0] == b0[0];
    var a2, b2 := a[b[0] - 1 := a0[b0[w] + off]], b[0 := b[0] - 1];
    CarryWindows(b0, b2, w);
    forall i, j | 0 <= i < 16 && 0 <= j < 16
      ensures Entry(a2, b2, i, j) == MovedEntry(a0, b0, w, off, i, j)
    {
      CarryDone(a0, b0, a, b, w, off, i, j);
    }
    ListMoved(a0, b0, a2, b2, w, off);
  }

  lemma ListAt(a: seq<byte>, b: seq<int>, w: int, off: int)
    requires 0 <= w < 16 && 0 <= off < 16
    ensures List(a, b)[16 * w + off] == Entry(a, b, w, off)
  {
    Split16(0, w, off);
  }

  lemma InitialWindows(a: seq<byte>, b: seq<int>)
    requires |a| == MTFA && |b| == 16 && forall i :: 0 <= i < 16 ==> b[i] == Packed(i, 0)
    requires forall k :: Packed(0, 0) <= k < MTFA ==> a[k] == k - Packed(0, 0)
    ensures Windows(b) && List(a, b) == Identity(256)
  {
    forall k | 0 <= k < 256
      ensures List(a, b)[k] == k
    {
      assert List(a, b)[k] == Entry(a, b, k / 16, k % 16);
    }
    forall i, j | 0 <= i < j < 16
      ensures b[i] + MTFL * (j - i) <= b[j]
    {
    }
  }

  // ----- The table -----

  class MtfTable {
    const mtfa: array<byte>
    const mtfbase: array<int>

    ghost predicate Valid()
      reads this, mtfa, mtfbase
    {
      mtfa.Length == MTFA && mtfbase.Length == 16 && Windows(mtfbase[..]) && mtfbase[0] > 0
    }

    /** The list of 256 entries. */
    ghost function L(): (r: seq<int>)
      reads this, mtfa, mtfbase
      ensures |r| == 256
    {
      List(mtfa[..], mtfbase[..])
    }

    constructor ()
      ensures mtfa.Length == MTFA && mtfbase.Length == 16 && fresh(mtfa) && fresh(mtfbase)
    {
      mtfa, mtfbase := new byte[MTFA], new int[16];
    }

    /** MTF init: the identity list, at the top of the array. */
    method Init()
      requires mtfa.Length == MTFA && mtfbase.Length == 16
      modifies mtfa, mtfbase
      ensures Valid() && L() == Identity(256)
    {
      var kk := MTFA - 1;
      var ii := 15;
      while ii >= 0
        invariant -1 <= ii <= 15 && kk == Packed(ii, 15)
        invariant forall i :: ii < i < 16 ==> mtfbase[i] == Packed(i, 0)
        invariant forall k :: Packed(ii, 15) < k < MTFA ==> mtfa[k] == k - Packed(0, 0)
      {
        var jj := MTFL - 1;
        while jj >= 0
          invariant -1 <= jj <= 15 && kk == Packed(ii, jj)
          invariant forall i :: ii < i < 16 ==> mtfbase[i] == Packed(i, 0)
          invariant forall k :: Packed(ii, jj) < k < MTFA ==> mtfa[k] == k - Packed(0, 0)
        {
          mtfa[kk] := ii * MTFL + jj;
          kk := kk - 1;
          jj := jj - 1;
        }
        mtfbase[ii] := kk + 1;
        ii := ii - 1;
      }
      InitialWindows(mtfa[..], mtfbase[..]);
    }

    /** Entries below `nn` of the first window move up, four at a time and then one at a time. */
    method ShiftNear(nn0: nat)
      requires mtfa.Length == MTFA && mtfbase.Length == 16 && 0 <= mtfbase[0] && mtfbase[0] + 16 <= MTFA && nn0 < MTFL
      modifies mtfa
      ensures FrontShifted(old(mtfa[..]), mtfa[..], mtfbase[0], nn0, 0)
    {
      ghost var a0 := mtfa[..];
      var pp, nn := mtfbase[0], nn0;
      while nn > 3
        invariant 0 <= nn <= nn0 && FrontShifted(a0, mtfa[..], pp, nn0, nn)
      {
        var z := pp + nn;
        mtfa[z] := mtfa[z - 1];
        mtfa[z - 1] := mtfa[z - 2];
        mtfa[z - 2] := mtfa[z - 3];
        mtfa[z - 3] := mtfa[z - 4];
        nn := nn - 4;
      }
      while nn > 0
        invariant 0 <= nn <= nn0 && FrontShifted(a0, mtfa[..], pp, nn0, nn)
      {
        mtfa[pp + nn] := mtfa[pp + nn - 1];
        nn := nn - 1;
      }
    }

    /** Entry `nn` of the first window goes to the front. */
    method MoveNear(nn: nat) returns (uc: byte)
      requires Valid() && nn < MTFL
      modifies mtfa
      ensures Valid() && uc == old(L()[nn]) && L() == ToFront(old(L()), nn)
    {
      ghost var a0, b := mtfa[..], mtfbase[..];
      WindowInside(b, 0);
      assert b[0] == mtfbase[0];
      ListAt(a0, b, 0, nn);
      hide ToFront, List, Windows, FrontShifted;
      uc := mtfa[mtfbase[0] + nn];
      ShiftNear(nn);
      FrontDone(a0, b, mtfa[..], nn);
      mtfa[mtfbase[0]] := uc;
    }

    /** `while (pp > mtfbase[lno])`: entries before `off` of window `lno` move up. */
    method ShiftWindow(lno: nat, off: nat)
      requires mtfa.Length == MTFA && mtfbase.Length == 16 && Windows(mtfbase[..]) && lno < 16 && off < 16
      modifies mtfa
      ensures Shifted(old(mtfa[..]), mtfbase[..], mtfa[..], lno, off)
    {
      ghost var a0, b := mtfa[..], mtfbase[..];
      WindowInside(b, lno);
      assert b[lno] == mtfbase[lno];
      hide Windows;
      var pp := mtfbase[lno] + off;
      while pp > mtfbase[lno]
        invariant mtfbase[lno] <= pp <= mtfbase[lno] + off && b == mtfbase[..]
        invariant FrontShifted(a0, mtfa[..], mtfbase[lno], off, pp - mtfbase[lno])
      {
        mtfa[pp] := mtfa[pp - 1];
        pp := pp - 1;
      }
      ShiftedWindow(a0, b, mtfa[..], lno, off);
    }

    /** `while (lno > 0)`: every window before `lno0` slides down by one and takes over the last entry of
        the window before it. */
    method Carry(lno0: nat, ghost a0: seq<byte>, ghost b0: seq<int>, ghost off: nat)
      requires mtfa.Length == MTFA && mtfbase.Length == 16 && Windows(b0) && b0[0] > 0 && 0 < lno0 < 16 && |a0| == MTFA
      requires Carried(a0, b0, mtfa[..], mtfbase[..], lno0, off, lno0)
      modifies mtfa, mtfbase
      ensures Carried(a0, b0, mtfa[..], mtfbase[..], lno0, off, 0)
    {
      hide Carried, Windows;
      var lno := lno0;
      while lno > 0
        invariant 0 <= lno <= lno0
        invariant Carried(a0, b0, mtfa[..], mtfbase[..], lno0, off, lno)
      {
        ghost var a, b := mtfa[..], mtfbase[..];
        CarryStep(a0, b0, a, b, lno0, off, lno);
        mtfbase[lno] := mtfbase[lno] - 1;
        mtfa[mtfbase[lno]] := mtfa[mtfbase[lno - 1] + MTFL - 1];
        lno := lno - 1;
      }
    }

    /** Entry `off` of window `lno` goes to the front of the first window. */
    method Slide(lno: nat, off: nat) returns (uc: byte)
      requires Valid() && 0 < lno < 16 && off < 16
      modifies mtfa, mtfbase
      ensures Windows(mtfbase[..]) && mtfbase[0] >= 0
      ensures uc == old(L()[16 * lno + off]) && L() == ToFront(old(L()), 16 * lno + off)
    {
      ghost var a0, b0 := mtfa[..], mtfbase[..];
      WindowInside(b0, lno);
      assert b0[lno] == mtfbase[lno] && b0[0] == mtfbase[0];
      ListAt(a0, b0, lno, off);
      hide ToFront, List, Windows, Shifted;
      uc := mtfa[mtfbase[lno] + off];
      ShiftWindow(lno, off);
      mtfbase[lno] := mtfbase[lno] + 1;
      CarryStart(a0, b0, mtfa[..], lno, off);
      assert mtfbase[..] == b0[lno := b0[lno] + 1];
      Carry(lno, a0, b0, off);
      SlideDone(a0, b0, mtfa[..], mtfbase[..], lno, off);
      mtfbase[0] := mtfbase[0] - 1;
      mtfa[mtfbase[0]] := uc;
    }

    /** All windows are copied to the top of the array, the last one first. */
    method Rebuild()
      requires mtfa.Length == MTFA && mtfbase.Length == 16 && Windows(mtfbase[..])
      modifies mtfa, mtfbase
      ensures Valid() && L() == old(L())
    {
      ghost var a0, b0 := mtfa[..], mtfbase[..];
      RefillStart(b0, a0);
      var kk, ii := MTFA - 1, 15;
      while ii >= 0
        invariant -1 <= ii <= 15 && kk == Packed(ii, 15)
        invariant forall i :: 0 <= i < 16 ==> mtfbase[i] == if i > ii then Packed(i, 0) else b0[i]
        invariant Refilled(a0, b0, mtfa[..], ii, 16)
      {
        hide Refilled, Windows;
        var jj := MTFL - 1;
        while jj >= 0
          invariant -1 <= jj <= 15 && kk == Packed(ii, jj)
          invariant forall i :: 0 <= i < 16 ==> mtfbase[i] == if i > ii then Packed(i, 0) else b0[i]
          invariant Refilled(a0, b0, mtfa[..], ii, jj + 1)
        {
          RefillStep(a0, b0, mtfa[..], ii, jj + 1);
          ghost var a := mtfa[..];
          mtfa[kk] := mtfa[mtfbase[ii] + jj];
          assert mtfa[..] == a[Packed(ii, jj) := a[b0[ii] + jj]];
          kk := kk - 1;
          jj := jj - 1;
        }
        RefillNext(a0, b0, mtfa[..], ii);
        mtfbase[ii] := kk + 1;
        ii := ii - 1;
      }
      RefillDone(a0, b0, mtfa[..], mtfbase[..]);
    }

    /** uc = MTF ( nextSym-1 ): entry `nn` goes to the front. */
    method Move(nn: nat) returns (uc: byte)
      requires Valid() && nn < 256
      modifies mtfa, mtfbase
      ensures Valid() && uc == old(L()[nn]) && L() == ToFront(old(L()), nn)
    {
      hide ToFront, List, Windows;
      if nn < MTFL {
        uc := MoveNear(nn);
      } else {
        var lno, off := nn / MTFL, nn % MTFL;
        uc := Slide(lno, off);
        if mtfbase[0] == 0 {
          Rebuild();
        }
      }
    }

    /** The front entry. */
    method Front() returns (uc: byte)
      requires Valid()
      ensures uc == L()[0]
    {
      WindowInside(mtfbase[..], 0);
      assert L()[0] == Entry(mtfa[..], mtfbase[..], 0, 0);
      uc := mtfa[mtfbase[0]];
    }
  }
}
