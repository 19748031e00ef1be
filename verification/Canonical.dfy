/** Canonical Huffman codes (huffman.c): BZ2_hbAssignCodes, BZ2_hbCreateDecodeTables and the
    decoding loop of GET_MTF_VAL (decompress.c). */
module Canonical {
  import opened Power
  import opened Bits
  import opened BitIO

  const MAX_ALPHA_SIZE := 258
  const MAX_CODE_LEN := 23

  // ----- The code -----

  /** How many of the first `k` symbols have code length `l`. */
  ghost function Cnt(len: seq<int>, l: int, k: nat): (r: nat)
    requires k <= |len|
    ensures r <= k
  {
    if k == 0 then 0 else Cnt(len, l, k - 1) + if len[k - 1] == l then 1 else 0
  }

  /** How many symbols have code length below `l`. */
  ghost function Cum(len: seq<int>, l: nat): nat {
    if l == 0 then 0 else Cum(len, l - 1) + Cnt(len, l - 1, |len|)
  }

  /** The first code of length `l`. */
  ghost function FirstCode(len: seq<int>, l: nat): nat {
    if l == 0 then 0 else 2 * (FirstCode(len, l - 1) + Cnt(len, l - 1, |len|))
  }

  /** The code of symbol `i`: symbols of one length get consecutive codes in order. */
  ghost function CodeOf(len: seq<int>, i: nat): nat
    requires i < |len| && 0 <= len[i]
  {
    FirstCode(len, len[i]) + Cnt(len, len[i], i)
  }

  ghost function CodeBits(len: seq<int>, i: nat): (r: seq<bool>)
    requires i < |len| && 0 <= len[i]
    ensures |r| == len[i]
  {
    BitsOf(CodeOf(len, i), len[i])
  }

  /** Where symbol `i` comes in order of length, then of value. */
  ghost function Rank(len: seq<int>, i: nat): nat
    requires i < |len| && 0 <= len[i]
  {
    Cum(len, len[i]) + Cnt(len, len[i], i)
  }

  ghost predicate LengthsWithin(len: seq<int>, lo: int, hi: int) {
    forall i :: 0 <= i < |len| ==> lo <= len[i] <= hi
  }

  /** The part of the code space the first `k` symbols take, in units of 2^-top. */
  ghost function KraftSum(len: seq<int>, top: nat, k: nat): nat
    requires k <= |len| && LengthsWithin(len, 0, top)
  {
    if k == 0 then 0 else KraftSum(len, top, k - 1) + Pow2(top - len[k - 1])
  }

  /** The same, counting only symbols with codes shorter than `l`. */
  ghost function UsedBelow(len: seq<int>, top: nat, l: nat, k: nat): nat
    requires k <= |len| && LengthsWithin(len, 0, top)
  {
    if k == 0 then 0 else UsedBelow(len, top, l, k - 1) + if len[k - 1] < l then Pow2(top - len[k - 1]) else 0
  }

  /** Lengths in 1..20 that leave room for every code. */
  ghost predicate Decodable(len: seq<int>) {
    && LengthsWithin(len, 1, 20)
    && KraftSum(len, 20, |len|) <= Pow2(20)
  }

  lemma {:induction false} UsedNone(len: seq<int>, top: nat, k: nat)
    requires k <= |len| && LengthsWithin(len, 0, top)
    ensures UsedBelow(len, top, 0, k) == 0
  {
    if k != 0 {
      UsedNone(len, top, k - 1);
    }
  }

  lemma {:induction false} UsedStep(len: seq<int>, top: nat, l: nat, k: nat)
    requires k <= |len| && LengthsWithin(len, 0, top) && l <= top
    ensures UsedBelow(len, top, l + 1, k) == UsedBelow(len, top, l, k) + Shl(Cnt(len, l, k), top - l)
  {
    if k == 0 {
      ShlZero(top - l);
    } else {
      UsedStep(len, top, l, k - 1);
      if len[k - 1] == l {
        ShlAdd(Cnt(len, l, k - 1), 1, top - l);
        ShlOne(top - l);
      }
    }
  }

  lemma {:induction false} UsedAtMost(len: seq<int>, top: nat, l: nat, k: nat)
    requires k <= |len| && LengthsWithin(len, 0, top)
    ensures UsedBelow(len, top, l, k) <= KraftSum(len, top, k)
  {
    if k != 0 {
      UsedAtMost(len, top, l, k - 1);
    }
  }

  lemma {:induction false} ShlOne(n: nat)
    ensures Shl(1, n) == Pow2(n)
  {
    if n != 0 {
      ShlOne(n - 1);
    }
  }

  /** The first code of length `l`, scaled up, is exactly the room shorter codes take. */
  lemma {:induction false} FirstCodeIsUsed(len: seq<int>, top: nat, l: nat)
    requires LengthsWithin(len, 0, top) && l <= top
    ensures Shl(FirstCode(len, l), top - l) == UsedBelow(len, top, l, |len|)
  {
    if l == 0 {
      ShlZero(top);
      UsedNone(len, top, |len|);
    } else {
      var c, f := Cnt(len, l - 1, |len|), FirstCode(len, l - 1);
      FirstCodeIsUsed(len, top, l - 1);
      UsedStep(len, top, l - 1, |len|);
      ShlAdd(f, c, top - (l - 1));
      ShlTwice(f + c, 1, top - l);
      assert Shl(f + c, 1) == FirstCode(len, l) by {
        assert Shl(f + c, 0) == f + c;
      }
      assert 1 + (top - l) == top - (l - 1);
    }
  }

  /** Every code fits its length. */
  lemma CodesFit(len: seq<int>, l: nat)
    requires Decodable(len) && l <= 20
    ensures FirstCode(len, l) + Cnt(len, l, |len|) <= Pow2(l)
  {
    hide Pow2, FirstCode, Cnt;
    var x := FirstCode(len, l) + Cnt(len, l, |len|);
    FirstCodeIsUsed(len, 20, l);
    UsedStep(len, 20, l, |len|);
    UsedAtMost(len, 20, l + 1, |len|);
    ShlAdd(FirstCode(len, l), Cnt(len, l, |len|), 20 - l);
    ShlPow2(l, 20 - l);
    assert l + (20 - l) == 20;
    if x > Pow2(l) {
      ShlLess(Pow2(l), x, 20 - l);
    }
  }

  lemma {:induction false} ShlLess(x: nat, y: nat, n: nat)
    requires x < y
    ensures Shl(x, n) < Shl(y, n)
  {
    if n != 0 {
      ShlLess(x, y, n - 1);
    }
  }

  lemma {:induction false} ShlPow2(m: nat, n: nat)
    ensures Shl(Pow2(m), n) == Pow2(m + n)
  {
    if n != 0 {
      ShlPow2(m, n - 1);
      assert Pow2(m + n) == 2 * Pow2(m + n - 1);
    }
  }

  lemma {:induction false} CntMonotone(len: seq<int>, l: int, j: nat, k: nat)
    requires j <= k <= |len|
    ensures Cnt(len, l, j) <= Cnt(len, l, k)
    ensures j < k && len[j] == l ==> Cnt(len, l, j) < Cnt(len, l, k)
    decreases k
  {
    if j < k {
      CntMonotone(len, l, j, k - 1);
    }
  }

  lemma CodeFits(len: seq<int>, i: nat)
    requires Decodable(len) && i < |len|
    ensures CodeOf(len, i) < FirstCode(len, len[i]) + Cnt(len, len[i], |len|)
    ensures CodeOf(len, i) < Pow2(len[i])
  {
    CntMonotone(len, len[i], i, |len|);
    CodesFit(len, len[i]);
  }

  /** Longer codes start past everything shorter codes begin with. */
  lemma {:induction false} FirstCodeGrows(len: seq<int>, m: nat, l: nat)
    requires m < l
    ensures Shl(FirstCode(len, m) + Cnt(len, m, |len|), l - m) <= FirstCode(len, l)
    decreases l
  {
    if m + 1 == l {
      assert Shl(FirstCode(len, m) + Cnt(len, m, |len|), 0) == FirstCode(len, m) + Cnt(len, m, |len|);
    } else {
      FirstCodeGrows(len, m, l - 1);
    }
  }

  lemma {:induction false} ShrAtLeast(x: nat, y: nat, n: nat)
    requires Shl(y, n) <= x
    ensures y <= Shr(x, n)
    decreases n
  {
    if n != 0 {
      ShrAtLeast(x / 2, y, n - 1);
    }
  }

  /** The first `m` bits of a longer code lie past all codes of length `m`. */
  lemma PrefixBeyond(len: seq<int>, i: nat, m: nat)
    requires i < |len| && 0 <= m < len[i]
    ensures FirstCode(len, m) + Cnt(len, m, |len|) <= Shr(CodeOf(len, i), len[i] - m)
  {
    FirstCodeGrows(len, m, len[i]);
    ShrAtLeast(CodeOf(len, i), FirstCode(len, m) + Cnt(len, m, |len|), len[i] - m);
  }

  /** No code is the beginning of another. */
  lemma PrefixFree(len: seq<int>, i: nat, j: nat)
    requires Decodable(len) && i < |len| && j < |len| && i != j
    ensures !(CodeBits(len, i) <= CodeBits(len, j))
  {
    hide Pow2, BitsOf, FirstCode;
    CodeFits(len, i);
    CodeFits(len, j);
    if CodeBits(len, i) <= CodeBits(len, j) {
      var d := len[j] - len[i];
      BitsSplit(CodeOf(len, j), len[i], d);
      assert len[i] + d == len[j];
      assert BitsOf(CodeOf(len, i), len[i]) == BitsOf(Shr(CodeOf(len, j), d), len[i]);
      ValueOfBits(CodeOf(len, i), len[i]);
      assert len[i] + d == len[j];
      ShrBound(CodeOf(len, j), len[i], d);
      ValueOfBits(Shr(CodeOf(len, j), d), len[i]);
      if d > 0 {
        PrefixBeyond(len, j, len[i]);
      } else {
        assert Shr(CodeOf(len, j), 0) == CodeOf(len, j);
        if i < j {
          CntMonotone(len, len[i], i, j);
        } else {
          CntMonotone(len, len[i], j, i);
        }
      }
    }
  }

  // ----- Assigning codes -----

  lemma {:induction false} NoShorter(len: seq<int>, lo: nat, l: nat, k: nat)
    requires l < lo && k <= |len| && forall i :: 0 <= i < |len| ==> lo <= len[i]
    ensures Cnt(len, l, k) == 0
  {
    if k != 0 {
      NoShorter(len, lo, l, k - 1);
    }
  }

  lemma {:induction false} StartsAtZero(len: seq<int>, lo: nat, l: nat)
    requires l <= lo && forall i :: 0 <= i < |len| ==> lo <= len[i]
    ensures FirstCode(len, l) == 0 && Cum(len, l) == 0
  {
    if l != 0 {
      StartsAtZero(len, lo, l - 1);
      NoShorter(len, lo, l - 1, |len|);
    }
  }

  /** BZ2_hbAssignCodes. */
  method AssignCodes(code: array<int>, length: array<int>, minLen: nat, maxLen: nat, alphaSize: nat)
    requires code != length && alphaSize <= length.Length && alphaSize <= code.Length
    requires LengthsWithin(length[..alphaSize], minLen, maxLen)
    modifies code
    ensures forall i :: 0 <= i < alphaSize ==> code[i] == CodeOf(length[..alphaSize], i)
  {
    ghost var len := length[..alphaSize];
    StartsAtZero(len, minLen, minLen);
    var vec := 0;
    var n := minLen;
    while n <= maxLen
      invariant len == length[..alphaSize]
      invariant minLen <= n && vec == FirstCode(len, n)
      invariant forall i :: 0 <= i < alphaSize && len[i] < n ==> code[i] == CodeOf(len, i)
      decreases maxLen - n
    {
      for i := 0 to alphaSize
        invariant len == length[..alphaSize]
        invariant vec == FirstCode(len, n) + Cnt(len, n, i)
        invariant forall j :: 0 <= j < alphaSize && (len[j] < n || (len[j] == n && j < i)) ==> code[j] == CodeOf(len, j)
      {
        assert len[i] == length[i];
        if length[i] == n {
          code[i] := vec;
          vec := vec + 1;
        }
      }
      vec := vec * 2;
      n := n + 1;
    }
  }

  // ----- Decoding tables -----

  /** What GET_MTF_VAL relies on: for every length in use, the last code of that length, the offset
      from codes to ranks, and the symbols by rank. */
  ghost predicate Tables(len: seq<int>, minLen: nat, maxLen: nat, limit: seq<int>, base: seq<int>, perm: seq<int>) {
    && |limit| == |base| == |perm| == MAX_ALPHA_SIZE
    && |len| <= MAX_ALPHA_SIZE && minLen <= maxLen <= 20 && LengthsWithin(len, minLen, maxLen)
    && (forall l :: minLen <= l <= maxLen ==> limit[l] == FirstCode(len, l) + Cnt(len, l, |len|) - 1)
    && (forall l :: minLen <= l <= maxLen ==> base[l] == FirstCode(len, l) - Cum(len, l))
    && (forall i :: 0 <= i < |len| ==> Rank(len, i) < |len| && perm[Rank(len, i)] == i)
  }

  /** How many of the first `k` symbols are shorter than `l`. */
  ghost function Shorter(len: seq<int>, l: nat, k: nat): (r: nat)
    requires k <= |len|
    ensures r <= k
  {
    if k == 0 then 0 else Shorter(len, l, k - 1) + if 0 <= len[k - 1] < l then 1 else 0
  }

  lemma {:induction false} ShorterStep(len: seq<int>, l: nat, k: nat)
    requires k <= |len|
    ensures Shorter(len, l + 1, k) == Shorter(len, l, k) + Cnt(len, l, k)
    ensures Shorter(len, 0, k) == 0
  {
    if k != 0 {
      ShorterStep(len, l, k - 1);
    }
  }

  lemma {:induction false} CumIsShorter(len: seq<int>, l: nat)
    ensures Cum(len, l) == Shorter(len, l, |len|)
  {
    if l == 0 {
      ShorterStep(len, 0, |len|);
    } else {
      CumIsShorter(len, l - 1);
      ShorterStep(len, l - 1, |len|);
    }
  }

  lemma CumBound(len: seq<int>, l: nat)
    ensures Cum(len, l) + Cnt(len, l, |len|) <= |len|
  {
    CumIsShorter(len, l);
    CumIsShorter(len, l + 1);
    ShorterStep(len, l, |len|);
  }

  lemma RankBelow(len: seq<int>, i: nat)
    requires i < |len| && 0 <= len[i]
    ensures Rank(len, i) < Cum(len, len[i]) + Cnt(len, len[i], |len|) <= |len|
  {
    CntMonotone(len, len[i], i, |len|);
    CumBound(len, len[i]);
  }

  /** Symbols sorted by code length. */
  method FillPerm(perm: array<int>, length: array<int>, minLen: nat, maxLen: nat, alphaSize: nat)
    requires perm != length && alphaSize <= length.Length && alphaSize <= perm.Length
    requires LengthsWithin(length[..alphaSize], minLen, maxLen)
    modifies perm
    ensures forall i :: 0 <= i < alphaSize ==>
        Rank(length[..alphaSize], i) < alphaSize && perm[Rank(length[..alphaSize], i)] == i
  {
    ghost var len, cur: seq<int> := length[..alphaSize], perm[..];
    hide Ranked, Cum, Cnt, Rank, LengthsWithin;
    NoneRanked(len, cur, minLen, maxLen);
    var pp := 0;
    var n := minLen;
    while n <= maxLen
      invariant len == length[..alphaSize] && cur == perm[..]
      invariant minLen <= n && pp == Cum(len, n)
      invariant Ranked(len, cur, n, 0, pp)
      decreases maxLen - n
    {
      pp := FillLength(perm, length, n, alphaSize, pp, len);
      cur := perm[..];
      RankNext(len, cur, n);
      n := n + 1;
    }
    AllRanked(len, cur, minLen, maxLen, n, pp);
  }

  /** The symbols of one length. */
  method FillLength(perm: array<int>, length: array<int>, n: nat, alphaSize: nat, pp0: nat, ghost len: seq<int>)
    returns (pp: nat)
    requires perm != length && alphaSize <= length.Length && alphaSize <= perm.Length && len == length[..alphaSize]
    requires pp0 == Cum(len, n) && Ranked(len, perm[..], n, 0, pp0)
    modifies perm
    ensures pp == Cum(len, n) + Cnt(len, n, alphaSize) && Ranked(len, perm[..], n, alphaSize, pp)
  {
    hide Ranked, Cum, Cnt, Rank;
    pp := pp0;
    ghost var cur: seq<int> := perm[..];
    CntNone(len, n);
    for j := 0 to alphaSize
      invariant cur == perm[..] && pp == Cum(len, n) + Cnt(len, n, j) && Ranked(len, cur, n, j, pp)
    {
      RankStep(len, cur, n, j);
      assert len[j] == length[j];
      if length[j] == n {
        cur := cur[pp := j];
        perm[pp] := j;
        pp := pp + 1;
      }
    }
  }

  lemma CntNone(len: seq<int>, n: nat)
    ensures Cnt(len, n, 0) == 0
  {
  }

  lemma NoneRanked(len: seq<int>, perm: seq<int>, minLen: nat, maxLen: nat)
    requires LengthsWithin(len, minLen, maxLen)
    ensures Cum(len, minLen) == 0 && Ranked(len, perm, minLen, 0, 0)
  {
    StartsAtZero(len, minLen, minLen);
  }

  lemma AllRanked(len: seq<int>, perm: seq<int>, minLen: nat, maxLen: nat, n: nat, pp: nat)
    requires Ranked(len, perm, n, 0, pp) && LengthsWithin(len, minLen, maxLen) && n > maxLen
    ensures forall i :: 0 <= i < |len| ==> Rank(len, i) < |len| && Rank(len, i) < |perm| && perm[Rank(len, i)] == i
  {
    forall i | 0 <= i < |len|
      ensures Rank(len, i) < |len|
    {
      RankBelow(len, i);
    }
  }

  /** The symbols shorter than `n`, and those of length `n` below `j`, are in place; they fill the
      first `pp` places. */
  ghost predicate Ranked(len: seq<int>, perm: seq<int>, n: nat, j: nat, pp: nat) {
    forall i :: 0 <= i < |len| && 0 <= len[i] && (len[i] < n || (len[i] == n && i < j)) ==>
      Rank(len, i) < pp && Rank(len, i) < |perm| && perm[Rank(len, i)] == i
  }

  lemma RankStep(len: seq<int>, perm: seq<int>, n: nat, j: nat)
    requires j < |len| <= |perm| && Ranked(len, perm, n, j, Cum(len, n) + Cnt(len, n, j))
    ensures len[j] == n ==>
        Cum(len, n) + Cnt(len, n, j) < |len| &&
            Ranked(len, perm[Cum(len, n) + Cnt(len, n, j) := j], n, j + 1, Cum(len, n) + Cnt(len, n, j + 1))
    ensures len[j] != n ==> Ranked(len, perm, n, j + 1, Cum(len, n) + Cnt(len, n, j + 1))
    ensures Cnt(len, n, j + 1) == Cnt(len, n, j) + if len[j] == n then 1 else 0
  {
    if len[j] == n {
      RankBelow(len, j);
    }
  }

  lemma RankNext(len: seq<int>, perm: seq<int>, n: nat)
    requires Ranked(len, perm, n, |len|, Cum(len, n) + Cnt(len, n, |len|))
    ensures Cum(len, n + 1) == Cum(len, n) + Cnt(len, n, |len|) && Ranked(len, perm, n + 1, 0, Cum(len, n + 1))
  {
  }

  lemma CountSteps(len: seq<int>, l: nat)
    ensures l > 0 ==> Cum(len, l) == Cum(len, l - 1) + Cnt(len, l - 1, |len|)
    ensures l > 0 ==> FirstCode(len, l) == 2 * (FirstCode(len, l - 1) + Cnt(len, l - 1, |len|))
    ensures Cum(len, 0) == 0
  {
  }

  /** Length counts, summed up: `base[l]` becomes the number of codes shorter than `l`. */
  method FillBase(base: array<int>, length: array<int>, alphaSize: nat)
    requires base != length && alphaSize <= length.Length && base.Length == MAX_ALPHA_SIZE
    requires LengthsWithin(length[..alphaSize], 0, 20)
    modifies base
    ensures forall l :: 0 <= l < MAX_CODE_LEN ==> base[l] == Cum(length[..alphaSize], l)
  {
    hide Cum;
    ghost var len := length[..alphaSize];
    for i := 0 to MAX_CODE_LEN
      invariant forall l :: 0 <= l < i ==> base[l] == 0
    {
      base[i] := 0;
    }
    for i := 0 to alphaSize
      invariant len == length[..alphaSize] && base[0] == 0
      invariant forall l :: 1 <= l < MAX_CODE_LEN ==> base[l] == Cnt(len, l - 1, i)
    {
      assert len[i] == length[i];
      base[length[i] + 1] := base[length[i] + 1] + 1;
    }
    CountSteps(len, 0);
    for i := 1 to MAX_CODE_LEN
      invariant forall l :: 0 <= l < i ==> base[l] == Cum(len, l)
      invariant forall l :: i <= l < MAX_CODE_LEN ==> base[l] == Cnt(len, l - 1, alphaSize)
    {
      hide Cnt;
      CountSteps(len, i);
      base[i] := base[i] + base[i - 1];
    }
  }

  /** The last code of every length. */
  method FillLimit(limit: array<int>, base: array<int>, minLen: nat, maxLen: nat, ghost len: seq<int>)
    requires limit != base && limit.Length == base.Length == MAX_ALPHA_SIZE && minLen <= maxLen <= 20
    requires LengthsWithin(len, minLen, maxLen)
    requires forall l :: 0 <= l < MAX_CODE_LEN ==> base[l] == Cum(len, l)
    modifies limit
    ensures forall l :: minLen <= l <= maxLen ==> limit[l] == FirstCode(len, l) + Cnt(len, l, |len|) - 1
  {
    hide Cum, FirstCode, Cnt;
    StartsAtZero(len, minLen, minLen);
    for i := 0 to MAX_CODE_LEN {
      limit[i] := 0;
    }
    var vec := 0;
    for i := minLen to maxLen + 1
      invariant vec == FirstCode(len, i)
      invariant forall l :: minLen <= l < i ==> limit[l] == FirstCode(len, l) + Cnt(len, l, |len|) - 1
    {
      CountSteps(len, i + 1);
      assert base[i] == Cum(len, i) && base[i + 1] == Cum(len, i + 1);
      vec := vec + (base[i + 1] - base[i]);
      limit[i] := vec - 1;
      vec := vec * 2;
    }
  }

  /** From counts of shorter codes to offsets from codes to ranks. */
  method FinishBase(limit: array<int>, base: array<int>, minLen: nat, maxLen: nat, ghost len: seq<int>)
    requires limit != base && limit.Length == base.Length == MAX_ALPHA_SIZE && minLen <= maxLen <= 20
    requires LengthsWithin(len, minLen, maxLen)
    requires forall l :: 0 <= l < MAX_CODE_LEN ==> base[l] == Cum(len, l)
    requires forall l :: minLen <= l <= maxLen ==> limit[l] == FirstCode(len, l) + Cnt(len, l, |len|) - 1
    modifies base
    ensures forall l :: minLen <= l <= maxLen ==> base[l] == FirstCode(len, l) - Cum(len, l)
  {
    hide Cum, FirstCode, Cnt;
    StartsAtZero(len, minLen, minLen);
    for i := minLen + 1 to maxLen + 1
      invariant forall l :: minLen <= l < i ==> base[l] == FirstCode(len, l) - Cum(len, l)
      invariant forall l :: i <= l <= maxLen ==> base[l] == Cum(len, l)
    {
      CountSteps(len, i);
      assert limit[i - 1] == FirstCode(len, i - 1) + Cnt(len, i - 1, |len|) - 1;
      base[i] := (limit[i - 1] + 1) * 2 - base[i];
    }
  }

  /** BZ2_hbCreateDecodeTables. */
  method CreateDecodeTables(limit: array<int>, base: array<int>, perm: array<int>, length: array<int>, minLen: nat,
                            maxLen: nat, alphaSize: nat)
    requires limit != base && limit != perm && base != perm && length != limit && length != base && length != perm
    requires limit.Length == base.Length == perm.Length == MAX_ALPHA_SIZE
    requires alphaSize <= length.Length && alphaSize <= MAX_ALPHA_SIZE
    requires minLen <= maxLen <= 20 && LengthsWithin(length[..alphaSize], minLen, maxLen)
    modifies limit, base, perm
    ensures Tables(length[..alphaSize], minLen, maxLen, limit[..], base[..], perm[..])
  {
    hide Cum, FirstCode, Cnt, Rank;
    FillPerm(perm, length, minLen, maxLen, alphaSize);
    FillBase(base, length, alphaSize);
    FillLimit(limit, base, minLen, maxLen, length[..alphaSize]);
    FinishBase(limit, base, minLen, maxLen, length[..alphaSize]);
  }

  // ----- Decoding -----

  /** The next bit of a code, and the value read so far. */
  lemma NextBit(c: nat, l: nat, n: nat)
    requires n < l
    ensures BitsOf(c, l - n) == BitsOf(Shr(c, l - n - 1) % 2, 1) + BitsOf(c, l - n - 1)
    ensures Shr(c, l - n - 1) == 2 * Shr(c, l - n) + Shr(c, l - n - 1) % 2
  {
    BitsSplit(c, 1, l - n - 1);
    assert 1 + (l - n - 1) == l - n;
    ShrStep(c, l - n - 1);
  }

  lemma {:induction false} ShrStep(c: nat, n: nat)
    ensures Shr(c, n + 1) == Shr(c, n) / 2
  {
    if n != 0 {
      ShrStep(c / 2, n - 1);
    } else {
      assert Shr(c, 1) == Shr(c / 2, 0);
    }
  }

  /** With `n` bits of the code of `i` read, the limit test says whether the code is complete. */
  lemma LimitTest(len: seq<int>, minLen: nat, maxLen: nat, limit: seq<int>, base: seq<int>, perm: seq<int>, i: nat,
                  n: nat)
    requires Tables(len, minLen, maxLen, limit, base, perm) && i < |len| && minLen <= n <= len[i]
    ensures Shr(CodeOf(len, i), len[i] - n) <= limit[n] <==> n == len[i]
    ensures n == len[i] ==> 0 <= CodeOf(len, i) - base[n] < |len| && perm[CodeOf(len, i) - base[n]] == i
  {
    hide FirstCode, Cnt, Cum;
    TableEntries(len, minLen, maxLen, limit, base, perm, n, i);
    ShrNone(CodeOf(len, i));
    if n == len[i] {
      CntMonotone(len, len[i], i, |len|);
    } else {
      PrefixBeyond(len, i, n);
    }
  }

  lemma TableEntries(len: seq<int>, minLen: nat, maxLen: nat, limit: seq<int>, base: seq<int>, perm: seq<int>, n: nat,
                     i: nat)
    requires Tables(len, minLen, maxLen, limit, base, perm) && i < |len| && minLen <= n <= len[i]
    ensures |limit| == |base| == |perm| == MAX_ALPHA_SIZE && |len| <= MAX_ALPHA_SIZE && n <= 20
    ensures limit[n] == FirstCode(len, n) + Cnt(len, n, |len|) - 1
    ensures base[n] == FirstCode(len, n) - Cum(len, n)
    ensures Rank(len, i) < |len| && perm[Rank(len, i)] == i
  {
  }

  /** GET_MTF_VAL, from the first bit of a symbol on: if the input begins with the code of `sym`, that
      is the symbol returned and exactly its bits are consumed. */
  method GetSymbol(r: BitReader, limit: array<int>, base: array<int>, perm: array<int>, minLen: nat,
                   ghost len: seq<int>, ghost maxLen: nat, ghost sym: nat, ghost rest: seq<bool>)
    returns (ok: bool, lval: int)
    requires r.Valid() && Tables(len, minLen, maxLen, limit[..], base[..], perm[..]) && sym < |len|
    requires Decodable(len) && r.Unread() == CodeBits(len, sym) + rest
    modifies r
    ensures r.Valid() && ok && lval == sym && r.Unread() == rest
  {
    hide BitsOf, BytesBits, Pow2, FirstCode, Cnt, Shr;
    ghost var c, l := CodeOf(len, sym), len[sym];
    CodeFits(len, sym);
    Opening(c, l, minLen);
    var zn := minLen;
    var got, zvec := r.GetBits(zn);
    FirstBits(c, l, minLen, zvec, r.Unread(), rest);
    while true
      invariant r.Valid() && minLen <= zn <= l
      invariant zvec == Shr(c, l - zn) && r.Unread() == BitsOf(c, l - zn) + rest
      decreases l - zn
    {
      LimitTest(len, minLen, maxLen, limit[..], base[..], perm[..], sym, zn);
      if zn > 20 { return false, -1; }
      if zvec <= limit[zn] { break; }
      NextBit(c, l, zn);
      zn := zn + 1;
      var zj;
      got, zj := r.GetBits(1);
      OneBit(Shr(c, l - zn) % 2, zj, BitsOf(c, l - zn) + rest, r.Unread(), BitsOf(c, l - zn), rest);
      zvec := zvec * 2 + zj;
    }
    ShrNone(c);
    NoBits(c);
    if zvec - base[zn] < 0 || zvec - base[zn] >= MAX_ALPHA_SIZE { return false, -1; }
    lval := perm[zvec - base[zn]];
    ok := true;
  }

  lemma ShrNone(c: nat)
    ensures Shr(c, 0) == c
  {
  }

  lemma Opening(c: nat, l: nat, n: nat)
    requires n <= l
    ensures BitsOf(c, l) == BitsOf(Shr(c, l - n), n) + BitsOf(c, l - n)
  {
    BitsSplit(c, n, l - n);
    assert n + (l - n) == l;
  }

  /** The value read is the one written. */
  lemma SameValue(u: nat, v: nat, n: nat, s: seq<bool>, t: seq<bool>)
    requires u < Pow2(n) && v < Pow2(n) && BitsOf(u, n) + s == BitsOf(v, n) + t
    ensures u == v && s == t
  {
    var x := BitsOf(u, n) + s;
    assert x[..n] == BitsOf(u, n) && x[..n] == BitsOf(v, n);
    assert x[n..] == s && x[n..] == t;
    ValueOfBits(u, n);
    ValueOfBits(v, n);
  }

  lemma FirstBits(c: nat, l: nat, n: nat, v: nat, unread: seq<bool>, rest: seq<bool>)
    requires n <= l && c < Pow2(l) && v < Pow2(n)
    requires BitsOf(v, n) + unread == BitsOf(c, l) + rest
    ensures v == Shr(c, l - n) && unread == BitsOf(c, l - n) + rest
  {
    hide BitsOf, Pow2;
    Opening(c, l, n);
    assert n + (l - n) == l;
    ShrBound(c, n, l - n);
    assert BitsOf(c, l) + rest == BitsOf(Shr(c, l - n), n) + (BitsOf(c, l - n) + rest);
    SameValue(v, Shr(c, l - n), n, unread, BitsOf(c, l - n) + rest);
  }

  lemma OneBit(b: nat, z: nat, t: seq<bool>, unread: seq<bool>, tail: seq<bool>, rest: seq<bool>)
    requires b < 2 && z < Pow2(1) && t == tail + rest
    requires BitsOf(z, 1) + unread == (BitsOf(b, 1) + tail) + rest
    ensures z == b && unread == t
  {
    hide BitsOf;
    assert (BitsOf(b, 1) + tail) + rest == BitsOf(b, 1) + t;
    SameValue(z, b, 1, unread, t);
  }
}
