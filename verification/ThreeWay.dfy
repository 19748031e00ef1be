/** The in-place pieces both quicksorts of blocksort.c are built from: insertion passes, the
    three-way split of Bentley and McIlroy, and the argument that an explicit stack of ranges
    sorts. Element `v` of the array being sorted has key `key[v + d]`. */
module ThreeWay {

  ghost predicate SameOutside(f: seq<int>, g: seq<int>, lo: int, hi: int) {
    && |f| == |g|
    && forall x :: 0 <= x < |f| && (x < lo || hi < x) ==> f[x] == g[x]
  }

  ghost predicate SameBag(f: seq<int>, g: seq<int>) {
    multiset(f) == multiset(g)
  }

  /** `g` is `f` with the entries of lo..hi rearranged. */
  ghost predicate Rearranged(f: seq<int>, g: seq<int>, lo: int, hi: int) {
    SameOutside(f, g, lo, hi) && SameBag(f, g)
  }

  lemma RearrangedTrans(f: seq<int>, g: seq<int>, h: seq<int>, lo: int, hi: int)
    requires Rearranged(f, g, lo, hi) && Rearranged(g, h, lo, hi)
    ensures Rearranged(f, h, lo, hi)
  {
  }

  lemma RearrangedWiden(f: seq<int>, g: seq<int>, lo: int, hi: int, wlo: int, whi: int)
    requires Rearranged(f, g, lo, hi) && wlo <= lo && hi <= whi
    ensures Rearranged(f, g, wlo, whi)
  {
  }

  lemma RangeMultiset(f: seq<int>, lo: int, hi: int)
    requires 0 <= lo <= hi + 1 <= |f|
    ensures multiset(f) == multiset(f[..lo]) + multiset(f[lo..hi + 1]) + multiset(f[hi + 1..])
  {
    assert f == f[..lo] + f[lo..hi + 1] + f[hi + 1..];
  }

  lemma SameRangeMultiset(f: seq<int>, g: seq<int>, lo: int, hi: int)
    requires Rearranged(f, g, lo, hi) && 0 <= lo <= hi + 1 <= |f|
    ensures multiset(f[lo..hi + 1]) == multiset(g[lo..hi + 1])
  {
    RangeMultiset(f, lo, hi);
    RangeMultiset(g, lo, hi);
    assert f[..lo] == g[..lo] && f[hi + 1..] == g[hi + 1..];
    var rest := multiset(f[..lo]) + multiset(f[hi + 1..]);
    assert multiset(f[lo..hi + 1]) == multiset(f) - rest;
    assert multiset(g[lo..hi + 1]) == multiset(g) - rest;
  }

  /** Every entry of the rearranged part comes from the rearranged part. */
  lemma ComesFrom(f: seq<int>, g: seq<int>, lo: int, hi: int, y: int) returns (z: int)
    requires Rearranged(f, g, lo, hi) && 0 <= lo <= y <= hi < |f|
    ensures lo <= z <= hi && g[y] == f[z]
  {
    SameRangeMultiset(f, g, lo, hi);
    var p, q := f[lo..hi + 1], g[lo..hi + 1];
    assert q[y - lo] in multiset(q);
    assert g[y] in p;
    var w :| 0 <= w < |p| && p[w] == g[y];
    z := lo + w;
  }

  /** Entries lo..hi index into the key array. */
  ghost predicate Indexes(f: seq<int>, key: seq<int>, d: nat, lo: int, hi: int) {
    && 0 <= lo && hi < |f|
    && forall x :: lo <= x <= hi ==> 0 <= f[x] && f[x] + d < |key|
  }

  lemma IndexesRearranged(f: seq<int>, g: seq<int>, key: seq<int>, d: nat, lo: int, hi: int)
    requires Indexes(f, key, d, lo, hi) && Rearranged(f, g, lo, hi)
    ensures Indexes(g, key, d, lo, hi)
  {
    forall x | lo <= x <= hi
      ensures 0 <= g[x] && g[x] + d < |key|
    {
      var z := ComesFrom(f, g, lo, hi, x);
    }
  }

  /** The key of the entry at `x`. */
  ghost function KeyAt(f: seq<int>, key: seq<int>, d: nat, x: int): int {
    if 0 <= x < |f| && 0 <= f[x] && f[x] + d < |key| then key[f[x] + d] else 0
  }

  ghost predicate SortedRange(f: seq<int>, key: seq<int>, d: nat, lo: int, hi: int) {
    forall x, y :: lo <= x <= y <= hi ==> KeyAt(f, key, d, x) <= KeyAt(f, key, d, y)
  }

  // ----- Swapping -----

  ghost function Swapped(f: seq<int>, i: int, j: int): (g: seq<int>)
    requires 0 <= i < |f| && 0 <= j < |f|
    ensures |g| == |f|
  {
    f[i := f[j]][j := f[i]]
  }

  lemma SwappedRearranges(f: seq<int>, x: int, y: int, lo: int, hi: int)
    requires 0 <= lo <= x <= hi < |f| && lo <= y <= hi
    ensures Rearranged(f, Swapped(f, x, y), lo, hi)
  {
    if x == y {
      assert Swapped(f, x, y) == f;
    }
  }

  /** fswap/mswap. */
  method Swap(a: array<int>, i: int, j: int)
    requires 0 <= i < a.Length && 0 <= j < a.Length
    modifies a
    ensures a[..] == Swapped(old(a[..]), i, j)
  {
    a[i], a[j] := a[j], a[i];
  }

  /** `g` is `f` with the `n` entries from `p1` on exchanged with those from `p2` on. */
  ghost predicate Exchanged(f: seq<int>, g: seq<int>, p1: int, p2: int, n: int) {
    && |f| == |g|
    && forall x :: 0 <= x < |f| ==>
         var y := if p1 <= x < p1 + n then x + (p2 - p1) else if p2 <= x < p2 + n then x - (p2 - p1) else x;
         0 <= y < |f| ==> g[x] == f[y]
  }

  /** fvswap/mvswap: exchange the `n` entries from `p1` on with those from `p2` on. */
  method VSwap(a: array<int>, p1: int, p2: int, n: int)
    requires 0 <= n && 0 <= p1 && p1 + n <= a.Length && 0 <= p2 && p2 + n <= a.Length
    requires n == 0 || p1 + n <= p2
    modifies a
    ensures Exchanged(old(a[..]), a[..], p1, p2, n) && SameBag(old(a[..]), a[..])
  {
    ghost var f := a[..];
    ghost var cur := f;
    assert Exchanged(f, f, p1, p2, 0) && SameBag(f, f);
    hide Exchanged, SameBag, Swapped;
    for t := 0 to n
      invariant cur == a[..] && |f| == a.Length
      invariant Exchanged(f, cur, p1, p2, t) && SameBag(f, cur)
    {
      Swap(a, p1 + t, p2 + t);
      ExchangeOneMore(f, cur, a[..], p1, p2, t);
      cur := a[..];
    }
  }

  lemma ExchangeOneMore(f: seq<int>, g: seq<int>, h: seq<int>, p1: int, p2: int, t: int)
    requires 0 <= p1 && 0 <= t && p1 + t < p2 && p2 + t < |f|
    requires Exchanged(f, g, p1, p2, t)
    requires h == Swapped(g, p1 + t, p2 + t) && SameBag(f, g)
    ensures Exchanged(f, h, p1, p2, t + 1) && SameBag(f, h)
  {
    assert g[p1 + t] == f[p1 + t] && g[p2 + t] == f[p2 + t];
  }

  // ----- Insertion -----

  /** `f` with its entry `i` taken out and put back just before position `j`. */
  ghost function Inserted(f: seq<int>, i: int, j: int): (g: seq<int>)
    requires 0 <= i < j <= |f|
    ensures |g| == |f|
  {
    f[..i] + f[i + 1..j] + [f[i]] + f[j..]
  }

  lemma InsertedRearranges(f: seq<int>, i: int, j: int)
    requires 0 <= i < j <= |f|
    ensures Rearranged(f, Inserted(f, i, j), i, j - 1)
  {
    var g := Inserted(f, i, j);
    assert f == f[..i] + [f[i]] + f[i + 1..j] + f[j..];
    assert multiset(f) == multiset(f[..i]) + multiset([f[i]]) + multiset(f[i + 1..j]) + multiset(f[j..]);
    assert multiset(g) == multiset(f[..i]) + multiset(f[i + 1..j]) + multiset([f[i]]) + multiset(f[j..]);
  }

  lemma InsertedSorted(f: seq<int>, key: seq<int>, d: nat, i: int, j: int, hi: int)
    requires 0 <= i < j <= hi + 1 <= |f|
    requires SortedRange(f, key, d, i + 1, hi)
    requires j - 1 > i ==> KeyAt(f, key, d, j - 1) <= KeyAt(f, key, d, i)
    requires j <= hi ==> KeyAt(f, key, d, i) <= KeyAt(f, key, d, j)
    ensures SortedRange(Inserted(f, i, j), key, d, i, hi)
  {
    var g := Inserted(f, i, j);
    forall x, y | i <= x <= y <= hi
      ensures KeyAt(g, key, d, x) <= KeyAt(g, key, d, y)
    {
      InsertedAt(f, key, d, i, j, x);
      InsertedAt(f, key, d, i, j, y);
      if x < j - 1 {
        assert KeyAt(f, key, d, x + 1) <= KeyAt(f, key, d, j - 1);
      }
      if j <= y {
        assert KeyAt(f, key, d, j) <= KeyAt(f, key, d, y);
      }
    }
  }

  lemma InsertedAt(f: seq<int>, key: seq<int>, d: nat, i: int, j: int, x: int)
    requires 0 <= i < j <= |f| && i <= x < |f|
    ensures KeyAt(Inserted(f, i, j), key, d, x)
            == KeyAt(f, key, d, if x < j - 1 then x + 1 else if x == j - 1 then i else x)
  {
  }

  /** One insertion of the final pass: entry `i` moves up past the smaller keys. */
  method Insert(a: array<int>, key: array<int>, d: nat, i: int, hi: int)
    requires a != key && 0 <= i <= hi < a.Length
    requires Indexes(a[..], key[..], d, i, hi)
    requires SortedRange(a[..], key[..], d, i + 1, hi)
    modifies a
    ensures Rearranged(old(a[..]), a[..], i, hi)
    ensures SortedRange(a[..], key[..], d, i, hi)
  {
    hide SortedRange, Rearranged, SameBag, SameOutside, KeyAt, Inserted;
    ghost var f, k := a[..], key[..];
    var tmp := a[i];
    var ecTmp := key[tmp + d];
    var j := i + 1;
    ghost var cur := f;
    InsertedNowhere(f, i);
    while j <= hi && ecTmp > key[a[j] + d]
      invariant i + 1 <= j <= hi + 1 && |f| == a.Length
      invariant cur == a[..] && cur[j - 1 := tmp] == Inserted(f, i, j)
      invariant cur[j..] == f[j..]
      invariant forall x :: i < x < j ==> k[f[x] + d] < ecTmp
    {
      assert cur[j] == cur[j..][0] == f[j];
      a[j - 1] := a[j];
      InsertedStep(f, cur, cur[j - 1 := cur[j]], i, j);
      cur := cur[j - 1 := cur[j]];
      j := j + 1;
    }
    assert j <= hi ==> a[j] == cur[j..][0] == f[j];
    a[j - 1] := tmp;
    InsertedRearranges(f, i, j);
    KeysAt(f, k, d, i, hi);
    InsertedSorted(f, k, d, i, j, hi);
    RearrangedWiden(f, Inserted(f, i, j), i, j - 1, i, hi);
  }

  lemma InsertedNowhere(f: seq<int>, i: int)
    requires 0 <= i < |f|
    ensures f[i := f[i]] == f == Inserted(f, i, i + 1)
  {
  }

  lemma KeysAt(f: seq<int>, key: seq<int>, d: nat, lo: int, hi: int)
    requires Indexes(f, key, d, lo, hi)
    ensures forall x :: lo <= x <= hi ==> KeyAt(f, key, d, x) == key[f[x] + d]
  {
  }

  lemma InsertedStep(f: seq<int>, s: seq<int>, t: seq<int>, i: int, j: int)
    requires 0 <= i < j < |f| && |s| == |f| && s[j] == f[j]
    requires s[j - 1 := f[i]] == Inserted(f, i, j) && t == s[j - 1 := s[j]]
    ensures t[j := f[i]] == Inserted(f, i, j + 1)
  {
    assert Inserted(f, i, j + 1) == Inserted(f, i, j)[j - 1 := f[j]][j := f[i]];
  }

  /** One insertion of the stride-four pass: only the contents matter for what follows. */
  method InsertStride(a: array<int>, key: array<int>, d: nat, i: int, hi: int)
    requires a != key && 0 <= i <= hi < a.Length
    requires Indexes(a[..], key[..], d, i, hi)
    modifies a
    ensures Rearranged(old(a[..]), a[..], i, hi)
  {
    hide Rearranged, SameBag, SameOutside;
    ghost var f := a[..];
    var tmp := a[i];
    var ecTmp := key[tmp + d];
    var j := i + 4;
    ghost var cur, g := f, f;
    RearrangedRefl(f, i, hi);
    while j <= hi && ecTmp > key[a[j] + d]
      invariant i + 4 <= j <= hi + 4 && |f| == |g| == a.Length
      invariant cur == a[..] && g == cur[j - 4 := tmp]
      invariant Rearranged(f, g, i, hi)
      invariant j <= hi ==> cur[j..] == f[j..]
    {
      assert cur[j] == cur[j..][0] == f[j];
      a[j - 4] := a[j];
      g := StrideStep(f, g, cur, cur[j - 4 := cur[j]], j - 4, j, tmp, i, hi);
      assert j + 4 <= hi ==> cur[j + 4..] == cur[j..][4..];
      cur := cur[j - 4 := cur[j]];
      j := j + 4;
      assert j <= hi ==> a[j] == cur[j..][0] == f[j];
    }
    a[j - 4] := tmp;
  }

  lemma RearrangedRefl(f: seq<int>, lo: int, hi: int)
    ensures Rearranged(f, f, lo, hi)
  {
  }

  /** Moving entry `y` down into the hole at `x` moves the hole to `y`; with the hole filled by
      `v` the contents only swap two places. */
  lemma StrideStep(f: seq<int>, g: seq<int>, s: seq<int>, t: seq<int>, x: int, y: int, v: int, lo: int, hi: int)
    returns (h: seq<int>)
    requires 0 <= lo <= x <= hi < |s| && lo <= y <= hi && x != y && g == s[x := v] && t == s[x := s[y]] &&
        Rearranged(f, g, lo, hi)
    ensures h == t[y := v] && Rearranged(f, h, lo, hi)
  {
    h := Swapped(g, x, y);
    SwappedRearranges(g, x, y, lo, hi);
    RearrangedTrans(f, g, h, lo, hi);
    HoleMoves(s, g, x, y, v);
  }

  lemma HoleMoves(s: seq<int>, g: seq<int>, x: int, y: int, v: int)
    requires 0 <= x < |s| && 0 <= y < |s| && x != y && g == s[x := v]
    ensures g[x := g[y]][y := g[x]] == s[x := s[y]][y := v]
  {
  }

  /** fallbackSimpleSort: a stride-four pass over longer ranges, then plain insertion, from the
      top down. An empty or one-entry range is left alone. */
  method SimpleSort(a: array<int>, key: array<int>, lo: int, hi: int)
    requires a != key && 0 <= lo <= hi + 1 && hi < a.Length
    requires Indexes(a[..], key[..], 0, lo, hi)
    modifies a
    ensures Rearranged(old(a[..]), a[..], lo, hi)
    ensures SortedRange(a[..], key[..], 0, lo, hi)
  {
    if lo == hi { return; }
    ghost var f := a[..];
    assert Rearranged(f, f, lo, hi);
    var i;
    if hi - lo > 3 {
      i := hi - 4;
      while i >= lo
        invariant lo - 1 <= i <= hi
        invariant Rearranged(f, a[..], lo, hi) && Indexes(a[..], key[..], 0, lo, hi)
      {
        ghost var g := a[..];
        InsertStride(a, key, 0, i, hi);
        Settle(f, g, a[..], key[..], i, lo, hi);
        i := i - 1;
      }
    }
    i := hi - 1;
    while i >= lo
      invariant lo - 2 <= i < hi
      invariant Rearranged(f, a[..], lo, hi) && Indexes(a[..], key[..], 0, lo, hi)
      invariant SortedRange(a[..], key[..], 0, i + 1, hi)
    {
      ghost var g := a[..];
      Insert(a, key, 0, i, hi);
      Settle(f, g, a[..], key[..], i, lo, hi);
      i := i - 1;
    }
  }

  /** Bookkeeping after an insertion into i..hi. */
  lemma Settle(f: seq<int>, g: seq<int>, h: seq<int>, key: seq<int>, i: int, lo: int, hi: int)
    requires Rearranged(f, g, lo, hi) && Rearranged(g, h, i, hi) && lo <= i
    requires Indexes(g, key, 0, lo, hi)
    ensures Rearranged(f, h, lo, hi) && Indexes(h, key, 0, lo, hi)
  {
    RearrangedWiden(g, h, i, hi, lo, hi);
    RearrangedTrans(f, g, h, lo, hi);
    IndexesRearranged(g, h, key, 0, lo, hi);
  }

  // ----- The three-way split -----

  /** While splitting lo..hi around `med`: equal keys collect at both ends, smaller ones to the
      left of `unLo`, larger ones to the right of `unHi`. */
  ghost predicate Splitting(f: seq<int>, key: seq<int>, d: nat, med: int, lo: int, hi: int, ltLo: int, unLo: int,
                            unHi: int, gtHi: int) {
    && lo <= ltLo <= unLo <= unHi + 1 && unHi <= gtHi <= hi
    && (forall x :: lo <= x < ltLo ==> KeyAt(f, key, d, x) == med)
    && (forall x :: ltLo <= x < unLo ==> KeyAt(f, key, d, x) < med)
    && (forall x :: unHi < x <= gtHi ==> KeyAt(f, key, d, x) > med)
    && (forall x :: gtHi < x <= hi ==> KeyAt(f, key, d, x) == med)
  }

  /** The left scan: stops at an entry above `med`, or when nothing is left. */
  method ScanUp(a: array<int>, key: seq<int>, d: nat, med: int, lo: int, hi: int, lt0: int, un0: int, unHi: int,
                gtHi: int)
    returns (ltLo: int, unLo: int)
    requires Indexes(a[..], key, d, lo, hi)
    requires Splitting(a[..], key, d, med, lo, hi, lt0, un0, unHi, gtHi)
    modifies a
    ensures Rearranged(old(a[..]), a[..], lo, hi) && Indexes(a[..], key, d, lo, hi)
    ensures Splitting(a[..], key, d, med, lo, hi, ltLo, unLo, unHi, gtHi) && unLo >= un0
    ensures unLo <= unHi ==> KeyAt(a[..], key, d, unLo) > med
  {
    ghost var f := a[..];
    assert Rearranged(f, f, lo, hi);
    hide Rearranged, SameBag, Swapped;
    ltLo, unLo := lt0, un0;
    while unLo <= unHi
      invariant un0 <= unLo
      invariant Rearranged(f, a[..], lo, hi) && Indexes(a[..], key, d, lo, hi)
      invariant Splitting(a[..], key, d, med, lo, hi, ltLo, unLo, unHi, gtHi)
    {
      hide Splitting;
      ghost var g := a[..];
      var n := key[a[unLo] + d] - med;
      if n == 0 {
        Swap(a, unLo, ltLo);
        SplitSwapLow(g, key, d, med, lo, hi, ltLo, unLo, unHi, gtHi);
        RearrangedTrans(f, g, a[..], lo, hi);
        ltLo := ltLo + 1;
        unLo := unLo + 1;
      } else {
        if n > 0 { break; }
        unLo := unLo + 1;
      }
    }
  }

  lemma SplitSwapLow(f: seq<int>, key: seq<int>, d: nat, med: int, lo: int, hi: int, ltLo: int, unLo: int, unHi: int,
                     gtHi: int)
    requires Indexes(f, key, d, lo, hi) && Splitting(f, key, d, med, lo, hi, ltLo, unLo, unHi, gtHi)
    requires unLo <= unHi && KeyAt(f, key, d, unLo) == med
    ensures var g := Swapped(f, unLo, ltLo);
            && Rearranged(f, g, lo, hi) && Indexes(g, key, d, lo, hi)
            && Splitting(g, key, d, med, lo, hi, ltLo + 1, unLo + 1, unHi, gtHi)
  {
    var g := Swapped(f, unLo, ltLo);
    SwappedRearranges(f, unLo, ltLo, lo, hi);
    forall x | lo <= x <= hi
      ensures KeyAt(g, key, d, x) == KeyAt(f, key, d, if x == unLo then ltLo else if x == ltLo then unLo else x)
    {
    }
  }

  /** The right scan, mirrored. */
  method ScanDown(a: array<int>, key: seq<int>, d: nat, med: int, lo: int, hi: int, ltLo: int, unLo: int, un0: int,
                  gt0: int)
    returns (unHi: int, gtHi: int)
    requires Indexes(a[..], key, d, lo, hi)
    requires Splitting(a[..], key, d, med, lo, hi, ltLo, unLo, un0, gt0)
    requires unLo <= un0 ==> KeyAt(a[..], key, d, unLo) > med
    modifies a
    ensures Rearranged(old(a[..]), a[..], lo, hi) && Indexes(a[..], key, d, lo, hi)
    ensures Splitting(a[..], key, d, med, lo, hi, ltLo, unLo, unHi, gtHi) && unHi <= un0
    ensures unLo <= unHi ==> KeyAt(a[..], key, d, unHi) < med
    ensures unLo <= unHi ==> KeyAt(a[..], key, d, unLo) > med
  {
    ghost var f := a[..];
    assert Rearranged(f, f, lo, hi);
    hide Rearranged, SameBag, Swapped, Indexes, KeyAt;
    unHi, gtHi := un0, gt0;
    while unLo <= unHi
      invariant unHi <= un0
      invariant Rearranged(f, a[..], lo, hi) && Indexes(a[..], key, d, lo, hi)
      invariant Splitting(a[..], key, d, med, lo, hi, ltLo, unLo, unHi, gtHi)
      invariant unLo <= unHi ==> KeyAt(a[..], key, d, unLo) > med
    {
      hide Splitting;
      ghost var g := a[..];
      SplittingRange(g, key, d, med, lo, hi, ltLo, unLo, unHi, gtHi);
      EntryAt(g, key, d, lo, hi, unHi);
      var n := key[a[unHi] + d] - med;
      if n == 0 {
        Swap(a, unHi, gtHi);
        SplitSwapHigh(g, key, d, med, lo, hi, ltLo, unLo, unHi, gtHi);
        RearrangedTrans(f, g, a[..], lo, hi);
        gtHi := gtHi - 1;
        unHi := unHi - 1;
      } else {
        if n < 0 { break; }
        SplitAbove(g, key, d, med, lo, hi, ltLo, unLo, unHi, gtHi);
        unHi := unHi - 1;
      }
    }
  }

  lemma SplittingRange(f: seq<int>, key: seq<int>, d: nat, med: int, lo: int, hi: int, ltLo: int, unLo: int, unHi: int,
                       gtHi: int)
    requires Splitting(f, key, d, med, lo, hi, ltLo, unLo, unHi, gtHi)
    ensures lo <= ltLo <= unLo <= unHi + 1 && unHi <= gtHi <= hi
  { }

  lemma EntryAt(f: seq<int>, key: seq<int>, d: nat, lo: int, hi: int, x: int)
    requires Indexes(f, key, d, lo, hi) && lo <= x <= hi
    ensures 0 <= lo && hi < |f| && 0 <= f[x] && f[x] + d < |key| && KeyAt(f, key, d, x) == key[f[x] + d]
  { }

  lemma SplitAbove(f: seq<int>, key: seq<int>, d: nat, med: int, lo: int, hi: int, ltLo: int, unLo: int, unHi: int,
                   gtHi: int)
    requires Splitting(f, key, d, med, lo, hi, ltLo, unLo, unHi, gtHi) && unLo <= unHi && KeyAt(f, key, d, unHi) > med
    ensures Splitting(f, key, d, med, lo, hi, ltLo, unLo, unHi - 1, gtHi)
  { }

  lemma SplitSwapHigh(f: seq<int>, key: seq<int>, d: nat, med: int, lo: int, hi: int, ltLo: int, unLo: int, unHi: int,
                      gtHi: int)
    requires Indexes(f, key, d, lo, hi) && Splitting(f, key, d, med, lo, hi, ltLo, unLo, unHi, gtHi)
    requires unLo <= unHi && KeyAt(f, key, d, unHi) == med
    ensures var g := Swapped(f, unHi, gtHi);
            && Rearranged(f, g, lo, hi) && Indexes(g, key, d, lo, hi)
            && Splitting(g, key, d, med, lo, hi, ltLo, unLo, unHi - 1, gtHi - 1)
            && (unLo < unHi ==> KeyAt(g, key, d, unLo) == KeyAt(f, key, d, unLo))
  {
    var g := Swapped(f, unHi, gtHi);
    SwappedRearranges(f, unHi, gtHi, lo, hi);
    forall x | lo <= x <= hi
      ensures KeyAt(g, key, d, x) == KeyAt(f, key, d, if x == unHi then gtHi else if x == gtHi then unHi else x)
    {
    }
  }

  lemma SplitSwapMiddle(f: seq<int>, key: seq<int>, d: nat, med: int, lo: int, hi: int, ltLo: int, unLo: int, unHi: int,
                        gtHi: int)
    requires Indexes(f, key, d, lo, hi) && Splitting(f, key, d, med, lo, hi, ltLo, unLo, unHi, gtHi)
    requires unLo < unHi && KeyAt(f, key, d, unLo) > med && KeyAt(f, key, d, unHi) < med
    ensures var g := Swapped(f, unLo, unHi);
            && Rearranged(f, g, lo, hi) && Indexes(g, key, d, lo, hi)
            && Splitting(g, key, d, med, lo, hi, ltLo, unLo + 1, unHi - 1, gtHi)
  {
    var g := Swapped(f, unLo, unHi);
    SwappedRearranges(f, unLo, unHi, lo, hi);
    forall x | lo <= x <= hi
      ensures KeyAt(g, key, d, x) == KeyAt(f, key, d, if x == unLo then unHi else if x == unHi then unLo else x)
    {
    }
  }

  /** Both scans and the exchanges between them, until every entry of lo..hi is classified. */
  method Scan(a: array<int>, key: seq<int>, d: nat, med: int, lo: int, hi: int)
    returns (ltLo: int, unLo: int, gtHi: int)
    requires 0 <= lo <= hi < a.Length && Indexes(a[..], key, d, lo, hi)
    modifies a
    ensures Rearranged(old(a[..]), a[..], lo, hi) && Indexes(a[..], key, d, lo, hi)
    ensures Splitting(a[..], key, d, med, lo, hi, ltLo, unLo, unLo - 1, gtHi)
  {
    ghost var f := a[..];
    assert Rearranged(f, f, lo, hi) && Splitting(f, key, d, med, lo, hi, lo, lo, hi, hi);
    hide Rearranged, KeyAt, SameBag, Indexes, Swapped;
    ltLo, unLo, gtHi := lo, lo, hi;
    var unHi := hi;
    while true
      invariant Rearranged(f, a[..], lo, hi) && Indexes(a[..], key, d, lo, hi)
      invariant Splitting(a[..], key, d, med, lo, hi, ltLo, unLo, unHi, gtHi)
      decreases unHi - unLo
    {
      ghost var u := unHi - unLo;
      ghost var g := a[..];
      ltLo, unLo := ScanUp(a, key, d, med, lo, hi, ltLo, unLo, unHi, gtHi);
      RearrangedTrans(f, g, a[..], lo, hi);
      ghost var h := a[..];
      unHi, gtHi := ScanDown(a, key, d, med, lo, hi, ltLo, unLo, unHi, gtHi);
      RearrangedTrans(f, h, a[..], lo, hi);
      if unLo > unHi { break; }
      ghost var k := a[..];
      Swap(a, unLo, unHi);
      SplitSwapMiddle(k, key, d, med, lo, hi, ltLo, unLo, unHi, gtHi);
      RearrangedTrans(f, k, a[..], lo, hi);
      unLo, unHi := unLo + 1, unHi - 1;
    }
  }

  /** The three parts in order: lo..n below `med`, n+1..m-1 equal to it, m..hi above. */
  ghost predicate Split(f: seq<int>, key: seq<int>, d: nat, med: int, lo: int, n: int, m: int, hi: int) {
    && lo - 1 <= n < m <= hi + 1
    && (forall x :: lo <= x <= n ==> KeyAt(f, key, d, x) < med)
    && (forall x :: n < x < m ==> KeyAt(f, key, d, x) == med)
    && (forall x :: m <= x <= hi ==> KeyAt(f, key, d, x) > med)
  }

  lemma ExchangedRearranges(f: seq<int>, g: seq<int>, p1: int, p2: int, n: int, lo: int, hi: int)
    requires 0 <= n && lo <= p1 && (n == 0 || p1 + n <= p2) && p2 + n - 1 <= hi && lo <= p2
    requires Exchanged(f, g, p1, p2, n) && SameBag(f, g)
    ensures Rearranged(f, g, lo, hi)
  {
  }

  /** The left half in order: `lt` keys below `med`, then equal ones up to `unLo`. */
  ghost predicate HalfGathered(f: seq<int>, key: seq<int>, d: nat, med: int, lo: int, hi: int, lt: int, unLo: int,
                               gtHi: int) {
    && (forall x :: lo <= x < lo + lt ==> KeyAt(f, key, d, x) < med)
    && (forall x :: lo + lt <= x < unLo ==> KeyAt(f, key, d, x) == med)
    && (forall x :: unLo <= x <= gtHi ==> KeyAt(f, key, d, x) > med)
    && (forall x :: gtHi < x <= hi ==> KeyAt(f, key, d, x) == med)
  }

  /** Bringing the equal keys from the left end to the middle. */
  lemma GatherLow(f: seq<int>, g: seq<int>, key: seq<int>, d: nat, med: int, lo: int, hi: int, ltLo: int, unLo: int,
                  gtHi: int, n: int)
    requires 0 <= lo <= hi < |f| && Splitting(f, key, d, med, lo, hi, ltLo, unLo, unLo - 1, gtHi)
    requires n == if ltLo - lo < unLo - ltLo then ltLo - lo else unLo - ltLo
    requires Exchanged(f, g, lo, unLo - n, n)
    ensures HalfGathered(g, key, d, med, lo, hi, unLo - ltLo, unLo, gtHi)
  {
    forall x | lo <= x <= hi
      ensures KeyAt(g, key, d, x) ==
          KeyAt(f, key, d, if x < lo + n then x + (unLo - n - lo) else if unLo - n <= x < unLo then x - (unLo - n - lo)
              else x)
    {
    }
  }

  lemma GatherHigh(f: seq<int>, g: seq<int>, key: seq<int>, d: nat, med: int, lo: int, hi: int, lt: int, unLo: int,
                   gtHi: int, m: int)
    requires 0 <= lo <= lo + lt <= unLo <= gtHi + 1 && gtHi <= hi < |f|
    requires HalfGathered(f, key, d, med, lo, hi, lt, unLo, gtHi)
    requires lo + lt < unLo || gtHi < hi
    requires m == if hi - gtHi < gtHi - unLo + 1 then hi - gtHi else gtHi - unLo + 1
    requires Exchanged(f, g, unLo, hi - m + 1, m)
    ensures Split(g, key, d, med, lo, lo + lt - 1, hi - (gtHi - unLo + 1) + 1, hi)
  {
    forall x | lo <= x <= hi
      ensures KeyAt(g, key, d, x) ==
          KeyAt(f, key, d, if unLo <= x < unLo + m then x + (hi - m + 1 - unLo)
              else if hi - m < x then x - (hi - m + 1 - unLo) else x)
    {
    }
  }

  method GatherLeft(a: array<int>, key: seq<int>, d: nat, med: int, lo: int, hi: int, ltLo: int, unLo: int, gtHi: int)
    requires 0 <= lo <= hi < a.Length
    requires Splitting(a[..], key, d, med, lo, hi, ltLo, unLo, unLo - 1, gtHi)
    modifies a
    ensures Rearranged(old(a[..]), a[..], lo, hi)
    ensures HalfGathered(a[..], key, d, med, lo, hi, unLo - ltLo, unLo, gtHi)
  {
    ghost var f := a[..];
    assert lo <= ltLo <= unLo <= hi + 1;
    hide KeyAt, Rearranged, Exchanged, HalfGathered, Splitting, SameBag;
    var n := if ltLo - lo < unLo - ltLo then ltLo - lo else unLo - ltLo;
    VSwap(a, lo, unLo - n, n);
    ghost var g := a[..];
    ExchangedRearranges(f, g, lo, unLo - n, n, lo, hi);
    GatherLow(f, g, key, d, med, lo, hi, ltLo, unLo, gtHi, n);
  }

  method GatherRight(a: array<int>, key: seq<int>, d: nat, med: int, lo: int, hi: int, lt: int, unLo: int, gtHi: int)
    requires 0 <= lo <= lo + lt <= unLo <= gtHi + 1 && gtHi <= hi < a.Length
    requires HalfGathered(a[..], key, d, med, lo, hi, lt, unLo, gtHi)
    requires lo + lt < unLo || gtHi < hi
    modifies a
    ensures Rearranged(old(a[..]), a[..], lo, hi)
    ensures Split(a[..], key, d, med, lo, lo + lt - 1, hi - (gtHi - unLo + 1) + 1, hi)
  {
    hide KeyAt, Rearranged, Exchanged, HalfGathered, Split, SameBag;
    ghost var f := a[..];
    var unHi := unLo - 1;
    var m := if hi - gtHi < gtHi - unHi then hi - gtHi else gtHi - unHi;
    VSwap(a, unLo, hi - m + 1, m);
    ghost var g := a[..];
    ExchangedRearranges(f, g, unLo, hi - m + 1, m, lo, hi);
    GatherHigh(f, g, key, d, med, lo, hi, lt, unLo, gtHi, m);
  }

  /** Bring the equal keys from both ends to the middle. */
  method Gather(a: array<int>, key: seq<int>, d: nat, med: int, lo: int, hi: int, ltLo: int, unLo: int, gtHi: int)
    returns (n: int, m: int)
    requires 0 <= lo <= hi < a.Length
    requires Splitting(a[..], key, d, med, lo, hi, ltLo, unLo, unLo - 1, gtHi)
    requires lo < ltLo || gtHi < hi
    modifies a
    ensures Rearranged(old(a[..]), a[..], lo, hi)
    ensures Split(a[..], key, d, med, lo, n, m, hi)
    ensures n == lo + (unLo - ltLo) - 1 && m == hi - (gtHi - unLo + 1) + 1
  {
    hide Rearranged, Split, HalfGathered;
    ghost var f := a[..];
    GatherLeft(a, key, d, med, lo, hi, ltLo, unLo, gtHi);
    ghost var g := a[..];
    GatherRight(a, key, d, med, lo, hi, unLo - ltLo, unLo, gtHi);
    RearrangedTrans(f, g, a[..], lo, hi);
    n := lo + unLo - ltLo - 1;
    m := hi - (gtHi - (unLo - 1)) + 1;
  }

  /** Since `med` is one of the keys, some key sits at an end after the scan. */
  lemma SomeEqual(f: seq<int>, key: seq<int>, d: nat, med: int, lo: int, hi: int, ltLo: int, unLo: int, gtHi: int)
    requires Splitting(f, key, d, med, lo, hi, ltLo, unLo, unLo - 1, gtHi)
    requires exists x :: lo <= x <= hi && KeyAt(f, key, d, x) == med
    ensures lo < ltLo || gtHi < hi
    ensures gtHi < ltLo ==> forall x :: lo <= x <= hi ==> KeyAt(f, key, d, x) == med
  {
  }

  /** One partitioning step: scan, and if the keys are not all equal, gather the three parts. */
  method Partition(a: array<int>, key: seq<int>, d: nat, med: int, lo: int, hi: int)
    returns (allEqual: bool, n: int, m: int)
    requires 0 <= lo <= hi < a.Length && Indexes(a[..], key, d, lo, hi)
    requires exists x :: lo <= x <= hi && KeyAt(a[..], key, d, x) == med
    modifies a
    ensures Rearranged(old(a[..]), a[..], lo, hi)
    ensures allEqual ==> forall x :: lo <= x <= hi ==> KeyAt(a[..], key, d, x) == med
    ensures !allEqual ==> Split(a[..], key, d, med, lo, n, m, hi) && n + 1 < m
    ensures !allEqual ==> lo <= n || m <= hi
  {
    hide KeyAt, Rearranged, Split, Indexes;
    ghost var f := a[..];
    var ltLo, unLo, gtHi := Scan(a, key, d, med, lo, hi);
    MedianKept(f, a[..], key, d, med, lo, hi);
    SomeEqual(a[..], key, d, med, lo, hi, ltLo, unLo, gtHi);
    if gtHi < ltLo { return true, lo, hi; }
    ghost var g := a[..];
    n, m := Gather(a, key, d, med, lo, hi, ltLo, unLo, gtHi);
    RearrangedTrans(f, g, a[..], lo, hi);
    allEqual := false;
  }

  lemma MedianKept(f: seq<int>, g: seq<int>, key: seq<int>, d: nat, med: int, lo: int, hi: int)
    requires 0 <= lo <= hi < |f| && Rearranged(f, g, lo, hi)
    requires exists x :: lo <= x <= hi && KeyAt(f, key, d, x) == med
    ensures exists x :: lo <= x <= hi && KeyAt(g, key, d, x) == med
  {
    var x :| lo <= x <= hi && KeyAt(f, key, d, x) == med;
    var z := ComesFrom(g, f, lo, hi, x);
    assert KeyAt(g, key, d, z) == med;
  }

  // ----- Sorting with a stack of ranges -----

  /** Some range on the stack holds both positions. */
  ghost predicate InSome(st: seq<(int, int)>, x: int, y: int) {
    exists s :: 0 <= s < |st| && st[s].0 <= x && y <= st[s].1
  }

  /** Every pair of positions in lo..hi is in order, or still waits in a common range. */
  ghost predicate OrderedBut(f: seq<int>, le: (int, int) -> bool, st: seq<(int, int)>, lo: int, hi: int)
    requires 0 <= lo && hi < |f|
  {
    forall x, y :: lo <= x < y <= hi ==> le(f[x], f[y]) || InSome(st, x, y)
  }

  /** The ranges on the stack lie in lo..hi and do not meet. */
  ghost predicate Apart(st: seq<(int, int)>, lo: int, hi: int) {
    && (forall s :: 0 <= s < |st| ==> lo <= st[s].0 <= st[s].1 + 1 && st[s].1 <= hi)
    && (forall s, t :: 0 <= s < t < |st| ==> st[s].1 < st[t].0 || st[t].1 < st[s].0)
  }

  lemma TopInside(st: seq<(int, int)>, top: (int, int), lo: int, hi: int)
    requires Apart(st + [top], lo, hi)
    ensures lo <= top.0 <= top.1 + 1 && top.1 <= hi
  {
    assert (st + [top])[|st|] == top;
  }

  lemma ApartRefined(st: seq<(int, int)>, top: (int, int), children: seq<(int, int)>, lo: int, hi: int)
    requires Apart(st + [top], lo, hi) && Apart(children, top.0, top.1)
    ensures Apart(st + children, lo, hi)
  {
    var before, after := st + [top], st + children;
    assert before[|st|] == top;
    forall s | 0 <= s < |after|
      ensures lo <= after[s].0 <= after[s].1 + 1 && after[s].1 <= hi
    {
      if s < |st| {
        assert before[s] == st[s];
      } else {
        assert after[s] == children[s - |st|];
      }
    }
    forall s, t | 0 <= s < t < |after|
      ensures after[s].1 < after[t].0 || after[t].1 < after[s].0
    {
      if t < |st| {
        assert before[s] == st[s] && before[t] == st[t];
      } else if s < |st| {
        assert before[s] == st[s] && before[|st|] == top;
        assert after[t] == children[t - |st|];
      } else {
        assert after[s] == children[s - |st|] && after[t] == children[t - |st|];
      }
    }
  }

  /** Replacing the top range by the ranges it was split into keeps every other pair in order. */
  lemma StackStep(f: seq<int>, g: seq<int>, le: (int, int) -> bool, st: seq<(int, int)>, top: (int, int),
                  children: seq<(int, int)>, lo: int, hi: int)
    requires 0 <= lo <= top.0 <= top.1 + 1 && top.1 <= hi < |f| && |g| == |f|
    requires Apart(st + [top], lo, hi) && OrderedBut(f, le, st + [top], lo, hi)
    requires Rearranged(f, g, top.0, top.1)
    requires OrderedBut(g, le, children, top.0, top.1)
    ensures OrderedBut(g, le, st + children, lo, hi)
  {
    forall x, y | lo <= x < y <= hi
      ensures le(g[x], g[y]) || InSome(st + children, x, y)
    {
      if top.0 <= x && y <= top.1 {
        if InSome(children, x, y) {
          var s :| 0 <= s < |children| && children[s].0 <= x && y <= children[s].1;
          assert (st + children)[|st| + s] == children[s];
        }
      } else {
        var u := SourceOf(f, g, top, x);
        var v := SourceOf(f, g, top, y);
        assert u < v;
        if !le(f[u], f[v]) {
          OuterRange(st, top, u, v, x, y, lo, hi);
          var s :| 0 <= s < |st| && st[s].0 <= x && y <= st[s].1;
          assert (st + children)[s] == st[s];
        }
      }
    }
  }

  /** Where the entry now at `x` was: inside the range it may have moved, outside it stayed. */
  lemma SourceOf(f: seq<int>, g: seq<int>, top: (int, int), x: int) returns (z: int)
    requires 0 <= top.0 && top.1 < |f| && 0 <= x < |f| && Rearranged(f, g, top.0, top.1)
    ensures 0 <= z < |f| && g[x] == f[z]
    ensures if top.0 <= x <= top.1 then top.0 <= z <= top.1 else z == x
  {
    if top.0 <= x <= top.1 {
      z := ComesFrom(f, g, top.0, top.1, x);
    } else {
      z := x;
    }
  }

  /** A pair not inside the top range that shares a range shares one lower down. */
  lemma OuterRange(st: seq<(int, int)>, top: (int, int), u: int, v: int, x: int, y: int, lo: int, hi: int)
    requires Apart(st + [top], lo, hi) && InSome(st + [top], u, v)
    requires u < v && x < y && !(top.0 <= x && y <= top.1)
    requires if top.0 <= x <= top.1 then top.0 <= u <= top.1 else u == x
    requires if top.0 <= y <= top.1 then top.0 <= v <= top.1 else v == y
    ensures InSome(st, x, y)
  {
    var all := st + [top];
    var s :| 0 <= s < |all| && all[s].0 <= u && v <= all[s].1;
    assert all[|st|] == top;
    assert s < |st|;
    assert all[s].1 < top.0 || top.1 < all[s].0;
    assert st[s] == all[s];
  }

  /** An empty stack means the whole range is in order. */
  lemma StackEmpty(f: seq<int>, le: (int, int) -> bool, lo: int, hi: int)
    requires 0 <= lo && hi < |f| && OrderedBut(f, le, [], lo, hi)
    ensures forall x, y :: lo <= x < y <= hi ==> le(f[x], f[y])
  {
  }
}
