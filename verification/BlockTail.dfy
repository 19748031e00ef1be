/** What follows a block in the stream does not change how the block is written. */
module BlockTail {
  import opened Rotations
  import opened Bits
  import opened Canonical
  import opened BlockFormat

  lemma Reassociate(a: seq<bool>, b: seq<bool>, m: seq<bool>)
    ensures a + (b + m) == (a + b) + m
  {
  }

  lemma {:induction false} BytesTail(s: seq<byte>, k: seq<bool>, m: seq<bool>)
    ensures BytesThen(s, k + m) == BytesThen(s, k) + m
  {
    hide BitsOf;
    if s != [] {
      BytesTail(s[1..], k, m);
      Reassociate(BitsOf(s[0], 8), BytesThen(s[1..], k), m);
    }
  }

  lemma {:induction false} Map16Tail(inUse: seq<bool>, i: nat, k: seq<bool>, m: seq<bool>)
    requires |inUse| == 256 && i <= 16
    ensures Map16From(inUse, i, k + m) == Map16From(inUse, i, k) + m
    decreases 16 - i
  {
    hide AnyOf;
    if i != 16 {
      Map16Tail(inUse, i + 1, k, m);
      Reassociate([AnyOf(inUse, i)], Map16From(inUse, i + 1, k), m);
    }
  }

  lemma {:induction false} MapTail(inUse: seq<bool>, i: nat, j: nat, k: seq<bool>, m: seq<bool>)
    requires |inUse| == 256 && i <= 16 && j <= 16
    ensures MapFrom(inUse, i, j, k + m) == MapFrom(inUse, i, j, k) + m
    decreases 16 - i, 16 - j
  {
    hide AnyOf;
    if i != 16 {
      if j == 16 || !AnyOf(inUse, i) {
        MapTail(inUse, i + 1, 0, k, m);
      } else {
        MapTail(inUse, i, j + 1, k, m);
        Reassociate([inUse[16 * i + j]], MapFrom(inUse, i, j + 1, k), m);
      }
    }
  }

  lemma {:induction false} UnaryTail(n: nat, k: seq<bool>, m: seq<bool>)
    ensures UnaryThen(n, k + m) == UnaryThen(n, k) + m
  {
    if n == 0 {
      Reassociate([false], k, m);
    } else {
      UnaryTail(n - 1, k, m);
      Reassociate([true], UnaryThen(n - 1, k), m);
    }
  }

  lemma {:induction false} SelectorsTail(s: seq<int>, i: nat, k: seq<bool>, m: seq<bool>)
    requires i <= |s| && forall x :: 0 <= x < |s| ==> s[x] >= 0
    ensures SelectorsFrom(s, i, k + m) == SelectorsFrom(s, i, k) + m
    decreases |s| - i
  {
    hide UnaryThen;
    if i != |s| {
      SelectorsTail(s, i + 1, k, m);
      UnaryTail(s[i], SelectorsFrom(s, i + 1, k), m);
    }
  }

  lemma {:induction false} DeltaTail(curr: int, target: int, k: seq<bool>, m: seq<bool>)
    ensures DeltaThen(curr, target, k + m) == DeltaThen(curr, target, k) + m
    decreases if curr < target then target - curr else curr - target
  {
    if curr < target {
      DeltaTail(curr + 1, target, k, m);
      Reassociate([true, false], DeltaThen(curr + 1, target, k), m);
    } else if curr > target {
      DeltaTail(curr - 1, target, k, m);
      Reassociate([true, true], DeltaThen(curr - 1, target, k), m);
    } else {
      Reassociate([false], k, m);
    }
  }

  lemma {:induction false} LensTail(len: seq<int>, i: nat, curr: int, k: seq<bool>, m: seq<bool>)
    requires i <= |len|
    ensures LensFrom(len, i, curr, k + m) == LensFrom(len, i, curr, k) + m
    decreases |len| - i
  {
    hide DeltaThen;
    if i != |len| {
      LensTail(len, i + 1, len[i], k, m);
      DeltaTail(curr, len[i], LensFrom(len, i + 1, len[i], k), m);
    }
  }

  lemma {:induction false} TablesTail(lens: seq<seq<int>>, t: nat, k: seq<bool>, m: seq<bool>)
    requires t <= |lens| && forall x :: 0 <= x < |lens| ==> |lens[x]| > 0 && lens[x][0] >= 0
    ensures TablesFrom(lens, t, k + m) == TablesFrom(lens, t, k) + m
    decreases |lens| - t
  {
    hide BitsOf, LensFrom;
    if t != |lens| {
      TablesTail(lens, t + 1, k, m);
      LensTail(lens[t], 0, lens[t][0], TablesFrom(lens, t + 1, k), m);
      Reassociate(BitsOf(lens[t][0], 5), LensFrom(lens[t], 0, lens[t][0], TablesFrom(lens, t + 1, k)), m);
    }
  }

  lemma {:induction false} SymsTail(im: Image, x: nat, k: seq<bool>, m: seq<bool>)
    requires x <= |im.syms| && SymsCoded(im)
    ensures SymsFrom(im, x, k + m) == SymsFrom(im, x, k) + m
    decreases |im.syms| - x
  {
    hide CodeBits, SymsCoded, TableOf;
    if x != |im.syms| {
      SymCoded(im, x);
      SymsTail(im, x + 1, k, m);
      Reassociate(CodeBits(TableOf(im, x), im.syms[x]), SymsFrom(im, x + 1, k), m);
    }
  }

  lemma MapBitsTail(im: Image, k: seq<bool>, m: seq<bool>)
    requires ValidImage(im)
    ensures MapBits(im, k + m) == MapBits(im, k) + m
  {
    hide SymsFrom, TablesFrom, SelectorsFrom, MapFrom, Map16From, BitsOf, Positions, SymsCoded;
    ValidTables(im);
    SymsTail(im, 0, k, m);
    TablesTail(im.lens, 0, SymbolBits(im, k), m);
    var s := SelectorsFrom(Positions(im), 0, TableBits(im, k));
    SelectorsTail(Positions(im), 0, TableBits(im, k), m);
    Reassociate(BitsOf(|im.selectors|, 15), s, m);
    Reassociate(BitsOf(im.nGroups, 3), BitsOf(|im.selectors|, 15) + s, m);
    MapTail(im.inUse, 0, 0, SelectorBits(im, k), m);
    Map16Tail(im.inUse, 0, MapFrom(im.inUse, 0, 0, SelectorBits(im, k)), m);
  }

  /** A block and what follows it. */
  lemma BlockBitsTail(im: Image, m: seq<bool>)
    requires ValidImage(im)
    ensures BlockBits(im, m) == BlockBits(im, []) + m
    ensures MapBits(im, m) == MapBits(im, []) + m
  {
    hide BytesThen, MapBits, BigEndian, ValidImage;
    assert [] + m == m;
    MapBitsTail(im, [], m);
    var o := BytesThen(BigEndian(im.origPtr, 3), MapBits(im, []));
    BytesTail(BigEndian(im.origPtr, 3), MapBits(im, []), m);
    Reassociate([false], o, m);
    BytesTail(BLOCK_MAGIC + BigEndian(im.crc, 4), [false] + o, m);
  }
}
