/** How large a compressed block can be: its image always fits behind the block in `arr2`, where
    BZ2_compressBlock (compress.c) puts it. */
module ImageSize {
  import opened Rotations
  import MainOrder
  import opened RunLength
  import opened Bits
  import opened Canonical
  import opened MoveToFront
  import opened ByteMaps
  import opened Multiples
  import opened GenerateMtf
  import opened BlockFormat
  import opened BlockCheck
  import opened Decompress
  import opened CompressBlock

  /** What is left of the `4 * (n + N_OVERSHOOT)` bytes of `arr2`. */
  function Room(blockSize100k: nat, nblock: nat): int {
    4 * (100000 * blockSize100k + 34) - nblock
  }

  lemma {:induction false} BytesSize(s: seq<byte>, k: seq<bool>)
    ensures |BytesThen(s, k)| == 8 * |s| + |k|
  {
    hide BitsOf;
    if s != [] { BytesSize(s[1..], k); }
  }

  lemma {:induction false} Map16Size(inUse: seq<bool>, i: nat, k: seq<bool>)
    requires |inUse| == 256 && i <= 16
    ensures |Map16From(inUse, i, k)| == 16 - i + |k|
    decreases 16 - i
  {
    hide AnyOf;
    if i != 16 { Map16Size(inUse, i + 1, k); }
  }

  lemma {:induction false} MapSize(inUse: seq<bool>, i: nat, j: nat, k: seq<bool>)
    requires |inUse| == 256 && i <= 16 && j <= 16
    ensures |MapFrom(inUse, i, j, k)| <= 16 * (16 - i) + |k|
    ensures i < 16 ==> |MapFrom(inUse, i, j, k)| <= 16 * (16 - i) - j + |k|
    decreases 16 - i, 16 - j
  {
    hide AnyOf, MapFrom;
    MapStep(inUse, i, j, k);
    if i != 16 {
      if j == 16 || !AnyOf(inUse, i) {
        MapSize(inUse, i + 1, 0, k);
      } else {
        MapSize(inUse, i, j + 1, k);
      }
    }
  }

  lemma MapStep(inUse: seq<bool>, i: nat, j: nat, k: seq<bool>)
    requires |inUse| == 256 && i <= 16 && j <= 16
    ensures i == 16 ==> MapFrom(inUse, i, j, k) == k
    ensures i < 16 && (j == 16 || !AnyOf(inUse, i)) ==> MapFrom(inUse, i, j, k) == MapFrom(inUse, i + 1, 0, k)
    ensures i < 16 && j < 16 && AnyOf(inUse, i) ==> |MapFrom(inUse, i, j, k)| == 1 + |MapFrom(inUse, i, j + 1, k)|
  {
    hide AnyOf;
  }

  lemma {:induction false} UnarySize(n: nat, k: seq<bool>)
    ensures |UnaryThen(n, k)| == n + 1 + |k|
  {
    if n != 0 { UnarySize(n - 1, k); }
  }

  lemma {:induction false} SelectorsSize(m: seq<int>, i: nat, k: seq<bool>)
    requires i <= |m| && forall x :: 0 <= x < |m| ==> 0 <= m[x] < N_GROUPS
    ensures |SelectorsFrom(m, i, k)| <= N_GROUPS * (|m| - i) + |k|
    decreases |m| - i
  {
    hide UnaryThen;
    if i != |m| {
      SelectorsSize(m, i + 1, k);
      UnarySize(m[i], SelectorsFrom(m, i + 1, k));
    }
  }

  lemma {:induction false} DeltaSize(curr: int, target: int, k: seq<bool>)
    ensures |DeltaThen(curr, target, k)| == 1 + 2 * (if curr < target then target - curr else curr - target) + |k|
    decreases if curr < target then target - curr else curr - target
  {
    if curr < target {
      DeltaSize(curr + 1, target, k);
    } else if curr > target {
      DeltaSize(curr - 1, target, k);
    }
  }

  lemma {:induction false} LensSize(len: seq<int>, i: nat, curr: int, most: nat, k: seq<bool>)
    requires i <= |len| && LengthsWithin(len, 1, most) && 1 <= curr <= most
    ensures |LensFrom(len, i, curr, k)| <= Times(|len| - i, 2 * most - 1) + |k|
    decreases |len| - i
  {
    hide DeltaThen, Times;
    TimesStep(|len| - i, 2 * most - 1);
    if i != |len| {
      LensSize(len, i + 1, len[i], most, k);
      DeltaSize(curr, len[i], LensFrom(len, i + 1, len[i], k));
    }
  }

  lemma {:induction false} TablesSize(lens: seq<seq<int>>, t: nat, most: nat, k: seq<bool>)
    requires t <= |lens| && forall x :: 0 <= x < |lens| ==> |lens[x]| > 0 && lens[x][0] >= 0
    requires most > 0 && forall x :: 0 <= x < |lens| ==> |lens[x]| <= MAX_ALPHA_SIZE && LengthsWithin(lens[x], 1, most)
    ensures |TablesFrom(lens, t, k)| <= Times(|lens| - t, TableCost(most)) + |k|
    decreases |lens| - t
  {
    hide BitsOf, LensFrom, Times;
    TimesStep(|lens| - t, TableCost(most));
    if t != |lens| {
      TablesSize(lens, t + 1, most, k);
      LensSize(lens[t], 0, lens[t][0], most, TablesFrom(lens, t + 1, k));
      TimesMonotone(|lens[t]|, MAX_ALPHA_SIZE, 2 * most - 1);
    }
  }

  /** What a table costs at most: its first length, and for each symbol the steps from one length to the next. */
  function TableCost(most: nat): int {
    5 + Times(MAX_ALPHA_SIZE, 2 * most - 1)
  }

  lemma {:induction false} SymsSize(im: Image, x: nat, most: nat, k: seq<bool>)
    requires x <= |im.syms| && SymsCoded(im) && CodesWithin(im, most)
    ensures |SymsFrom(im, x, k)| <= Times(|im.syms| - x, most) + |k|
    decreases |im.syms| - x
  {
    hide SymsCoded, TableOf, Times, CodesWithin;
    TimesStep(|im.syms| - x, most);
    if x != |im.syms| {
      SymCoded(im, x);
      SymSize(im, x, most);
      hide CodeBits;
      SymsSize(im, x + 1, most, k);
    }
  }

  lemma SymSize(im: Image, x: nat, most: nat)
    requires x < |im.syms| && SymsCoded(im) && CodesWithin(im, most)
    ensures 0 <= im.syms[x] < |TableOf(im, x)| && Decodable(TableOf(im, x))
    ensures |CodeBits(TableOf(im, x), im.syms[x])| <= most
  {
    SymCoded(im, x);
  }

  lemma TableBitsSize(im: Image, most: nat)
    requires ValidImage(im) && CodesWithin(im, most) && most > 0
    ensures |TableBits(im, [])| <= 6 * TableCost(most) + Times(|im.syms|, most)
  {
    hide ValidImage, SymsFrom, TablesFrom, SymsCoded, LengthsWithin, CodesWithin, Times, TableCost;
    ValidTables(im);
    TableRanges(im, most);
    GroupsFew(im);
    SymsSize(im, 0, most, []);
    TablesWhole(im.lens, most, SymbolBits(im, []));
  }

  lemma TablesWhole(lens: seq<seq<int>>, most: nat, k: seq<bool>)
    requires |lens| <= N_GROUPS && forall x :: 0 <= x < |lens| ==> |lens[x]| > 0 && lens[x][0] >= 0
    requires most > 0
    requires forall x :: 0 <= x < |lens| ==> |lens[x]| <= MAX_ALPHA_SIZE && LengthsWithin(lens[x], 1, most)
    ensures |TablesFrom(lens, 0, k)| <= 6 * TableCost(most) + |k|
  {
    hide TablesFrom, LengthsWithin;
    TablesSize(lens, 0, most, k);
    TimesMonotone(|lens|, 6, TableCost(most));
  }

  lemma GroupsFew(im: Image)
    requires ValidImage(im)
    ensures |im.lens| <= N_GROUPS
  { }

  lemma SelectorBitsSize(im: Image)
    requires ValidImage(im)
    ensures |SelectorBits(im, [])| == 18 + |SelectorsFrom(Positions(im), 0, TableBits(im, []))|
    ensures |SelectorBits(im, [])| <= 18 + 6 * |im.selectors| + |TableBits(im, [])|
  {
    hide ValidImage, TableBits, SelectorsFrom, BitsOf, Positions;
    PositionsSmall(im);
    SelectorsSize(Positions(im), 0, TableBits(im, []));
  }

  lemma MapBitsSize(im: Image, most: nat)
    requires ValidImage(im) && CodesWithin(im, most) && most > 0
    ensures |MapBits(im, [])| <= 272 + 18 + 6 * |im.selectors| + 6 * TableCost(most) + Times(|im.syms|, most)
  {
    hide Times, TableCost;
    TableBitsSize(im, most);
    SelectorBitsSize(im);
    MapWhole(im);
    hide ValidImage, SelectorBits, TableBits, MapFrom, Map16From;
    MapSize(im.inUse, 0, 0, SelectorBits(im, []));
    Map16Size(im.inUse, 0, MapFrom(im.inUse, 0, 0, SelectorBits(im, [])));
  }

  lemma MapWhole(im: Image)
    requires ValidImage(im)
    ensures |im.inUse| == 256
  { }

  lemma TableRanges(im: Image, most: nat)
    requires ValidImage(im) && CodesWithin(im, most)
    ensures forall x :: 0 <= x < |im.lens| ==> |im.lens[x]| <= MAX_ALPHA_SIZE && LengthsWithin(im.lens[x], 1, most)
  {
    forall x | 0 <= x < |im.lens|
      ensures |im.lens[x]| <= MAX_ALPHA_SIZE && LengthsWithin(im.lens[x], 1, most)
    {
      assert ValidTable(im.lens[x], |Used(im.inUse, 256)| + 2);
    }
  }

  lemma PositionsSmall(im: Image)
    requires ValidImage(im)
    ensures forall x :: 0 <= x < |Positions(im)| ==> 0 <= Positions(im)[x] < N_GROUPS
  {
    PositionsInRange(Identity(im.nGroups), im.selectors);
  }

  /** Header, map, selectors, tables and symbols together. */
  lemma BlockSize(im: Image, most: nat)
    requires ValidImage(im) && CodesWithin(im, most) && most > 0
    ensures |BlockBits(im, [])| <= 398 + 6 * TableCost(most) + 6 * |im.selectors| + most * |im.syms|
  {
    MapBitsSize(im, most);
    assert Times(|im.syms|, most) == most * |im.syms|;
    hide Times, TableCost, ValidImage, MapBits, BigEndian, BytesThen;
    BytesSize(BigEndian(im.origPtr, 3), MapBits(im, []));
    BytesSize(BLOCK_MAGIC + BigEndian(im.crc, 4), [false] + BytesThen(BigEndian(im.origPtr, 3), MapBits(im, [])));
  }

  /** The decoder accepts codes of up to 20 bits. */
  lemma AnyCodes(im: Image)
    requires ValidImage(im)
    ensures CodesWithin(im, 20)
  {
    forall x | 0 <= x < |im.lens|
      ensures LengthsWithin(im.lens[x], 1, 20)
    {
      assert ValidTable(im.lens[x], |Used(im.inUse, 256)| + 2);
    }
  }

  /** One symbol per byte at most, and the end of the block. */
  lemma SymbolsFew(s: Sent, blockSize100k: nat)
    requires ValidSent(s, blockSize100k)
    ensures |s.im.syms| <= |s.block| + 1
  {
    hide WellFormed, Code, Used, Over;
    var n := |Used(s.im.inUse, 256)|;
    CodeShort(Identity(n), n, MappedColumn(s.im.inUse, s.block, s.order), 0);
  }

  /** With what is left of the block before, the stream header, the trailer and the last padding. */
  lemma ImageFits(s: Sent, blockSize100k: nat)
    requires ValidSent(s, blockSize100k)
    ensures ValidImage(s.im) && 32 + 32 + |BlockBits(s.im, [])| + 80 + 7 <= 8 * Room(blockSize100k, |s.block|)
  {
    SymbolsFew(s, blockSize100k);
    ImageOf(s, blockSize100k);
    hide ValidSent, BlockBits, ValidImage;
    AnyCodes(s.im);
    BlockSize(s.im, 20);
    Enough(|s.im.syms|, |s.im.selectors|, blockSize100k, |s.block|);
  }

  lemma ImageOf(s: Sent, blockSize100k: nat)
    requires ValidSent(s, blockSize100k)
    ensures ValidImage(s.im) && 0 < |s.block| <= 100000 * blockSize100k
    ensures |s.im.selectors| <= (|s.im.syms| + 49) / 50
  { }

  lemma Enough(syms: nat, selectors: nat, blockSize100k: nat, nblock: nat)
    requires syms <= nblock + 1 && selectors <= (syms + 49) / 50 && 0 < nblock <= 100000 * blockSize100k
    ensures 32 + 32 + 60800 + 6 * selectors + 20 * syms + 80 + 7 <= 8 * Room(blockSize100k, nblock)
  {
    assert 50 * selectors <= syms + 49;
  }

  // ----- The stream around the blocks -----

  /** At most one block more, of `nblock` bytes. */
  ghost predicate Grows(before: seq<Sent>, after: seq<Sent>, nblock: nat) {
    if nblock == 0 then after == before
    else after != [] && after[..|after| - 1] == before && |after[|after| - 1].block| == nblock
  }

  lemma GrowsFront(before: seq<Sent>, after: seq<Sent>, nblock: nat)
    requires Grows(before, after, nblock)
    ensures before <= after
  { }

  lemma HeaderSize(blockSize100k: nat)
    requires blockSize100k <= 9
    ensures |StreamSoFar(blockSize100k, [], [])| == 32
  {
    BytesSize(StreamHeader(blockSize100k), BlocksFrom([], 0, []));
  }

  lemma TrailerSize(crc: u32, pad: seq<bool>)
    ensures |TrailerBits(crc, pad)| == 80 + |pad|
  {
    BytesSize(TrailerBytes(crc), pad);
  }

  /** What one block and the end of the stream add to the bits written so far. */
  lemma StreamFits(table: seq<u32>, blockSize100k: nat, before: seq<Sent>, after: seq<Sent>, nblock: nat,
                   tail: seq<bool>)
    requires 1 <= blockSize100k <= 9 && GoodBlocks(table, blockSize100k, before) &&
        GoodBlocks(table, blockSize100k, after)
    requires Grows(before, after, nblock) && |tail| <= 87
    ensures ValidImages(before) && ValidImages(after)
    ensures 64 + |StreamSoFar(blockSize100k, after, tail)| - |StreamSoFar(blockSize100k, before, [])|
            <= 8 * Room(blockSize100k, nblock)
    ensures |StreamSoFar(blockSize100k, after, tail)| >= |StreamSoFar(blockSize100k, before, [])| + |tail|
  {
    hide StreamSoFar, ValidImages, BlockBits, ValidImage;
    GoodImages(table, blockSize100k, before);
    GoodImages(table, blockSize100k, after);
    var s := if nblock == 0 then Sent(Image(0, 0, [], 0, [], [], []), [], []) else after[|after| - 1];
    StreamGrows(table, blockSize100k, after, s, tail);
    if nblock > 0 {
      LastGood(table, blockSize100k, after);
      hide GoodBlocks, ValidSent;
      ImageFits(s, blockSize100k);
      StreamGrows(table, blockSize100k, before, s, []);
      assert before + [s] == after;
    }
  }

  lemma LastGood(table: seq<u32>, blockSize100k: nat, bl: seq<Sent>)
    requires GoodBlocks(table, blockSize100k, bl) && bl != []
    ensures ValidSent(bl[|bl| - 1], blockSize100k)
  { hide ValidSent; }
}
