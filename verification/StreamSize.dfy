/** How large a compressed stream can get (compress.c): a fixed cost for each block, and so many bits for each
    byte it stands for. */
module StreamSize {
  import opened Rotations
  import opened RunLength
  import opened Bits
  import opened BitIO
  import opened Bwt
  import opened MoveToFront
  import opened ByteMaps
  import opened BlockFormat
  import opened BlockCheck
  import opened Decompress
  import opened BzDecompress
  import opened CompressBlock
  import opened ImageSize
  import opened BzCompress

  /** Undoing the initial run-length coding loses at most one byte in five. */
  lemma {:induction false} RunsShrink(b: seq<int>, u: nat)
    requires WellFormed(b, u) && u <= |b|
    ensures 4 * (|b| - u) <= 5 * |UnRle(b, u)|
    decreases |b| - u
  {
    if u < |b| {
      if FourEqual(b, u) {
        RunsShrink(b, u + 5);
        assert |UnRle(b, u)| == b[u + 4] + 4 + |UnRle(b, u + 5)|;
      } else {
        RunsShrink(b, u + 1);
      }
    }
  }

  lemma SentPlain(s: Sent, blockSize100k: nat)
    requires ValidSent(s, blockSize100k)
    ensures 0 < 4 * |s.block| <= 5 * |PlainOf(s)|
  {
    hide WellFormed, UnRle, Code, SortedRotations, ValidImage, Used;
    RunsShrink(s.block, 0);
    UnRleBytes(s.block, 0);
  }

  /** One block. */
  lemma SentSize(s: Sent, blockSize100k: nat)
    requires ValidSent(s, blockSize100k) && CodesWithin(s.im, 17)
    ensures ValidImage(s.im) && |PlainOf(s)| > 0 && |BlockBits(s.im, [])| <= 51535 + 22 * |PlainOf(s)|
  {
    hide ValidSent, BlockBits, ValidImage, PlainOf, CodesWithin;
    SentPlain(s, blockSize100k);
    SymbolsFew(s, blockSize100k);
    ImageOf(s, blockSize100k);
    BlockSize(s.im, 17);
    assert TableCost(17) == 8519;
    assert 50 * |s.im.selectors| <= |s.im.syms| + 49;
  }

  /** All blocks. */
  lemma {:induction false} BlocksSize(table: seq<u32>, blockSize100k: nat, bl: seq<Sent>)
    requires blockSize100k <= 9 && GoodBlocks(table, blockSize100k, bl) && AsEncoded(bl)
    ensures ValidImages(bl) && |bl| <= |Plain(bl, |bl|)|
    ensures |StreamSoFar(blockSize100k, bl, [])| <= 32 + 51535 * |bl| + 22 * |Plain(bl, |bl|)|
    decreases |bl|
  {
    hide StreamSoFar, GoodBlocks, ValidSent, ValidImages, BlockBits, PlainOf, Plain, ValidImage, CodesWithin, Encoded;
    GoodImages(table, blockSize100k, bl);
    if bl == [] {
      HeaderSize(blockSize100k);
    } else {
      var front, s := bl[..|bl| - 1], bl[|bl| - 1];
      FrontGood(table, blockSize100k, bl);
      assert AsEncoded(front);
      BlocksSize(table, blockSize100k, front);
      LastGood(table, blockSize100k, bl);
      EncodedAt(bl, |bl| - 1);
      SentSize(s, blockSize100k);
      assert front + [s] == bl;
      StreamGrows(table, blockSize100k, front, s, []);
      PlainMore(table, front, s);
    }
  }

  lemma EncodedAt(bl: seq<Sent>, i: nat)
    requires AsEncoded(bl) && i < |bl|
    ensures CodesWithin(bl[i].im, 17)
  {
    hide CodesWithin;
  }

  lemma FrontGood(table: seq<u32>, blockSize100k: nat, bl: seq<Sent>)
    requires GoodBlocks(table, blockSize100k, bl) && bl != []
    ensures GoodBlocks(table, blockSize100k, bl[..|bl| - 1]) && |table| == 256
  {
    hide ValidSent, PlainOf, BlockCrc;
  }

  lemma {:induction false} BitsSize(s: seq<byte>)
    ensures |BytesBits(s)| == 8 * |s|
  {
    hide BitsOf;
    if s != [] { BitsSize(s[..|s| - 1]); }
  }

  /** What the invariant says of sizes. */
  lemma Parts(s: Compressor)
    requires s.Valid()
    ensures 1 <= s.blockSize100k <= 9 && GoodBlocks(s.buf.crcTable, s.blockSize100k, s.done) && ValidImages(s.done)
    ensures AsEncoded(s.done)
    ensures Plain(s.done, |s.done|) <= s.fed
    ensures s.ended ==>
        |s.pad| < 8 && BytesBits(s.w.zbits) == StreamSoFar(s.blockSize100k, s.done, TrailerBits(s.combinedCRC, s.pad))
    ensures !s.ended ==> s.w.Valid() && (s.w.Out() == [] || s.w.Out() == StreamSoFar(s.blockSize100k, s.done, []))
  {
    hide StreamSoFar, GoodBlocks, ValidImages, AsEncoded, Plain, BitWriter.Valid, BitWriter.Out, TrailerBits;
    hide BytesBits, Apart;
  }

  /** At most 6.5 KB for each block and 22 bits for each byte taken in, and there are no empty blocks. */
  lemma StreamBound(s: Compressor)
    requires s.Valid()
    ensures 8 * |s.w.zbits| <= 120 + 51535 * |s.done| + 22 * |s.fed| && |s.done| <= |s.fed|
  {
    hide StreamSoFar, GoodBlocks, ValidImages, AsEncoded, Plain, BitWriter.Valid, BitWriter.Out, TrailerBits;
    hide BytesBits;
    var table, k, done := s.buf.crcTable, s.blockSize100k, s.done;
    Parts(s);
    BlocksSize(table, k, done);
    if s.ended {
      TrailerSize(s.combinedCRC, s.pad);
      StreamGrows(table, k, done, Sent(Image(0, 0, [], 0, [], [], []), [], []), TrailerBits(s.combinedCRC, s.pad));
      BitsSize(s.w.zbits);
    } else {
      OutSize(s.w);
    }
  }

  /** Full blocks stand for much. */
  lemma {:induction false} FullStand(table: seq<u32>, blockSize100k: nat, bl: seq<Sent>, n: nat)
    requires blockSize100k <= 9 && GoodBlocks(table, blockSize100k, bl) && n <= |bl|
    requires forall i :: 0 <= i < n ==> |bl[i].block| >= 99981
    ensures 399924 * n <= 5 * |Plain(bl, n)|
  {
    hide GoodBlocks, ValidSent, PlainOf;
    if n > 0 {
      FullStand(table, blockSize100k, bl, n - 1);
      GoodAt(table, blockSize100k, bl, n - 1);
      SentPlain(bl[n - 1], blockSize100k);
    }
  }

  lemma GoodAt(table: seq<u32>, blockSize100k: nat, bl: seq<Sent>, i: nat)
    requires GoodBlocks(table, blockSize100k, bl) && i < |bl|
    ensures ValidSent(bl[i], blockSize100k)
  {
    hide ValidSent, PlainOf, BlockCrc;
  }

  /** If no block was cut short by a flush, 6457 bytes and three for each byte taken in are enough. */
  lemma FullBound(s: Compressor)
    requires s.Valid() && FullBlocks(100000 * s.blockSize100k - 19, [], false, s.done, s.ended)
    ensures |s.w.zbits| <= 6457 + 3 * |s.fed|
  {
    hide Compressor.Valid, Plain, GoodBlocks;
    StreamBound(s);
    Parts(s);
    var n := if s.done == [] then 0 else |s.done| - 1;
    FullStand(s.buf.crcTable, s.blockSize100k, s.done, n);
    BzDecompress.PlainPrefix(s.done, n, |s.done|);
  }
}
