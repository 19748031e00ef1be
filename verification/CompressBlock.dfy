/** BZ2_compressBlock (compress.c): one block, from its bytes to its bits. */
module CompressBlock {
  import opened Rotations
  import opened Power
  import opened Permutations
  import opened Bits
  import opened BitIO
  import opened Bwt
  import opened RunLength
  import opened BlockCheck
  import opened MoveToFront
  import opened ByteMaps
  import opened GenerateMtf
  import opened SymbolStage
  import opened BlockFormat
  import opened BlockTail
  import opened SendMtf
  import opened Decompress
  import opened BzDecompress
  import opened BlockBuffer

  // ----- Bytes and numbers -----

  lemma {:induction false} BytesLast(s: seq<byte>, c: byte, k: seq<bool>)
    ensures BytesThen(s + [c], k) == BytesThen(s, BitsOf(c, 8) + k)
  {
    hide BitsOf;
    if s == [] {
      assert [] + [c] == [c];
      assert [c][1..] == [];
    } else {
      BytesLast(s[1..], c, k);
      assert (s + [c])[1..] == s[1..] + [c];
    }
  }

  lemma ByteOf(v: nat)
    ensures Shr(v, 8) == v / 256 && BitsOf(v % 256, 8) == BitsOf(v, 8)
  {
    hide BitsOf;
    ShrLow(v, 8);
    ShlByte(Shr(v, 8));
    Pow2Values();
    BitsMasked(v, 8);
    assert v == 256 * Shr(v, 8) + Low(v, 8) && Low(v, 8) < 256;
  }

  /** Writing a number in one go or byte by byte. */
  lemma {:induction false} NumberBits(v: nat, n: nat, k: seq<bool>)
    ensures BytesThen(BigEndian(v, n), k) == BitsOf(v, 8 * n) + k
  {
    hide Shr, BitsOf;
    if n == 0 {
      NoBits(v);
    } else {
      BytesLast(BigEndian(v / 256, n - 1), v % 256, k);
      NumberBits(v / 256, n - 1, BitsOf(v % 256, 8) + k);
      ByteOf(v);
      BitsSplit(v, 8 * (n - 1), 8);
      assert 8 * (n - 1) + 8 == 8 * n;
    }
  }

  /** bsPutUChar, for every byte of `s`. */
  method PutBytes(w: BitWriter, s: seq<byte>, ghost rest: seq<bool>, ghost all: seq<bool>)
    requires w.Valid() && w.Out() + BytesThen(s, rest) == all
    modifies w
    ensures w.Valid() && w.Out() + rest == all
  {
    Pow2Values();
    hide BitWriter.Out, BitWriter.Valid, Pow2, BitsOf;
    for i := 0 to |s|
      invariant w.Valid() && w.Out() + BytesThen(s[i..], rest) == all
    {
      assert s[i..][1..] == s[i + 1..];
      Field(w, 8, s[i], BytesThen(s[i + 1..], rest), all);
    }
  }

  // ----- One block -----

  /** Fixed fields of a block. */
  ghost function Header(crc: nat, origPtr: nat): seq<bool> {
    BytesThen(BLOCK_MAGIC + BigEndian(crc, 4), [false] + BytesThen(BigEndian(origPtr, 3), []))
  }

  lemma HeaderThenMap(im: Image)
    requires ValidImage(im)
    ensures BlockBits(im, []) == Header(im.crc, im.origPtr) + MapBits(im, [])
  {
    hide BytesThen, MapBits, BigEndian, ValidImage;
    var m := MapBits(im, []);
    assert [] + m == m;
    BytesTail(BigEndian(im.origPtr, 3), [], m);
    var o := BytesThen(BigEndian(im.origPtr, 3), []);
    BlockTail.Reassociate([false], o, m);
    BytesTail(BLOCK_MAGIC + BigEndian(im.crc, 4), [false] + o, m);
  }

  method PutHeader(w: BitWriter, crc: nat, origPtr: nat)
    requires w.Valid() && origPtr < 900000
    modifies w
    ensures w.Valid() && w.Out() == old(w.Out()) + Header(crc, origPtr)
  {
    Pow2Values();
    hide BitWriter.Out, BitWriter.Valid, BytesThen, BigEndian, Pow2, BitsOf;
    ghost var all := w.Out() + Header(crc, origPtr);
    ghost var o := BytesThen(BigEndian(origPtr, 3), []);
    PutBytes(w, BLOCK_MAGIC + BigEndian(crc, 4), [false] + o, all);
    Bit(w, false, o, all);
    NumberBits(origPtr, 3, []);
    Field(w, 24, origPtr, [], all);
  }

  /** The sort order as generateMTFValues finds it in memory: `arr1` seen as 16-bit halves. */
  method Halves(ptr: array<int>, nblock: nat) returns (mem: array<int>)
    requires nblock <= ptr.Length && forall i :: 0 <= i < nblock ==> 0 <= ptr[i] < nblock
    ensures fresh(mem) && mem.Length == 2 * nblock && Unread(mem[..], ptr[..nblock], 0)
  {
    mem := new int[2 * nblock](_ => 0);
    for i := 0 to nblock
      invariant forall x :: 0 <= x < i ==> Word(mem[..], x) == ptr[x]
    {
      ghost var m := mem[..];
      mem[2 * i], mem[2 * i + 1] := ptr[i] % 0x1_0000, ptr[i] / 0x1_0000;
      forall x | 0 <= x < i
        ensures Word(mem[..], x) == ptr[x]
      {
        assert Word(m, x) == ptr[x];
      }
    }
  }

  // ----- The stream so far -----

  /** 'B', 'Z', 'h' and the block size as a digit. */
  function StreamHeader(blockSize100k: nat): (r: seq<byte>)
    requires blockSize100k <= 9
  {
    [0x42, 0x5a, 0x68, 0x30 + blockSize100k]
  }

  /** Blocks as sent, each with its own check value. */
  ghost predicate GoodBlocks(table: seq<u32>, blockSize100k: nat, done: seq<Sent>) {
    && |table| == 256 && ValidBlocks(done, blockSize100k)
    && forall i :: 0 <= i < |done| ==> done[i].im.crc == BlockCrc(table, PlainOf(done[i]))
  }

  lemma {:induction false} BlocksAppend(bl: seq<Sent>, s: Sent, i: nat, k: seq<bool>)
    requires i <= |bl| && ValidImages(bl) && ValidImage(s.im)
    ensures BlocksFrom(bl + [s], i, k) == BlocksFrom(bl, i, BlockBits(s.im, k))
    decreases |bl| - i
  {
    hide BlockBits, ValidImage;
    if i == |bl| {
      assert BlocksFrom(bl + [s], i + 1, k) == k;
    } else {
      BlocksAppend(bl, s, i + 1, k);
      assert (bl + [s])[i] == bl[i];
    }
  }

  lemma {:induction false} BlocksTail(bl: seq<Sent>, i: nat, k: seq<bool>)
    requires i <= |bl| && ValidImages(bl)
    ensures BlocksFrom(bl, i, k) == BlocksFrom(bl, i, []) + k
    decreases |bl| - i
  {
    hide BlockBits, ValidImage, BlocksFrom, ValidImages;
    BlocksStep(bl, i, k);
    BlocksStep(bl, i, []);
    if i == |bl| {
      assert [] + k == k;
    } else {
      var im := bl[i].im;
      ImageAt(bl, i);
      BlocksTail(bl, i + 1, k);
      BlockBitsTail(im, BlocksFrom(bl, i + 1, k));
      BlockBitsTail(im, BlocksFrom(bl, i + 1, []));
      BlockTail.Reassociate(BlockBits(im, []), BlocksFrom(bl, i + 1, []), k);
    }
  }

  lemma BlocksStep(bl: seq<Sent>, i: nat, k: seq<bool>)
    requires i <= |bl| && ValidImages(bl)
    ensures i == |bl| ==> BlocksFrom(bl, i, k) == k
    ensures i < |bl| ==> BlocksFrom(bl, i, k) == (ImageAt(bl, i); BlockBits(bl[i].im, BlocksFrom(bl, i + 1, k)))
  {
  }

  ghost function StreamSoFar(blockSize100k: nat, done: seq<Sent>, k: seq<bool>): seq<bool>
    requires blockSize100k <= 9 && ValidImages(done)
  {
    BytesThen(StreamHeader(blockSize100k), BlocksFrom(done, 0, k))
  }

  lemma GoodImages(table: seq<u32>, blockSize100k: nat, done: seq<Sent>)
    requires GoodBlocks(table, blockSize100k, done)
    ensures ValidImages(done)
  {
    forall x | 0 <= x < |done|
      ensures ValidImage(done[x].im)
    {
      assert ValidSent(done[x], blockSize100k);
    }
  }

  /** What the encoder makes: the block is the code of runs as long as they can be, and no code has more than
      17 bits. */
  ghost predicate Encoded(s: Sent) {
    && CodesWithin(s.im, 17)
    && exists runs :: ValidRuns(runs) && s.block == Encode(runs) && PlainOf(s) == Expand(runs)
  }

  ghost predicate AsEncoded(done: seq<Sent>) {
    forall i :: 0 <= i < |done| ==> Encoded(done[i])
  }

  lemma EncodedMore(done: seq<Sent>, s: Sent)
    requires AsEncoded(done) && Encoded(s)
    ensures AsEncoded(done + [s])
  {
    hide Encoded;
  }

  /** One more block, or what ends the stream. */
  lemma StreamGrows(table: seq<u32>, blockSize100k: nat, done: seq<Sent>, s: Sent, k: seq<bool>)
    requires blockSize100k <= 9 && GoodBlocks(table, blockSize100k, done)
    ensures ValidImages(done)
    ensures StreamSoFar(blockSize100k, done, []) + k == StreamSoFar(blockSize100k, done, k)
    ensures ValidImage(s.im) ==> StreamSoFar(blockSize100k, done, []) + BlockBits(s.im, []) ==
                                 StreamSoFar(blockSize100k, done + [s], [])
  {
    GoodImages(table, blockSize100k, done);
    hide BlocksFrom, BytesThen, BlockBits, ValidImage, GoodBlocks, StreamHeader;
    BlocksTail(done, 0, k);
    BytesTail(StreamHeader(blockSize100k), BlocksFrom(done, 0, []), k);
    if ValidImage(s.im) {
      BlocksAppend(done, s, 0, []);
      BlocksTail(done, 0, BlockBits(s.im, []));
      BytesTail(StreamHeader(blockSize100k), BlocksFrom(done, 0, []), BlockBits(s.im, []));
    }
  }

  lemma GoodMore(table: seq<u32>, blockSize100k: nat, done: seq<Sent>, s: Sent)
    requires GoodBlocks(table, blockSize100k, done) && ValidSent(s, blockSize100k)
    requires s.im.crc == BlockCrc(table, PlainOf(s))
    ensures GoodBlocks(table, blockSize100k, done + [s])
  {
    hide ValidSent, BlockCrc, PlainOf;
    forall i | 0 <= i < |done| + 1
      ensures ValidSent((done + [s])[i], blockSize100k)
      ensures (done + [s])[i].im.crc == BlockCrc(table, PlainOf((done + [s])[i]))
    {
    }
  }

  lemma PlainMore(table: seq<u32>, done: seq<Sent>, s: Sent)
    requires |table| == 256
    ensures Plain(done + [s], |done| + 1) == Plain(done, |done|) + PlainOf(s)
    ensures Combined(table, done + [s], |done| + 1) ==
        Combine(Combined(table, done, |done|), BlockCrc(table, PlainOf(s)))
  {
    hide BlockCrc, PlainOf, Combine, Plain, Combined;
    PlainPrefix(table, done, s, |done|);
    PlainStep(table, done + [s], |done|);
  }

  lemma PlainStep(table: seq<u32>, bl: seq<Sent>, n: nat)
    requires n < |bl| && |table| == 256
    ensures Plain(bl, n + 1) == Plain(bl, n) + PlainOf(bl[n])
    ensures Combined(table, bl, n + 1) == Combine(Combined(table, bl, n), BlockCrc(table, PlainOf(bl[n])))
  {
    hide BlockCrc, PlainOf, Combine;
  }

  lemma PlainNone(table: seq<u32>, bl: seq<Sent>)
    requires |table| == 256
    ensures Plain(bl, 0) == [] && Combined(table, bl, 0) == 0
  {
  }

  lemma {:induction false} PlainPrefix(table: seq<u32>, done: seq<Sent>, s: Sent, n: nat)
    requires n <= |done| && |table| == 256
    ensures Plain(done + [s], n) == Plain(done, n) && Combined(table, done + [s], n) == Combined(table, done, n)
  {
    hide BlockCrc, PlainOf, Combine, Plain, Combined;
    if n == 0 {
      PlainNone(table, done + [s]);
      PlainNone(table, done);
    } else {
      PlainPrefix(table, done, s, n - 1);
      PlainStep(table, done + [s], n - 1);
      PlainStep(table, done, n - 1);
      assert (done + [s])[n - 1] == done[n - 1];
    }
  }

  // ----- Writing a block -----

  /** What the encoder has of a block makes it fit to be sent. */
  lemma BlockSent(runs: seq<Run>, block: seq<int>, order: seq<int>, im: Image, plain: seq<byte>, blockSize100k: nat)
    requires ValidRuns(runs) && block == Encode(runs) && plain == Expand(runs)
    requires 0 < |block| <= 100000 * blockSize100k <= 900000 && SortedRotations(block, order)
    requires ValidImage(im) && im.origPtr < |block| && order[im.origPtr] == 0 && Marked(im.inUse, block)
    requires IsPerm(Identity(|Used(im.inUse, 256)|), |Used(im.inUse, 256)|)
    requires Over(MappedColumn(im.inUse, block, order), |Used(im.inUse, 256)|)
    requires im.syms == Code(Identity(|Used(im.inUse, 256)|), |Used(im.inUse, 256)|,
        MappedColumn(im.inUse, block, order), 0)
    ensures ValidSent(Sent(im, block, order), blockSize100k) && PlainOf(Sent(im, block, order)) == plain
  {
    hide Code, ValidImage, SortedRotations, MappedColumn, Over, Used, WellFormed, UnRle, Encode, Expand;
    UnRleInvertsEncode(runs);
    assert AllBytes(UnRle(block, 0));
  }

  lemma IsEncoded(s: Sent, runs: seq<Run>)
    requires ValidRuns(runs) && s.block == Encode(runs) && PlainOf(s) == Expand(runs) && CodesWithin(s.im, 17)
    ensures Encoded(s)
  { }

  lemma MarksMarked(inUse: seq<bool>, block: seq<int>, runs: seq<Run>)
    requires Marks(inUse, Encode(runs)) && block == Encode(runs) && ValidRuns(runs)
    ensures Marked(inUse, block)
  {
    hide ValidRuns, Encode;
    EncodeBytes(runs);
    forall i | 0 <= i < |block|
      ensures 0 <= block[i] < 256 && inUse[block[i]]
    {
      assert block[i] in Encode(runs);
    }
  }

  /** The second half of BZ2_compressBlock: header, symbols, tables. */
  method WriteBlock(w: BitWriter, buf: Buffer, ptr: array<int>, unseqToSeq: array<byte>, mtfFreq: array<nat>,
                    crc: nat, origPtr: nat, blockSize100k: nat)
    returns (ghost s: Sent)
    requires w.Valid() && buf.Valid() && 0 < buf.nblock <= 100000 * blockSize100k <= 900000
    requires buf.nblock <= ptr.Length && SortedRotations(buf.block[..buf.nblock], ptr[..buf.nblock])
    requires origPtr < buf.nblock && ptr[origPtr] == 0 && crc < 0x1_0000_0000
    requires unseqToSeq.Length == 256 && mtfFreq.Length == 258 && unseqToSeq != buf.block
    modifies w, unseqToSeq, mtfFreq
    ensures w.Valid() && ValidImage(s.im) && w.Out() == old(w.Out()) + BlockBits(s.im, [])
    ensures ValidSent(s, blockSize100k) && PlainOf(s) == buf.plain && s.im.crc == crc && |s.block| == buf.nblock
    ensures Encoded(s)
  {
    hide BitWriter.Out, BitWriter.Valid, CodesWithin, SortedRotations, IsPerm, Marked, Used, Code, Over, MappedColumn;
    hide ValidImage, BlockBits, Header;
    hide ValidRuns, Encode, Expand, Marks, CrcOf, ValidSent, PlainOf, Terminated, MapBits;
    ghost var n, b, p, u := buf.nblock, buf.block[..buf.nblock], ptr[..buf.nblock], buf.inUse[..];
    ghost var o := w.Out();
    SortedPerm(b, p);
    MarksMarked(u, b, buf.runs);
    PutHeader(w, crc, origPtr);
    var mem := Halves(ptr, buf.nblock);
    var nInUse, nMTF := GenerateMtfValues(mem, buf.block, buf.nblock, buf.inUse, unseqToSeq, mtfFreq, p);
    CodeTerminated(Identity(nInUse), nInUse, MappedColumn(u, b, p), 0);
    TerminatedNonempty(mem[..nMTF], nInUse);
    ghost var im, h := SendMtfValues(w, buf.inUse, nInUse, mem, nMTF, mtfFreq, crc, origPtr);
    HeaderThenMap(im);
    BlockTail.Reassociate(o, Header(crc, origPtr), MapBits(im, []));
    BlockSent(buf.runs, b, p, im, buf.plain, blockSize100k);
    s := Sent(im, b, p);
    IsEncoded(s, buf.runs);
  }

  lemma SortedPerm(b: seq<int>, p: seq<int>)
    requires SortedRotations(b, p)
    ensures IsPerm(p, |b|) && |p| == |b| && forall i :: 0 <= i < |b| ==> 0 <= p[i] < |b|
  {
  }

  lemma TerminatedNonempty(syms: seq<int>, n: nat)
    requires Terminated(syms, n)
    ensures syms != []
  {
  }
}
