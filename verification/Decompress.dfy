/** BZ2_decompress (decompress.c): the parser that may run out of input at any GET_BITS and is resumed
    from its saved state. Read over any cutting of a stream the encoder wrote, it finds exactly what was
    sent. */
module Decompress {
  import opened Rotations
  import opened Power
  import opened Permutations
  import opened Bits
  import opened BitIO
  import opened Bwt
  import opened InverseBwt
  import opened RunLength
  import opened OutputStage
  import opened BlockCheck
  import opened Canonical
  import opened MoveToFront
  import opened ByteMaps
  import opened MtfWindows
  import opened GenerateMtf
  import opened SymbolStage
  import opened BlockFormat
  import opened BlockParts

  // ----- What a stream carries -----

  /** A block as sent: its image, the block itself and the sort order it was sent in. */
  datatype Sent = Sent(im: Image, block: seq<int>, order: seq<int>)

  ghost predicate ValidSent(s: Sent, blockSize100k: nat) {
    && ValidImage(s.im) && 0 < |s.block| <= 100000 * blockSize100k <= 900000
    && SortedRotations(s.block, s.order) && s.im.origPtr < |s.block| && s.order[s.im.origPtr] == 0
    && WellFormed(s.block, 0) && Marked(s.im.inUse, s.block)
    && (var n := |Used(s.im.inUse, 256)|;
        var col := MappedColumn(s.im.inUse, s.block, s.order);
        IsPerm(Identity(n), n) && Over(col, n) && s.im.syms == Code(Identity(n), n, col, 0))
  }

  const END_MAGIC: seq<byte> := [0x17, 0x72, 0x45, 0x38, 0x50, 0x90]

  ghost predicate ValidBlocks(bl: seq<Sent>, blockSize100k: nat) {
    forall i :: 0 <= i < |bl| ==> ValidSent(bl[i], blockSize100k)
  }

  ghost predicate ValidImages(bl: seq<Sent>) {
    forall i :: 0 <= i < |bl| ==> ValidImage(bl[i].im)
  }

  lemma BlocksImages(bl: seq<Sent>, blockSize100k: nat)
    requires ValidBlocks(bl, blockSize100k)
    ensures ValidImages(bl)
  {
    forall i | 0 <= i < |bl|
      ensures ValidImage(bl[i].im)
    {
      assert ValidSent(bl[i], blockSize100k);
    }
  }

  lemma ImageAt(bl: seq<Sent>, i: nat)
    requires ValidImages(bl) && i < |bl|
    ensures ValidImage(bl[i].im)
  {
  }

  ghost function BlocksFrom(bl: seq<Sent>, i: nat, k: seq<bool>): seq<bool>
    requires i <= |bl| && ValidImages(bl)
    decreases |bl| - i
  {
    if i == |bl| then k else
      ImageAt(bl, i);
      BlockBits(bl[i].im, BlocksFrom(bl, i + 1, k))
  }

  ghost function TrailerBits(crc: nat, pad: seq<bool>): seq<bool> {
    BytesThen(TrailerBytes(crc), pad)
  }

  // ----- Where the parser can stop -----

  /** The BZ_X_ states, with their numbers within a group. */
  datatype Point =
    | BlkHdr(n: nat) | BCrc(n: nat) | RandBit | OrigPtr(n: nat)
    | Mapping1 | Mapping2 | Selector1 | Selector2 | Selector3 | Coding1 | Coding2 | Coding3
    | Mtf(n: nat) | EndHdr(n: nat) | CCrc(n: nat) | Output | Idle

  datatype Outcome = NeedInput | BlockReady | StreamEnd | DataError

  /** Reading `all`, `c` bytes are in; `x` is the value of those from `from` on. */
  ghost predicate AtHead(all: seq<byte>, c: nat, from: nat, x: nat, k: seq<bool>, todo: seq<bool>) {
    && c <= |all| && from <= |all| && todo == BytesThen(all[c..], k)
    && (c >= from ==> x == FromBytes(all[from..c]))
  }

  lemma HeadStart(all: seq<byte>, from: nat, x: nat, k: seq<bool>)
    requires 0 < from <= |all|
    ensures AtHead(all, 0, from, x, k, BytesThen(all, k))
  {
    assert all[0..] == all;
  }

  lemma HeadStep(all: seq<byte>, c: nat, from: nat, x: nat, k: seq<bool>, todo: seq<bool>, v: nat, rest: seq<bool>)
    requires AtHead(all, c, from, x, k, todo) && c < |all| && Got(todo, v, 8, rest)
    ensures v == all[c]
    ensures AtHead(all, c + 1, from, if c < from then 0 else x * 256 + v, k, rest)
  {
    hide Got, BytesThen, FromBytes;
    GotByte(todo, v, rest, all[c..], k);
    assert all[c..][1..] == all[c + 1..];
    if c >= from {
      FromBytesMore(all[from..c], all[c]);
      assert all[from..c + 1] == all[from..c] + [all[c]];
    } else {
      NoBytes(all, from);
    }
  }

  lemma NoBytes(all: seq<byte>, from: nat)
    requires from <= |all|
    ensures FromBytes(all[from..from]) == 0
  {
    assert all[from..from] == [];
  }

  lemma HeadDone(all: seq<byte>, c: nat, from: nat, x: nat, k: seq<bool>, todo: seq<bool>)
    requires AtHead(all, c, from, x, k, todo) && c == |all|
    ensures x == FromBytes(all[from..]) && todo == k
  {
    assert all[from..c] == all[from..] && all[c..] == [];
  }

  ghost function HeadBytes(im: Image): (r: seq<byte>)
    ensures |r| == 10
  {
    BLOCK_MAGIC + BigEndian(im.crc, 4)
  }

  ghost function AfterHead(im: Image, tail: seq<bool>): seq<bool>
    requires ValidImage(im)
  {
    [false] + AfterRand(im, tail)
  }

  ghost function AfterRand(im: Image, tail: seq<bool>): seq<bool>
    requires ValidImage(im)
  {
    BytesThen(BigEndian(im.origPtr, 3), MapBits(im, tail))
  }

  lemma HeadValue(im: Image)
    requires ValidImage(im)
    ensures FromBytes(HeadBytes(im)[6..]) == im.crc
    ensures FromBytes(BigEndian(im.origPtr, 3)) == im.origPtr
  {
    assert HeadBytes(im)[6..] == BigEndian(im.crc, 4);
    Pow2Values();
    FromBigEndian(im.crc, 4);
    FromBigEndian(im.origPtr, 3);
  }

  /** Decoding tables: minLens, limit, base and perm, and the greatest lengths. */
  datatype Tabs = Tabs(minLens: seq<int>, maxLens: seq<int>, limit: seq<seq<int>>, base: seq<seq<int>>,
      perm: seq<seq<int>>)

  /** Decoding tables for the first `n` coding tables. */
  ghost predicate Ready(lens: seq<seq<int>>, n: nat, tabs: Tabs) {
    && n <= |lens| && |tabs.minLens| == |tabs.maxLens| == |tabs.limit| == |tabs.base| == |tabs.perm| == n
    && forall t :: 0 <= t < n ==>
        ReadyTable(lens[t], tabs.minLens[t], tabs.maxLens[t], tabs.limit[t], tabs.base[t], tabs.perm[t])
  }

  ghost predicate ReadyTable(len: seq<int>, minLen: int, maxLen: int, limit: seq<int>, base: seq<int>, perm: seq<int>) {
    1 <= minLen <= maxLen && Tables(len, minLen, maxLen, limit, base, perm)
  }

  // ----- What is known at each point -----

  /** What the stream carries, which block of it is being read, and what comes after that block. */
  datatype Context = Context(bl: seq<Sent>, blockSize100k: nat, crc: nat, pad: seq<bool>, no: nat, im: Image,
      tail: seq<bool>)

  ghost predicate Current(c: Context) {
    && ValidBlocks(c.bl, c.blockSize100k) && c.crc < 0x1_0000_0000 && c.no < |c.bl| && c.im == c.bl[c.no].im
    && ValidImage(c.im)
    && c.tail == BlocksFrom(c.bl, c.no + 1, TrailerBits(c.crc, c.pad))
  }

  ghost predicate BetweenBlocks(c: Context, todo: seq<bool>) {
    && ValidBlocks(c.bl, c.blockSize100k) && c.crc < 0x1_0000_0000 && c.no <= |c.bl|
    && todo == BlocksFrom(c.bl, c.no, TrailerBits(c.crc, c.pad))
  }

  ghost predicate AllBlocksRead(c: Context) {
    ValidBlocks(c.bl, c.blockSize100k) && c.crc < 0x1_0000_0000 && c.no == |c.bl|
  }

  /** The part of the saved state that a later point still uses. */
  datatype Parsed = Parsed(storedBlockCRC: nat, origPtr: nat, inUse: seq<bool>, seqToUnseq: seq<byte>, alphaSize: nat)

  ghost predicate HeadRead(c: Context, storedBlockCRC: nat, origPtr: nat) {
    Current(c) && storedBlockCRC == c.im.crc && origPtr == c.im.origPtr
  }

  ghost predicate MapRead(c: Context, p: Parsed) {
    && HeadRead(c, p.storedBlockCRC, p.origPtr) && p.inUse == c.im.inUse && |p.seqToUnseq| == 256
    && p.alphaSize == |Used(c.im.inUse, 256)| + 2 && p.seqToUnseq[..p.alphaSize - 2] == Used(c.im.inUse, 256)
  }

  ghost predicate SelectorsRead(c: Context, p: Parsed, nGroups: nat, nSelectors: nat, selector: seq<int>) {
    MapRead(c, p) && nGroups == c.im.nGroups && nSelectors == |c.im.selectors| && selector == c.im.selectors
  }

  /** The first `t` coding tables are in, and there are more. */
  ghost predicate TablesRead(c: Context, p: Parsed, nGroups: nat, nSelectors: nat, selector: seq<int>, t: nat,
                             lens: seq<seq<int>>) {
    SelectorsRead(c, p, nGroups, nSelectors, selector) && t < nGroups && t <= |c.im.lens| && lens == c.im.lens[..t]
  }

  lemma CurrentValid(c: Context)
    requires Current(c)
    ensures ValidImage(c.im)
  {
  }

  lemma MapKnown(c: Context, p: Parsed)
    requires MapRead(c, p)
    ensures ValidImage(c.im)
  {
  }

  lemma SelectorsKnown(c: Context, p: Parsed, nGroups: nat, nSelectors: nat, selector: seq<int>)
    requires SelectorsRead(c, p, nGroups, nSelectors, selector)
    ensures ValidImage(c.im) && |c.im.lens| == c.im.nGroups == nGroups && nSelectors == |c.im.selectors| > 0
    ensures p.alphaSize == |Used(c.im.inUse, 256)| + 2 && selector == c.im.selectors && p.alphaSize <= 258
    ensures MapRead(c, p)
  {
    ImageShape(c.im);
  }

  lemma TablesKnown(c: Context, p: Parsed, nGroups: nat, nSelectors: nat, selector: seq<int>, t: nat,
                    lens: seq<seq<int>>)
    requires TablesRead(c, p, nGroups, nSelectors, selector, t, lens)
    ensures ValidImage(c.im) && t < c.im.nGroups == |c.im.lens| && lens == c.im.lens[..t] &&
        |c.im.lens[t]| == p.alphaSize
    ensures SelectorsRead(c, p, nGroups, nSelectors, selector)
  {
    SelectorsKnown(c, p, nGroups, nSelectors, selector);
    TableLength(c.im, t, 0);
  }

  /** Counted from the group and the symbols left in it. */
  function SymbolNumber(groupNo: int, groupPos: int): nat {
    if groupNo >= 0 && groupPos < G_SIZE then G_SIZE * groupNo + (G_SIZE - 1 - groupPos) else 0
  }

  /** Reading the code of symbol `x`, which is in group `groupNo`, under table `gSel`. */
  ghost predicate SymbolAt(c: Context, p: Parsed, nGroups: nat, nSelectors: nat, selector: seq<int>, tabs: Tabs,
                           groupNo: int, groupPos: int, gSel: nat, x: int) {
    && SelectorsRead(c, p, nGroups, nSelectors, selector) && Ready(c.im.lens, nGroups, tabs)
    && 0 <= groupPos < G_SIZE && 0 <= groupNo < |selector| && gSel == selector[groupNo]
    && x == SymbolNumber(groupNo, groupPos) < |c.im.syms|
  }

  lemma SymbolTable(c: Context, p: Parsed, nGroups: nat, nSelectors: nat, selector: seq<int>, tabs: Tabs,
                    groupNo: int, groupPos: int, gSel: nat, x: int)
    requires SymbolAt(c, p, nGroups, nSelectors, selector, tabs, groupNo, groupPos, gSel, x)
    ensures ValidImage(c.im) && gSel < nGroups &&
        |tabs.minLens| == |tabs.maxLens| == |tabs.limit| == |tabs.base| == |tabs.perm| == nGroups
    ensures 1 <= tabs.minLens[gSel] <= tabs.maxLens[gSel]
    ensures Tables(TableOf(c.im, x), tabs.minLens[gSel], tabs.maxLens[gSel], tabs.limit[gSel], tabs.base[gSel],
        tabs.perm[gSel])
    ensures forall i :: 0 <= i < |TableOf(c.im, x)| ==> tabs.minLens[gSel] <= TableOf(c.im, x)[i]
  {
    SelectorsKnown(c, p, nGroups, nSelectors, selector);
    ImageShape(c.im);
    assert x / G_SIZE == groupNo;
    assert ReadyTable(c.im.lens[gSel], tabs.minLens[gSel], tabs.maxLens[gSel], tabs.limit[gSel], tabs.base[gSel],
        tabs.perm[gSel]);
  }

  lemma SymbolParts(c: Context, p: Parsed, nGroups: nat, nSelectors: nat, selector: seq<int>, tabs: Tabs,
                    groupNo: int, groupPos: int, gSel: nat, x: int)
    requires SymbolAt(c, p, nGroups, nSelectors, selector, tabs, groupNo, groupPos, gSel, x)
    ensures SelectorsRead(c, p, nGroups, nSelectors, selector) && Ready(c.im.lens, nGroups, tabs)
    ensures 0 <= groupPos < G_SIZE && 0 <= groupNo < |selector| && gSel == selector[groupNo]
    ensures x + 1 == G_SIZE * (groupNo + 1) - groupPos && 0 <= x < |c.im.syms|
  {
  }

  /** The next symbol is in this group, or the first of the next one. */
  lemma NextSymbolAt(c: Context, p: Parsed, nGroups: nat, nSelectors: nat, selector: seq<int>, tabs: Tabs,
                     groupNo: int, groupPos: int, x: nat)
    requires SelectorsRead(c, p, nGroups, nSelectors, selector) && Ready(c.im.lens, nGroups, tabs)
    requires 0 <= groupPos < G_SIZE && -1 <= groupNo && x == G_SIZE * (groupNo + 1) - groupPos < |c.im.syms|
    requires groupPos > 0 ==> 0 <= groupNo < |selector|
    ensures var g, q := if groupPos == 0 then groupNo + 1 else groupNo,
                        if groupPos == 0 then G_SIZE - 1 else groupPos - 1;
            && 0 <= g < nSelectors == |selector| && selector[g] >= 0 && SymbolNumber(g, q) == x
            && SymbolAt(c, p, nGroups, nSelectors, selector, tabs, g, q, selector[g], x)
  {
    hide Ready;
    SelectorsKnown(c, p, nGroups, nSelectors, selector);
    ImageShape(c.im);
    GroupInRange(|c.im.syms|, x);
  }

  /** The last column of the current block. */
  ghost function Column(c: Context): seq<int>
  {
    if c.no < |c.bl| && IsPerm(c.bl[c.no].order, |c.bl[c.no].block|)
    then LastColumn(c.bl[c.no].block, c.bl[c.no].order)
    else []
  }

  /** The symbol stage with symbols from `x` on to come. */
  ghost predicate StageAt(c: Context, stage: BlockSymbols, alphaSize: nat, x: int)
    reads stage, stage.tt, stage.ll16, stage.unzftab, stage.seqToUnseq, stage.mtf, stage.mtf.mtfa, stage.mtf.mtfbase
  {
    && stage.Consistent() && 0 <= x < |c.im.syms| && stage.Expects(c.im.syms[x..], Column(c))
    && stage.eob == alphaSize - 1
  }

  // ----- The parser -----

  class Decompressor {
    const r: BitReader
    const strm: OutStream
    const d: DState
    const stage: BlockSymbols
    var state: Point
    var storedBlockCRC: nat
    var storedCombinedCRC: nat
    var origPtr: nat
    var inUse16: seq<bool>
    var inUse: seq<bool>
    var i: nat
    var j: nat
    var t: nat
    var alphaSize: nat
    var nGroups: nat
    var nSelectors: nat
    var groupNo: int
    var groupPos: int
    var curr: int
    var zn: nat
    var zvec: int
    var gSel: nat
    var selectorMtf: seq<int>
    var selector: seq<int>
    var len: seq<int>
    var lens: seq<seq<int>>
    var minLens: seq<int>
    var limit: seq<seq<int>>
    var base: seq<seq<int>>
    var perm: seq<seq<int>>
    ghost var c: Context
    ghost var maxLens: seq<int>

    /** After the stream header: the first block is due. */
    constructor (r: BitReader, strm: OutStream, small: bool, blockSize100k: nat, crcTable: seq<u32>, ghost c: Context)
      requires 1 <= blockSize100k <= 9 && |crcTable| == 256
      ensures Shape() && this.r == r && this.strm == strm && state == BlkHdr(1) && this.c == c
      ensures d.smallDecompress == small && d.blockSize100k == blockSize100k && d.crcTable == crcTable
      ensures fresh(Footprint())
    {
      this.r, this.strm := r, strm;
      var d0 := new DState(small, blockSize100k, crcTable);
      d := d0;
      stage := new BlockSymbols(small, d0.tt, d0.ll.ll16, 100000 * blockSize100k);
      inUse16, inUse := [], [];
      state := BlkHdr(1);
      storedBlockCRC, storedCombinedCRC, origPtr, i, j, t := 0, 0, 0, 0, 0, 0;
      alphaSize, nGroups, nSelectors, groupNo, groupPos, curr, zn, zvec, gSel := 0, 0, 0, 0, 0, 0, 0, 0, 0;
      selectorMtf, selector, len, lens, minLens, limit, base, perm := [], [], [], [], [], [], [], [];
      this.c, maxLens := c, [];
    }

    /** Every object but the reader and the parser itself. */
    ghost function Footprint(): set<object> {
      {stage, stage.unzftab, stage.seqToUnseq, stage.mtf, stage.mtf.mtfa, stage.mtf.mtfbase, stage.tt, stage.ll16,
       d, d.tt, d.ll.ll16, d.ll.ll4, d.cftab}
    }

    ghost predicate Shape() {
      && d.Shape() && stage.Shape() && stage.small == d.smallDecompress && stage.tt == d.tt && stage.ll16 == d.ll.ll16
      && stage.nblockMAX == 100000 * d.blockSize100k
      && stage.unzftab != d.cftab && stage.unzftab as object != d.ll.ll4 && stage.seqToUnseq as object != d.cftab
      && stage.mtf.mtfa as object != d.cftab && stage.mtf.mtfbase != d.cftab
      && stage.seqToUnseq != d.ll.ll4 && stage.mtf.mtfa != d.ll.ll4 && stage.mtf.mtfbase as object != d.ll.ll4
    }

    function Read(): Parsed
      reads `storedBlockCRC, `origPtr, `inUse, `alphaSize, stage.seqToUnseq
    {
      Parsed(storedBlockCRC, origPtr, inUse, stage.seqToUnseq[..], alphaSize)
    }

    /** How many bits the parser asks for. */
    function Want(): nat
      reads `state, `zn
    {
      match state
      case BlkHdr(_) => 8
      case BCrc(_) => 8
      case RandBit => 1
      case OrigPtr(_) => 8
      case Mapping1 => 1
      case Mapping2 => 1
      case Selector1 => 3
      case Selector2 => 15
      case Selector3 => 1
      case Coding1 => 5
      case Coding2 => 1
      case Coding3 => 1
      case Mtf(n) => if n % 2 == 1 then zn else 1
      case EndHdr(_) => 8
      case CCrc(_) => 8
      case Output => 1
      case Idle => 1
    }

    // ----- Fixed fields -----

    ghost predicate AtBlkHdr(n: nat, todo: seq<bool>)
      reads this
    {
      1 < n <= 6 && Current(c) && AtHead(HeadBytes(c.im), n - 1, 6, 0, AfterHead(c.im, c.tail), todo)
    }

    ghost predicate AtBCrc(n: nat, todo: seq<bool>)
      reads this
    {
      1 <= n <= 4 && Current(c) && AtHead(HeadBytes(c.im), n + 5, 6, storedBlockCRC, AfterHead(c.im, c.tail), todo)
    }

    ghost predicate AtRandBit(todo: seq<bool>)
      reads this
    {
      Current(c) && storedBlockCRC == c.im.crc && todo == AfterHead(c.im, c.tail)
    }

    ghost predicate AtOrigPtr(n: nat, todo: seq<bool>)
      reads this
    {
      && 1 <= n <= 3 && Current(c) && storedBlockCRC == c.im.crc
      && AtHead(BigEndian(c.im.origPtr, 3), n - 1, 0, origPtr, MapBits(c.im, c.tail), todo)
    }

    ghost predicate AtEndHdr(n: nat, todo: seq<bool>)
      reads this
    {
      1 < n <= 6 && AllBlocksRead(c) && AtHead(TrailerBytes(c.crc), n - 1, 6, 0, c.pad, todo)
    }

    ghost predicate AtCCrc(n: nat, todo: seq<bool>)
      reads this
    {
      1 <= n <= 4 && AllBlocksRead(c) && AtHead(TrailerBytes(c.crc), n + 5, 6, storedCombinedCRC, c.pad, todo)
    }

    ghost predicate AtIdle(todo: seq<bool>)
      reads this
    {
      AllBlocksRead(c) && storedCombinedCRC == c.crc && todo == c.pad
    }

    /** A new block, or the end of the stream: the first byte tells. */
    method StepFirst(v: nat, ghost todo: seq<bool>, ghost rest: seq<bool>) returns (ok: bool)
      requires BetweenBlocks(c, todo) && Got(todo, v, 8, rest)
      modifies `state, `c
      ensures ok
      ensures old(c.no) < |c.bl| ==> state == BlkHdr(2) && AtBlkHdr(2, rest)
      ensures old(c.no) >= |c.bl| ==> state == EndHdr(2) && AtEndHdr(2, rest)
      ensures c == old(c).(im := c.im, tail := c.tail)
    {
      hide Got, BetweenBlocks, Current, AllBlocksRead, AtHead, HeadBytes, TrailerBytes, AfterHead;
      c := EnterBlock(c, v, todo, rest);
      if v == 0x17 { state := EndHdr(2); return true; }
      if v != 0x31 { return false; }
      state := BlkHdr(2);
      ok := true;
    }

    /** The rest of the block magic. */
    method StepBlkHdr(n: nat, v: nat, ghost todo: seq<bool>, ghost rest: seq<bool>) returns (ok: bool)
      requires AtBlkHdr(n, todo) && Got(todo, v, 8, rest)
      modifies `state, `storedBlockCRC
      ensures ok
      ensures n < 6 ==> state == BlkHdr(n + 1) && AtBlkHdr(n + 1, rest)
      ensures n == 6 ==> state == BCrc(1) && AtBCrc(1, rest)
    {
      hide Got, AtHead, Current, ValidImage, AfterHead, HeadBytes;
      CurrentValid(c);
      HeadStep(HeadBytes(c.im), n - 1, 6, 0, AfterHead(c.im, c.tail), todo, v, rest);
      MagicBytes(c.im, n);
      if v != Magic(n) { return false; }
      if n < 6 {
        state := BlkHdr(n + 1);
      } else {
        storedBlockCRC := 0;
        state := BCrc(1);
      }
      ok := true;
    }

    method StepBCrc(n: nat, v: nat, ghost todo: seq<bool>, ghost rest: seq<bool>)
      requires AtBCrc(n, todo) && Got(todo, v, 8, rest)
      modifies `state, `storedBlockCRC
      ensures n < 4 ==> state == BCrc(n + 1) && AtBCrc(n + 1, rest)
      ensures n == 4 ==> state == RandBit && AtRandBit(rest)
    {
      hide Got, AtHead, Current, ValidImage, AfterHead, HeadBytes;
      CurrentValid(c);
      HeadStep(HeadBytes(c.im), n + 5, 6, storedBlockCRC, AfterHead(c.im, c.tail), todo, v, rest);
      storedBlockCRC := storedBlockCRC * 256 + v;
      if n < 4 {
        state := BCrc(n + 1);
      } else {
        HeadDone(HeadBytes(c.im), 10, 6, storedBlockCRC, AfterHead(c.im, c.tail), rest);
        HeadValue(c.im);
        state := RandBit;
      }
    }

    /** The randomised bit: the encoder always sends zero. */
    method StepRandBit(v: nat, ghost todo: seq<bool>, ghost rest: seq<bool>)
      requires AtRandBit(todo) && Got(todo, v, 1, rest)
      modifies `state, `origPtr
      ensures v == 0 && state == OrigPtr(1) && AtOrigPtr(1, rest)
    {
      hide Got, AtHead, Current, ValidImage, AfterRand, MapBits, BigEndian;
      CurrentValid(c);
      GotBit(todo, v, rest, false, AfterRand(c.im, c.tail));
      OrigPtrStart(c.im, c.tail);
      origPtr := 0;
      state := OrigPtr(1);
    }

    method StepOrigPtr(n: nat, v: nat, ghost todo: seq<bool>, ghost rest: seq<bool>) returns (ok: bool)
      requires c.blockSize100k == d.blockSize100k && AtOrigPtr(n, todo) && Got(todo, v, 8, rest)
      modifies `state, `origPtr, `i, `inUse16
      ensures ok
      ensures n < 3 ==> state == OrigPtr(n + 1) && AtOrigPtr(n + 1, rest)
      ensures n == 3 ==> state == Mapping1 && AtMapping1(rest)
    {
      hide Got, AtHead, Current, ValidImage, BigEndian, MapBits, AtMap16;
      CurrentValid(c);
      HeadStep(BigEndian(c.im.origPtr, 3), n - 1, 0, origPtr, MapBits(c.im, c.tail), todo, v, rest);
      origPtr := origPtr * 256 + v;
      if n < 3 {
        state := OrigPtr(n + 1);
        return true;
      }
      OrigPtrDone(c, origPtr, rest);
      if origPtr < 0 || origPtr > 10 + 100000 * d.blockSize100k { return false; }
      i, inUse16 := 0, seq(16, x => false);
      Map16Start(c.im, c.tail, inUse16);
      state := Mapping1;
      ok := true;
    }

    // ----- The map -----

    ghost predicate AtMapping1(todo: seq<bool>)
      reads this
    {
      HeadRead(c, storedBlockCRC, origPtr) && i < 16 == |inUse16| && AtMap16(c.im, c.tail, inUse16, i, todo)
    }

    ghost predicate AtMapping2(todo: seq<bool>)
      reads this
    {
      && HeadRead(c, storedBlockCRC, origPtr) && i < 16 == |inUse16| && j < 16 && |inUse| == 256 && inUse16[i]
      && AtMap(c.im, c.tail, inUse16, inUse, i, j, todo)
    }

    method StepMapping1(v: nat, ghost todo: seq<bool>, ghost rest: seq<bool>) returns (ok: bool)
      requires Shape() && AtMapping1(todo) && Got(todo, v, 1, rest)
      modifies `state, `i, `j, `alphaSize, `inUse16, `inUse, stage.seqToUnseq
      ensures ok && (state == Mapping1 || state == Mapping2 || state == Selector1)
      ensures state == Mapping1 ==> AtMapping1(rest)
      ensures state == Mapping2 ==> AtMapping2(rest)
      ensures state == Selector1 ==> AtSelector1(rest)
    {
      hide Got, HeadRead, AtMap16, AtMap, ValidImage, AtMapping2, AtSelector1, Shape;
      Map16Step(c.im, c.tail, inUse16, i, todo, v, rest);
      inUse16 := inUse16[i := v == 1];
      i := i + 1;
      if i < 16 {
        state := Mapping1;
        return true;
      }
      MapStart(c.im, c.tail, inUse16, rest);
      inUse := seq(256, x => false);
      i, j := 0, 0;
      ok := NextMapBit(rest);
    }

    method StepMapping2(v: nat, ghost todo: seq<bool>, ghost rest: seq<bool>) returns (ok: bool)
      requires Shape() && AtMapping2(todo) && Got(todo, v, 1, rest)
      modifies `state, `i, `j, `alphaSize, `inUse, stage.seqToUnseq
      ensures ok && (state == Mapping2 || state == Selector1)
      ensures state == Mapping2 ==> AtMapping2(rest)
      ensures state == Selector1 ==> AtSelector1(rest)
    {
      hide Got, HeadRead, AtMap, ValidImage, AtSelector1, Shape;
      MapStep(c.im, c.tail, inUse16, inUse, i, j, todo, v, rest);
      if v == 1 { inUse := inUse[i * 16 + j := true]; }
      j := j + 1;
      ok := NextMapBit(rest);
    }

    /** The loops over `i` and `j`, up to the next bit to read. */
    method NextMapBit(ghost todo: seq<bool>) returns (ok: bool)
      requires Shape() && HeadRead(c, storedBlockCRC, origPtr) && i <= 16 == |inUse16| && j <= 16 && |inUse| == 256
      requires AtMap(c.im, c.tail, inUse16, inUse, i, j, todo) && (j == 0 || (i < 16 && inUse16[i]))
      modifies `state, `i, `j, `alphaSize, stage.seqToUnseq
      ensures ok && (state == Mapping2 || state == Selector1)
      ensures state == Mapping2 ==> AtMapping2(todo)
      ensures state == Selector1 ==> AtSelector1(todo)
    {
      hide HeadRead, AtMap, ValidImage, AtSelector1, Shape;
      while i < 16 && (j == 16 || !inUse16[i])
        invariant i <= 16 && j <= 16 && AtMap(c.im, c.tail, inUse16, inUse, i, j, todo)
        invariant j == 0 || (i < 16 && inUse16[i])
        decreases 16 - i
      {
        MapSkip(c.im, c.tail, inUse16, inUse, i, j, todo);
        i, j := i + 1, 0;
      }
      if i < 16 {
        state := Mapping2;
        return true;
      }
      MapDone(c.im, c.tail, inUse16, inUse, i, j, todo);
      ok := FinishMap(todo);
    }

    method FinishMap(ghost todo: seq<bool>) returns (ok: bool)
      requires Shape() && HeadRead(c, storedBlockCRC, origPtr) && inUse == c.im.inUse &&
          todo == SelectorBits(c.im, c.tail)
      modifies `state, `alphaSize, stage.seqToUnseq
      ensures ok && state == Selector1 && AtSelector1(todo)
    {
      hide ValidBlocks, BlocksFrom, ValidImage, Used, SelectorBits;
      ImageShape(c.im);
      var nInUse := MakeMapsD(inUse, stage.seqToUnseq);
      if nInUse == 0 { return false; }
      alphaSize := nInUse + 2;
      state := Selector1;
      ok := true;
    }

    // ----- The selectors -----

    ghost predicate AtSelector1(todo: seq<bool>)
      reads this, stage.seqToUnseq
    {
      MapRead(c, Read()) && todo == (MapKnown(c, Read()); SelectorBits(c.im, c.tail))
    }

    ghost predicate AtSelector2(todo: seq<bool>)
      reads this, stage.seqToUnseq
    {
      MapRead(c, Read()) && nGroups == c.im.nGroups && todo == (MapKnown(c, Read()); AfterGroups(c.im, c.tail))
    }

    ghost predicate AtSelector3(todo: seq<bool>)
      reads this, stage.seqToUnseq
    {
      && MapRead(c, Read()) && nGroups == c.im.nGroups && nSelectors == |c.im.selectors| && i == |selectorMtf|
      && AtSelector(c.im, c.tail, selectorMtf, j, todo)
    }

    method StepSelector1(v: nat, ghost todo: seq<bool>, ghost rest: seq<bool>) returns (ok: bool)
      requires AtSelector1(todo) && Got(todo, v, 3, rest)
      modifies `state, `nGroups
      ensures ok && state == Selector2 && AtSelector2(rest)
    {
      hide Got, MapRead, ValidImage, SelectorBits, AfterGroups, Pow2, BitsOf;
      MapKnown(c, Read());
      GroupCount(c.im, c.tail, todo, v, rest);
      nGroups := v;
      if nGroups < 2 || nGroups > 6 { return false; }
      state := Selector2;
      ok := true;
    }

    method StepSelector2(v: nat, ghost n: nat, ghost todo: seq<bool>, ghost rest: seq<bool>) returns (ok: bool)
      requires AtSelector2(todo) && n == 15 && Got(todo, v, n, rest)
      modifies `state, `nSelectors, `selectorMtf, `i, `j
      ensures ok && state == Selector3 && AtSelector3(rest)
    {
      hide Got, MapRead, ValidImage, AfterGroups, AtSelector, Pow2, BitsOf;
      MapKnown(c, Read());
      SelectorCount(c.im, c.tail, todo, v, n, rest);
      nSelectors := v;
      if nSelectors < 1 { return false; }
      selectorMtf, i, j := [], 0, 0;
      state := Selector3;
      ok := true;
    }

    /** A one or the closing zero of a selector. */
    method StepSelector3(v: nat, ghost todo: seq<bool>, ghost rest: seq<bool>) returns (ok: bool)
      requires AtSelector3(todo) && Got(todo, v, 1, rest)
      modifies `state, `selectorMtf, `i, `j, `selector, `t, `lens
      ensures ok && (state == Selector3 || state == Coding1)
      ensures state == Selector3 ==> AtSelector3(rest)
      ensures state == Coding1 ==> AtCoding1(rest)
    {
      hide Got, MapRead, ValidImage, Positions, AtSelector, SelectorsFrom, TableBits, AtCoding1;
      if v != 0 {
        SelectorOne(c.im, c.tail, selectorMtf, j, todo, v, rest);
        j := j + 1;
        if j >= nGroups { return false; }
        state := Selector3;
        return true;
      }
      SelectorClosed(c.im, c.tail, selectorMtf, j, todo, v, rest);
      selectorMtf, i, j := selectorMtf + [j], i + 1, 0;
      if i < nSelectors {
        state := Selector3;
        return true;
      }
      FinishSelectors(rest);
      ok := true;
    }

    method FinishSelectors(ghost todo: seq<bool>)
      requires MapRead(c, Read()) && nGroups == c.im.nGroups && nSelectors == |c.im.selectors| && ValidImage(c.im)
      requires selectorMtf == Positions(c.im) && todo == TableBits(c.im, c.tail)
      modifies `state, `selector, `t, `lens
      ensures state == Coding1 && AtCoding1(todo)
    {
      hide MapRead, ValidImage, SelectorPositions, TablesFrom;
      ImageShape(c.im);
      selector := UndoSelectors(selectorMtf, nGroups, c.im.selectors);
      t, lens := 0, [];
      state := Coding1;
    }

    // ----- The coding tables -----

    ghost predicate AtCoding1(todo: seq<bool>)
      reads this, stage.seqToUnseq
    {
      && TablesRead(c, Read(), nGroups, nSelectors, selector, t, lens)
      && todo == (TablesKnown(c, Read(), nGroups, nSelectors, selector, t, lens); ValidTables(c.im);
          TablesFrom(c.im.lens, t, SymbolBits(c.im, c.tail)))
    }

    ghost predicate AtCoding2(todo: seq<bool>)
      reads this, stage.seqToUnseq
    {
      TablesRead(c, Read(), nGroups, nSelectors, selector, t, lens) && i == |len| &&
          AtLength(c.im, c.tail, t, len, curr, todo)
    }

    ghost predicate AtCoding3(todo: seq<bool>)
      reads this, stage.seqToUnseq
    {
      TablesRead(c, Read(), nGroups, nSelectors, selector, t, lens) && i == |len| &&
          AtDirection(c.im, c.tail, t, len, curr, todo)
    }

    method StepCoding1(v: nat, ghost todo: seq<bool>, ghost rest: seq<bool>) returns (ok: bool)
      requires AtCoding1(todo) && Got(todo, v, 5, rest)
      modifies `state, `len, `curr, `i
      ensures ok && state == Coding2 && AtCoding2(rest)
    {
      hide Got, TablesRead, ValidImage, AtLength, TablesFrom, SymbolBits, Pow2, BitsOf;
      TablesKnown(c, Read(), nGroups, nSelectors, selector, t, lens);
      FirstLength(c.im, c.tail, t, todo, v, rest);
      curr, i, len := v, 0, [];
      if curr < 1 || curr > 20 { return false; }
      state := Coding2;
      ok := true;
    }

    method StepCoding3(v: nat, ghost todo: seq<bool>, ghost rest: seq<bool>) returns (ok: bool)
      requires AtCoding3(todo) && Got(todo, v, 1, rest)
      modifies `state, `curr
      ensures ok && state == Coding2 && AtCoding2(rest)
    {
      hide Got, TablesRead, ValidImage, AtLength, AtDirection;
      DirectionStep(c.im, c.tail, t, len, curr, todo, v, rest);
      if v == 0 { curr := curr + 1; } else { curr := curr - 1; }
      LengthInside(c.im, c.tail, t, len, curr, rest);
      if curr < 1 || curr > 20 { return false; }
      state := Coding2;
      ok := true;
    }

    method StepCoding2(v: nat, ghost todo: seq<bool>, ghost rest: seq<bool>) returns (ok: bool)
      requires Shape() && AtCoding2(todo) && Got(todo, v, 1, rest) && c.blockSize100k == d.blockSize100k
      modifies `len, `i, `state, `lens, `t, `minLens, `maxLens, `limit, `base, `perm, `groupNo, `groupPos, `gSel, `zn,
          stage, stage.unzftab, stage.mtf.mtfa, stage.mtf.mtfbase
      ensures ok && (state == Coding1 || state == Coding2 || state == Coding3 || state == Mtf(1))
      ensures state == Coding1 ==> AtCoding1(rest)
      ensures state == Coding2 ==> AtCoding2(rest)
      ensures state == Coding3 ==> AtCoding3(rest)
      ensures state == Mtf(1) ==> AtMtf1(rest)
    {
      hide Got, TablesRead, SelectorsRead, ValidImage, AtLength, AtDirection, TablesFrom, SymbolBits, Shape, AtMtf1;
      hide AtCoding1;
      TablesKnown(c, Read(), nGroups, nSelectors, selector, t, lens);
      LengthInside(c.im, c.tail, t, len, curr, todo);
      if v != 0 {
        LengthDiffers(c.im, c.tail, t, len, curr, todo, v, rest);
        state := Coding3;
        return true;
      }
      LengthReached(c.im, c.tail, t, len, curr, todo, v, rest);
      len, i := len + [curr], i + 1;
      if i < alphaSize {
        if curr < 1 || curr > 20 { return false; }
        state := Coding2;
        return true;
      }
      ok := TableComplete(rest);
    }

    /** One table is in: the next one, or the symbols. */
    method TableComplete(ghost todo: seq<bool>) returns (ok: bool)
      requires Shape() && TablesRead(c, Read(), nGroups, nSelectors, selector, t, lens) && ValidImage(c.im) &&
          c.blockSize100k == d.blockSize100k
      requires t < |c.im.lens| && len == c.im.lens[t] &&
          todo == (ValidTables(c.im); TablesFrom(c.im.lens, t + 1, SymbolBits(c.im, c.tail)))
      modifies `state, `lens, `t, `minLens, `maxLens, `limit, `base, `perm, `groupNo, `groupPos, `gSel, `zn, stage,
          stage.unzftab, stage.mtf.mtfa, stage.mtf.mtfbase
      ensures ok && (state == Coding1 || state == Mtf(1))
      ensures state == Coding1 ==> AtCoding1(todo)
      ensures state == Mtf(1) ==> AtMtf1(todo)
    {
      hide TablesRead, SelectorsRead, ValidImage, TablesFrom, SymbolBits, Shape, AtMtf1;
      TableDone(c, Read(), nGroups, nSelectors, selector, t, lens, len, todo);
      TablesKnown(c, Read(), nGroups, nSelectors, selector, t, lens);
      lens, t := lens + [len], t + 1;
      if t < nGroups {
        state := Coding1;
        return true;
      }
      SelectorsKnown(c, Read(), nGroups, nSelectors, selector);
      ok := BeginSymbols(todo);
    }

    // ----- The symbols -----

    ghost function TabsNow(): Tabs
      reads `minLens, `maxLens, `limit, `base, `perm
    {
      Tabs(minLens, maxLens, limit, base, perm)
    }

    /** The number of the symbol being read. */
    ghost function X(): nat
      reads `groupNo, `groupPos
    {
      SymbolNumber(groupNo, groupPos)
    }

    ghost predicate InSymbol()
      reads this, stage, stage.tt, stage.ll16, stage.unzftab, stage.seqToUnseq, stage.mtf, stage.mtf.mtfa,
          stage.mtf.mtfbase
    {
      && SymbolAt(c, Read(), nGroups, nSelectors, selector, TabsNow(), groupNo, groupPos, gSel, X())
      && StageAt(c, stage, alphaSize, X())
    }

    /** The first bits of a code are next, or a further bit. */
    ghost predicate AtMtf1(todo: seq<bool>)
      reads this, stage, stage.tt, stage.ll16, stage.unzftab, stage.seqToUnseq, stage.mtf, stage.mtf.mtfa,
          stage.mtf.mtfbase
    {
      InSymbol() && AtSymbol(c.im, c.tail, X(), todo) && gSel < |minLens| && zn == minLens[gSel] >= 1
    }

    ghost predicate AtMtf2(todo: seq<bool>)
      reads this, stage, stage.tt, stage.ll16, stage.unzftab, stage.seqToUnseq, stage.mtf, stage.mtf.mtfa,
          stage.mtf.mtfbase
    {
      && InSymbol() && gSel < |minLens| && zn > minLens[gSel] >= 1 && AtCodeBits(c.im, c.tail, X(), zn - 1, zvec, todo)
      && Incomplete(c.im, X(), zn - 1)
    }

    /** BZ2_hbCreateDecodeTables for every coding table, then the start of the symbols. */
    method BeginSymbols(ghost todo: seq<bool>) returns (ok: bool)
      requires Shape() && SelectorsRead(c, Read(), nGroups, nSelectors, selector) && lens == c.im.lens &&
          |lens| == nGroups
      requires ValidImage(c.im) && todo == SymbolBits(c.im, c.tail) && c.blockSize100k == d.blockSize100k
      modifies `state, `minLens, `maxLens, `limit, `base, `perm, `groupNo, `groupPos, `gSel, `zn, stage, stage.unzftab,
          stage.mtf.mtfa, stage.mtf.mtfbase
      ensures ok && state == Mtf(1) && AtMtf1(todo)
    {
      hide SelectorsRead, ValidImage, Ready, SymbolBits, Shape, StageAt, AtMtf1, AtSymbol, MapRead;
      SelectorsKnown(c, Read(), nGroups, nSelectors, selector);
      BuildTables();
      StartStage();
      groupNo, groupPos := -1, 0;
      SymbolsStart(c.im, c.tail);
      state := Mtf(1);
      ok := NextSymbol(todo, 0);
    }

    method BuildTables()
      requires ValidImage(c.im) && lens == c.im.lens && |lens| == nGroups
      modifies `minLens, `maxLens, `limit, `base, `perm
      ensures Ready(c.im.lens, nGroups, TabsNow())
    {
      hide ReadyTable, ValidImage;
      minLens, maxLens, limit, base, perm := [], [], [], [], [];
      for u := 0 to nGroups
        invariant Ready(lens, u, TabsNow())
      {
        ReadyLengths(c.im, u);
        var mn, mx, l, b, p := TableFor(lens[u]);
        minLens, maxLens, limit, base, perm := minLens + [mn], maxLens + [mx], limit + [l], base + [b], perm + [p];
      }
    }

    method StartStage()
      requires Shape() && c.blockSize100k == d.blockSize100k && MapRead(c, Read())
      modifies stage, stage.unzftab, stage.mtf.mtfa, stage.mtf.mtfbase
      ensures StageAt(c, stage, alphaSize, 0) && stage.seqToUnseq[..] == old(stage.seqToUnseq[..])
    {
      hide MapRead, Due, Column, MtfTable.L, MtfTable.Valid, BlockSymbols.Filled;
      StageStart(c, Read());
      stage.Begin(alphaSize - 2);
    }

    /** GET_MTF_VAL up to its first GET_BITS. */
    method NextSymbol(ghost todo: seq<bool>, ghost x: nat) returns (ok: bool)
      requires SelectorsRead(c, Read(), nGroups, nSelectors, selector) && Ready(c.im.lens, nGroups, TabsNow())
      requires 0 <= groupPos < G_SIZE && -1 <= groupNo && x == G_SIZE * (groupNo + 1) - groupPos &&
          AtSymbol(c.im, c.tail, x, todo)
      requires groupPos > 0 ==> 0 <= groupNo < |selector| && gSel == selector[groupNo]
      requires StageAt(c, stage, alphaSize, x)
      modifies `groupNo, `groupPos, `gSel, `zn
      ensures ok && AtMtf1(todo) && X() == x
    {
      hide SelectorsRead, Ready, SymbolAt, AtSymbol, StageAt, SymbolNumber, Tables, TableOf, ValidImage;
      SymbolInside(c.im, c.tail, x, todo);
      NextSymbolAt(c, Read(), nGroups, nSelectors, selector, TabsNow(), groupNo, groupPos, x);
      if groupPos == 0 {
        groupNo := groupNo + 1;
        if groupNo >= nSelectors { return false; }
        groupPos := G_SIZE;
        gSel := selector[groupNo];
      }
      groupPos := groupPos - 1;
      SymbolTable(c, Read(), nGroups, nSelectors, selector, TabsNow(), groupNo, groupPos, gSel, X());
      zn := minLens[gSel];
      ok := true;
    }

    method StepMtf1(site: nat, v: nat, ghost todo: seq<bool>, ghost rest: seq<bool>) returns (ok: bool)
      requires Shape() && AtMtf1(todo) && Got(todo, v, zn, rest) && c.blockSize100k == d.blockSize100k &&
          site in {1, 3, 5}
      modifies `state, `zn, `zvec, `groupNo, `groupPos, `gSel, Footprint()
      ensures ok
      ensures state == Mtf(site + 1) || state == Mtf(3) || state == Mtf(5) || state == Output
      ensures state == Mtf(site + 1) ==> AtMtf2(rest)
      ensures state == Mtf(3) || state == Mtf(5) ==> AtMtf1(rest)
      ensures state == Output ==> AtOutput(rest)
    {
      hide Got, SymbolAt, AtSymbol, AtCodeBits, Tables, Shape, StageAt, TableOf;
      SymbolTable(c, Read(), nGroups, nSelectors, selector, TabsNow(), groupNo, groupPos, gSel, X());
      CodeFirst(c.im, c.tail, X(), todo, zn, v, rest);
      zvec := v;
      ok := TestCode(site, rest);
    }

    method StepMtf2(site: nat, v: nat, ghost todo: seq<bool>, ghost rest: seq<bool>) returns (ok: bool)
      requires Shape() && AtMtf2(todo) && Got(todo, v, 1, rest) && c.blockSize100k == d.blockSize100k &&
          site in {1, 3, 5}
      modifies `state, `zn, `zvec, `groupNo, `groupPos, `gSel, Footprint()
      ensures ok
      ensures state == Mtf(site + 1) || state == Mtf(3) || state == Mtf(5) || state == Output
      ensures state == Mtf(site + 1) ==> AtMtf2(rest)
      ensures state == Mtf(3) || state == Mtf(5) ==> AtMtf1(rest)
      ensures state == Output ==> AtOutput(rest)
    {
      hide Got, SymbolAt, AtSymbol, AtCodeBits, Tables, Shape, StageAt, TableOf;
      MoreBits(c.im, c.tail, X(), zn - 1, zvec, todo, v, rest);
      zvec := zvec * 2 + v;
      ok := TestCode(site, rest);
    }

    /** The block has been read, and its bytes are being delivered. */
    ghost predicate Delivering(todo: seq<bool>)
      reads this, strm`written, Footprint()
    {
      && Current(c) && storedBlockCRC == c.im.crc && todo == c.tail
      && d.Valid() && d.Accounted(strm) && d.src.blk == c.bl[c.no].block
    }

    /** None of its bytes has been delivered yet. */
    ghost predicate AtOutput(todo: seq<bool>)
      reads this, strm`written, Footprint()
    {
      Delivering(todo) && d.delivered == []
    }

    /** `while (1)` of GET_MTF_VAL. */
    method TestCode(site: nat, ghost todo: seq<bool>) returns (ok: bool)
      requires Shape() && InSymbol() && gSel < |minLens| && zn >= minLens[gSel] >= 1 &&
          AtCodeBits(c.im, c.tail, X(), zn, zvec, todo)
      requires c.blockSize100k == d.blockSize100k && site in {1, 3, 5}
      modifies `state, `zn, `zvec, `groupNo, `groupPos, `gSel, Footprint()
      ensures ok
      ensures state == Mtf(site + 1) || state == Mtf(3) || state == Mtf(5) || state == Output
      ensures state == Mtf(site + 1) ==> AtMtf2(todo)
      ensures state == Mtf(3) || state == Mtf(5) ==> AtMtf1(todo)
      ensures state == Output ==> AtOutput(todo)
    {
      hide SymbolAt, AtSymbol, AtCodeBits, Tables, Shape, StageAt, TableOf, Incomplete, SymbolNumber, ValidImage;
      SymbolTable(c, Read(), nGroups, nSelectors, selector, TabsNow(), groupNo, groupPos, gSel, X());
      LimitCheck(c.im, c.tail, X(), zn, zvec, todo, minLens[gSel], maxLens[gSel], limit[gSel], base[gSel], perm[gSel]);
      if zn > 20 { return false; }
      if zvec > limit[gSel][zn] {
        zn := zn + 1;
        state := Mtf(site + 1);
        return true;
      }
      if zvec - base[gSel][zn] < 0 || zvec - base[gSel][zn] >= MAX_ALPHA_SIZE { return false; }
      ok := TakeSymbol(perm[gSel][zvec - base[gSel][zn]], todo);
    }

    /** What is done with a symbol, up to the next GET_MTF_VAL or the end of the block. */
    method TakeSymbol(nextSym: int, ghost todo: seq<bool>) returns (ok: bool)
      requires Shape() && InSymbol() && nextSym == c.im.syms[X()] && c.blockSize100k == d.blockSize100k
      requires X() + 1 < |c.im.syms| ==> AtSymbol(c.im, c.tail, X() + 1, todo)
      requires X() + 1 == |c.im.syms| ==> todo == c.tail
      modifies `state, `zn, `zvec, `groupNo, `groupPos, `gSel, Footprint()
      ensures ok
      ensures state == Mtf(3) || state == Mtf(5) || state == Output
      ensures state == Mtf(3) || state == Mtf(5) ==> AtMtf1(todo)
      ensures state == Output ==> AtOutput(todo)
    {
      hide SelectorsRead, AtSymbol, Ready, AtOutput, SymbolAt, SymbolNumber, AtMtf1, Column, Due, BlockSymbols.Filled;
      hide MtfTable.Valid, MtfTable.L;
      ghost var x := X();
      SymbolParts(c, Read(), nGroups, nSelectors, selector, TabsNow(), groupNo, groupPos, gSel, x);
      assert c.im.syms[x..][0] == nextSym && c.im.syms[x..][1..] == c.im.syms[x + 1..];
      var st := stage.Take(nextSym, c.im.syms[x..], Column(c));
      match st
      case Corrupt => ok := false;
      case EndOfBlock =>
        ok := FinishBlock(todo);
      case More =>
        state := if stage.inRun then Mtf(3) else Mtf(5);
        ok := NextSymbol(todo, x + 1);
    }

    /** The end of the block: its last column is complete. */
    method FinishBlock(ghost todo: seq<bool>) returns (ok: bool)
      requires Shape() && SelectorsRead(c, Read(), nGroups, nSelectors, selector) && c.blockSize100k == d.blockSize100k
      requires stage.Consistent() && stage.out == Column(c) && todo == c.tail
      modifies `state, d, d.tt, d.ll.ll16, d.ll.ll4, d.cftab
      ensures ok && state == Output && AtOutput(todo)
    {
      hide Current, ValidImage, Used, Tallied, Written, SortedRotations, WellFormed, DState.Valid, DState.Accounted;
      hide MtfTable.Valid, CountEq, Column;
      BlockKnown(c, Read(), nGroups, nSelectors, selector);
      ghost var s := c.bl[c.no];
      FilledColumn(stage.small, stage.tt[..], stage.ll16[..], stage.unzftab[..], stage.out, s);
      var nblock := stage.nblock;
      if origPtr < 0 || origPtr >= nblock { return false; }
      var corrupt := d.BeginOutput(nblock, origPtr, stage.unzftab, s.block, s.order, strm);
      state := Output;
      ok := !corrupt;
    }

    // ----- The end of the stream -----

    /** The end-of-stream magic and the combined check value. */
    method StepEndHdr(n: nat, v: nat, ghost todo: seq<bool>, ghost rest: seq<bool>) returns (ok: bool)
      requires AtEndHdr(n, todo) && Got(todo, v, 8, rest)
      modifies `state, `storedCombinedCRC
      ensures ok
      ensures n < 6 ==> state == EndHdr(n + 1) && AtEndHdr(n + 1, rest)
      ensures n == 6 ==> state == CCrc(1) && AtCCrc(1, rest)
    {
      hide Got, AtHead, AllBlocksRead, TrailerBytes;
      HeadStep(TrailerBytes(c.crc), n - 1, 6, 0, c.pad, todo, v, rest);
      EndMagicBytes(c.crc, n);
      if v != EndMagic(n) { return false; }
      if n < 6 {
        state := EndHdr(n + 1);
      } else {
        storedCombinedCRC := 0;
        state := CCrc(1);
      }
      ok := true;
    }

    method StepCCrc(n: nat, v: nat, ghost todo: seq<bool>, ghost rest: seq<bool>)
      requires AtCCrc(n, todo) && Got(todo, v, 8, rest)
      modifies `state, `storedCombinedCRC
      ensures n < 4 ==> state == CCrc(n + 1) && AtCCrc(n + 1, rest)
      ensures n == 4 ==> state == Idle && AtIdle(rest)
    {
      hide Got, AtHead, ValidBlocks, TrailerBytes;
      HeadStep(TrailerBytes(c.crc), n + 5, 6, storedCombinedCRC, c.pad, todo, v, rest);
      storedCombinedCRC := storedCombinedCRC * 256 + v;
      if n < 4 {
        state := CCrc(n + 1);
      } else {
        HeadDone(TrailerBytes(c.crc), 10, 6, storedCombinedCRC, c.pad, rest);
        TrailerValue(c.crc);
        state := Idle;
      }
    }

    // ----- The whole parser -----

    /** What holds whenever the parser stops to read, with `todo` the bits of the stream from there on. */
    ghost predicate Phase(todo: seq<bool>)
      reads this, strm`written, Footprint()
    {
      && Shape() && c.blockSize100k == d.blockSize100k
      && match state
         case BlkHdr(n) => 1 <= n <= 6 && if n == 1 then BetweenBlocks(c, todo) else AtBlkHdr(n, todo)
         case BCrc(n) => n <= 4 && AtBCrc(n, todo)
         case RandBit => AtRandBit(todo)
         case OrigPtr(n) => n <= 3 && AtOrigPtr(n, todo)
         case Mapping1 => AtMapping1(todo)
         case Mapping2 => AtMapping2(todo)
         case Selector1 => AtSelector1(todo)
         case Selector2 => AtSelector2(todo)
         case Selector3 => AtSelector3(todo)
         case Coding1 => AtCoding1(todo)
         case Coding2 => AtCoding2(todo)
         case Coding3 => AtCoding3(todo)
         case Mtf(n) => 1 <= n <= 6 && if n % 2 == 1 then AtMtf1(todo) else AtMtf2(todo)
         case EndHdr(n) => n <= 6 && AtEndHdr(n, todo)
         case CCrc(n) => n <= 4 && AtCCrc(n, todo)
         case Output => AtOutput(todo)
         case Idle => AtIdle(todo)
    }

    /** In the header of a block, up to its map, or in the trailer. */
    predicate InHeader()
      reads `state
    {
      state.BlkHdr? || state.BCrc? || state.RandBit? || state.OrigPtr? || state.EndHdr? || state.CCrc?
    }

    /** Everything between two reads: fixed fields. */
    method StepHeader(v: nat, ghost n: nat, ghost todo: seq<bool>, ghost rest: seq<bool>) returns (ok: bool)
      requires Phase(todo) && InHeader() && n == Want() && Got(todo, v, n, rest)
      modifies `state, `c, `storedBlockCRC, `storedCombinedCRC, `origPtr, `i, `inUse16
      ensures ok && Phase(rest)
      ensures c.(im := old(c).im, tail := old(c).tail) == old(c)
    {
      hide AtBlkHdr, AtBCrc, AtRandBit, AtOrigPtr, AtMapping1, AtEndHdr, AtCCrc, AtOutput, AtIdle, BetweenBlocks, Got;
      hide Shape, Pow2, BitsOf;
      match state {
        case BlkHdr(k) =>
          if k == 1 { ok := StepFirst(v, todo, rest); } else { ok := StepBlkHdr(k, v, todo, rest); }
        case BCrc(k) => StepBCrc(k, v, todo, rest); ok := true;
        case RandBit => StepRandBit(v, todo, rest); ok := true;
        case OrigPtr(k) => ok := StepOrigPtr(k, v, todo, rest);
        case EndHdr(k) => ok := StepEndHdr(k, v, todo, rest);
        case CCrc(k) => StepCCrc(k, v, todo, rest); ok := true;
      }
    }

    /** Everything between two reads: map, selectors and tables. */
    method StepTables(v: nat, ghost n: nat, ghost todo: seq<bool>, ghost rest: seq<bool>) returns (ok: bool)
      requires Phase(todo) && !InHeader() && !state.Mtf? && state != Output && state != Idle && n == Want() &&
          Got(todo, v, n, rest)
      modifies this, Footprint()
      ensures ok && Phase(rest) && c == old(c)
    {
      hide AtMapping1, AtMapping2, AtSelector1, AtSelector2, AtSelector3, AtCoding1, AtCoding2, AtCoding3;
      hide AtMtf1, AtMtf2, AtOutput, Got, Shape, Pow2, BitsOf;
      match state {
        case Mapping1 => ok := StepMapping1(v, todo, rest);
        case Mapping2 => ok := StepMapping2(v, todo, rest);
        case Selector1 => ok := StepSelector1(v, todo, rest);
        case Selector2 => ok := StepSelector2(v, n, todo, rest);
        case Selector3 => ok := StepSelector3(v, todo, rest);
        case Coding1 => ok := StepCoding1(v, todo, rest);
        case Coding2 => ok := StepCoding2(v, todo, rest);
        case Coding3 => ok := StepCoding3(v, todo, rest);
      }
    }

    /** Everything between two reads: symbols. */
    method StepSymbols(v: nat, ghost n: nat, ghost todo: seq<bool>, ghost rest: seq<bool>) returns (ok: bool)
      requires Phase(todo) && state.Mtf? && n == Want() && Got(todo, v, n, rest)
      modifies this, Footprint()
      ensures ok && Phase(rest) && c == old(c)
    {
      hide AtMtf1, AtMtf2, AtOutput, Got, Shape, Pow2, BitsOf;
      var k := state.n;
      if k % 2 == 1 { ok := StepMtf1(k, v, todo, rest); } else { ok := StepMtf2(k - 1, v, todo, rest); }
    }

    /** Everything between two reads. */
    method Step(v: nat, ghost n: nat, ghost todo: seq<bool>, ghost rest: seq<bool>) returns (ok: bool)
      requires Phase(todo) && state != Output && state != Idle && n == Want() && Got(todo, v, n, rest)
      modifies this, Footprint()
      ensures ok && Phase(rest)
      ensures c.(im := old(c).im, tail := old(c).tail) == old(c)
    {
      hide Phase, Got, Want, Pow2, BitsOf;
      if InHeader() {
        ok := StepHeader(v, n, todo, rest);
      } else if state.Mtf? {
        ok := StepSymbols(v, n, todo, rest);
      } else {
        ok := StepTables(v, n, todo, rest);
      }
    }

    /** The parser and its reader agree on where in the stream they are; `future` are the bits of the
        stream the caller has not supplied yet. */
    ghost predicate Valid(future: seq<bool>)
      reads this, r, strm`written, Footprint()
    {
      r.Valid() && Phase(r.Unread() + future)
    }

    /** The caller supplies the next piece of the stream. */
    method Supply(chunk: seq<byte>, ghost future: seq<bool>, ghost later: seq<bool>)
      requires Valid(future) && future == BytesBits(chunk) + later
      modifies r
      ensures Valid(later) && r.Unread() + later == old(r.Unread()) + future && r.input == old(r.input) + chunk
    {
      hide Phase, BytesBits, BitsOf;
      BytesBitsConcat(r.input, chunk);
      ghost var a, b := BitsOf(r.bsBuff, r.bsLive), BytesBits(r.input);
      assert a + b + (BytesBits(chunk) + later) == a + (b + BytesBits(chunk)) + later;
      ghost var todo := r.Unread() + future;
      assert r !in Footprint();
      r.input := r.input + chunk;
      assert r.Unread() + later == todo;
      assert Phase(todo);
    }

    /** BZ2_decompress: goes on until the input runs out, or a block is ready to be delivered, or the
        stream is over. It never reports an error, and never loses its place. */
    method Decompress(ghost future: seq<bool>) returns (out: Outcome)
      requires Valid(future) && state != Output && state != Idle
      modifies this, r, Footprint()
      ensures Valid(future) && out != DataError
      ensures out == NeedInput ==> r.input == [] && state != Output && state != Idle && future != []
      ensures out == BlockReady <==> state == Output
      ensures out == StreamEnd <==> state == Idle
      ensures state == Output ==> |r.Unread()| < |old(r.Unread())|
      ensures c.(im := old(c).im, tail := old(c).tail) == old(c)
    {
      hide Valid, BitReader.Unread;
      var more := true;
      out := NeedInput;
      while more
        invariant Valid(future) && |r.Unread()| <= |old(r.Unread())|
        invariant c.(im := old(c).im, tail := old(c).tail) == old(c)
        invariant if more then state != Output && state != Idle
            else Done(out, future) && (state == Output ==> |r.Unread()| < |old(r.Unread())|)
        decreases more, |r.Unread()|
      {
        more, out := ReadStep(future);
      }
    }

    /** The parser has a reason to come back. */
    ghost predicate Done(out: Outcome, future: seq<bool>)
      reads `state, r
    {
      match out
      case NeedInput => r.input == [] && state != Output && state != Idle && future != []
      case BlockReady => state == Output
      case StreamEnd => state == Idle
      case DataError => false
    }

    /** One GET_BITS and what is done with it. */
    method ReadStep(ghost future: seq<bool>) returns (more: bool, out: Outcome)
      requires Valid(future) && state != Output && state != Idle
      modifies this, r, Footprint()
      ensures Valid(future) && if more then state != Output && state != Idle else Done(out, future)
      ensures more || state == Output ==> |r.Unread()| < |old(r.Unread())|
      ensures |r.Unread()| <= |old(r.Unread())|
      ensures c.(im := old(c).im, tail := old(c).tail) == old(c)
    {
      hide Valid, Phase, Want, Got, Done, BitReader.Unread, BitReader.Valid;
      Agrees(future);
      ghost var todo := r.Unread() + future;
      var ok, v, n := Receive(future);
      if !ok {
        NowAgrees(future);
        return false, NeedInput;
      }
      ok := Step(v, n, todo, r.Unread() + future);
      NowAgrees(future);
      more, out := Verdict(ok);
    }

    /** NEED_BITS for the state the parser is in: the bits, or all input is used up and nothing has changed. */
    method Receive(ghost future: seq<bool>) returns (ok: bool, v: nat, n: nat)
      requires r.Valid() && Phase(r.Unread() + future) && state != Output && state != Idle
      modifies r
      ensures r.Valid() && n == Want()
      ensures ok ==> Got(old(r.Unread()) + future, v, n, r.Unread() + future) && |r.Unread()| < |old(r.Unread())|
      ensures !ok ==> r.Unread() == old(r.Unread()) && r.input == [] && future != []
    {
      hide Phase, Want, Got, BitReader.Unread, BitReader.Valid, Pow2, BitsOf;
      ghost var before := r.Unread();
      WantSmall(before + future);
      EnoughInput(before + future);
      n := Want();
      ok, v := r.GetBits(n);
      if ok { Splits(before, v, n, r.Unread(), future); }
    }

    lemma Agrees(future: seq<bool>)
      requires Valid(future)
      ensures r.Valid() && Phase(r.Unread() + future)
    {
      hide Phase;
    }

    lemma NowAgrees(future: seq<bool>)
      requires r.Valid() && Phase(r.Unread() + future)
      ensures Valid(future)
      ensures r.input == [] && state != Output && state != Idle && future != [] ==> Done(NeedInput, future)
      ensures state == Output ==> Done(BlockReady, future)
      ensures state == Idle ==> Done(StreamEnd, future)
    {
      hide Phase;
    }

    /** Where a step has led. */
    method Verdict(ok: bool) returns (more: bool, out: Outcome)
      ensures out == if !ok then DataError else if state == Output then BlockReady else if state == Idle then StreamEnd
                     else NeedInput
      ensures more <==> ok && state != Output && state != Idle
    {
      if !ok { return false, DataError; }
      if state == Output { return false, BlockReady; }
      if state == Idle { return false, StreamEnd; }
      more, out := true, NeedInput;
    }

    /** A stream that is all there never leaves the parser short of input. */
    lemma EnoughInput(todo: seq<bool>)
      requires Phase(todo) && state != Output && state != Idle
      ensures |todo| >= Want()
    {
      hide Shape, BitsOf, Pow2, AtCoding2, AtCoding3, AtMtf1, AtMtf2, AtSelector1, AtSelector2, AtSelector3;
      hide AtMapping1, AtMapping2, AtCoding1;
      hide AtBlkHdr, AtBCrc, AtOrigPtr, AtEndHdr, AtCCrc, BetweenBlocks, AtRandBit;
      match state {
        case BlkHdr(n) => if n == 1 { MoreBlocks(c, todo); } else { EnoughHead(n, todo); }
        case BCrc(n) => EnoughHead(n, todo);
        case RandBit => EnoughHead(0, todo);
        case OrigPtr(n) => EnoughHead(n, todo);
        case EndHdr(n) => EnoughHead(n, todo);
        case CCrc(n) => EnoughHead(n, todo);
        case Mapping1 => EnoughMap(todo);
        case Mapping2 => EnoughMap(todo);
        case Selector1 => EnoughSelectors(todo);
        case Selector2 => EnoughSelectors(todo);
        case Selector3 => EnoughSelectors(todo);
        case Coding1 => EnoughCodings(todo);
        case Coding2 => EnoughCodings(todo);
        case Coding3 => EnoughCodings(todo);
        case Mtf(n) => EnoughSymbols(todo);
      }
    }

    lemma EnoughHead(n: nat, todo: seq<bool>)
      requires (state == BlkHdr(n) && AtBlkHdr(n, todo)) || (state == BCrc(n) && AtBCrc(n, todo))
            || (state == RandBit && AtRandBit(todo)) || (state == OrigPtr(n) && AtOrigPtr(n, todo))
            || (state == EndHdr(n) && AtEndHdr(n, todo)) || (state == CCrc(n) && AtCCrc(n, todo))
      ensures |todo| >= Want()
    {
      hide Current, AllBlocksRead, BitsOf, FromBytes, HeadBytes, TrailerBytes, BigEndian, MapBits, ValidImage;
      match state {
        case BlkHdr(_) => CurrentValid(c); HeadLength(HeadBytes(c.im), n - 1, AfterHead(c.im, c.tail));
        case BCrc(_) => CurrentValid(c); HeadLength(HeadBytes(c.im), n + 5, AfterHead(c.im, c.tail));
        case RandBit =>
        case OrigPtr(_) => CurrentValid(c); HeadLength(BigEndian(c.im.origPtr, 3), n - 1, MapBits(c.im, c.tail));
        case EndHdr(_) => HeadLength(TrailerBytes(c.crc), n - 1, c.pad);
        case CCrc(_) => HeadLength(TrailerBytes(c.crc), n + 5, c.pad);
      }
    }

    lemma EnoughMap(todo: seq<bool>)
      requires (state == Mapping1 && AtMapping1(todo)) || (state == Mapping2 && AtMapping2(todo))
      ensures |todo| >= Want()
    {
      hide HeadRead, ValidImage, SelectorBits;
    }

    lemma EnoughSelectors(todo: seq<bool>)
      requires (state == Selector1 && AtSelector1(todo)) || (state == Selector2 && AtSelector2(todo)) ||
          (state == Selector3 && AtSelector3(todo))
      ensures |todo| >= Want()
    {
      hide MapRead, ValidImage, Positions, SelectorsFrom, TableBits, BitsOf;
    }

    lemma EnoughCodings(todo: seq<bool>)
      requires (state == Coding1 && AtCoding1(todo)) || (state == Coding2 && AtCoding2(todo)) ||
          (state == Coding3 && AtCoding3(todo))
      ensures |todo| >= Want()
    {
      hide TablesRead, SelectorsRead, ValidImage, SymbolBits, BitsOf;
      if state == Coding1 { TablesKnown(c, Read(), nGroups, nSelectors, selector, t, lens); }
    }

    lemma EnoughSymbols(todo: seq<bool>)
      requires state.Mtf? && if state.n % 2 == 1 then AtMtf1(todo) else AtMtf2(todo)
      ensures |todo| >= Want()
    {
      hide SymbolAt, StageAt, Tables, ValidImage, TableOf, SymsFrom, BitsOf, SymsCoded, Decodable;
      if state.n % 2 == 1 {
        SymbolTable(c, Read(), nGroups, nSelectors, selector, TabsNow(), groupNo, groupPos, gSel, X());
        SymbolLength(c.im, c.tail, X(), todo, zn);
      } else {
        BitsLeft(c.im, c.tail, X(), zn - 1, zvec, todo);
      }
    }

    lemma WantSmall(todo: seq<bool>)
      requires Phase(todo) && state != Output && state != Idle
      ensures 1 <= Want() <= 24
    {
    }
  }

  lemma FirstLength(im: Image, tail: seq<bool>, t: nat, todo: seq<bool>, v: nat, rest: seq<bool>)
    requires ValidImage(im) && t < im.nGroups && Got(todo, v, 5, rest)
    requires todo == (ValidTables(im); TablesFrom(im.lens, t, SymbolBits(im, tail)))
    ensures AtLength(im, tail, t, [], v, rest) && 1 <= v <= 20
  {
    hide Got, ValidImage, TablesFrom, SymbolBits, BitsOf, Pow2;
    TableStart(im, tail, t, todo, v, rest);
  }

  lemma HeadLength(all: seq<byte>, c: nat, k: seq<bool>)
    requires c < |all|
    ensures |BytesThen(all[c..], k)| >= 8
  {
    hide BitsOf;
  }

  lemma MoreBlocks(c: Context, todo: seq<bool>)
    requires BetweenBlocks(c, todo)
    ensures |todo| >= 8
  {
    hide BitsOf, ValidSent, ValidImage, MapBits;
    BlocksImages(c.bl, c.blockSize100k);
    if c.no < |c.bl| {
      ImageAt(c.bl, c.no);
      HeadLength(BLOCK_MAGIC + BigEndian(c.bl[c.no].im.crc, 4), 0,
          [false] + BytesThen(BigEndian(c.bl[c.no].im.origPtr, 3),
              MapBits(c.bl[c.no].im, BlocksFrom(c.bl, c.no + 1, TrailerBits(c.crc, c.pad)))));
    } else {
      HeadLength(TrailerBytes(c.crc), 0, c.pad);
    }
  }

  lemma SymbolLength(im: Image, tail: seq<bool>, x: nat, todo: seq<bool>, n: nat)
    requires AtSymbol(im, tail, x, todo)
    requires forall i :: 0 <= i < |TableOf(im, x)| ==> n <= TableOf(im, x)[i]
    ensures |todo| >= n
  {
    hide ValidImage, TableOf, BitsOf;
    ValidTables(im);
    SymCoded(im, x);
  }

  lemma BitsLeft(im: Image, tail: seq<bool>, x: nat, n: nat, zvec: int, todo: seq<bool>)
    requires AtCodeBits(im, tail, x, n, zvec, todo) && Incomplete(im, x, n)
    ensures |todo| >= 1
  {
    hide ValidImage, TableOf, BitsOf, Shr, SymsFrom;
  }

  lemma Splits(before: seq<bool>, v: nat, n: nat, unread: seq<bool>, future: seq<bool>)
    requires v < Pow2(n) && before == BitsOf(v, n) + unread
    ensures Got(before + future, v, n, unread + future) && |before| == n + |unread|
  {
    hide BitsOf, Pow2;
    assert BitsOf(v, n) + unread + future == BitsOf(v, n) + (unread + future);
  }

  /** The fixed bytes as the parser compares them. */
  function Magic(n: nat): byte {
    match n
    case 1 => 0x31
    case 2 => 0x41
    case 3 => 0x59
    case 4 => 0x26
    case 5 => 0x53
    case _ => 0x59
  }

  function EndMagic(n: nat): byte {
    match n
    case 1 => 0x17
    case 2 => 0x72
    case 3 => 0x45
    case 4 => 0x38
    case 5 => 0x50
    case _ => 0x90
  }

  lemma MagicBytes(im: Image, n: nat)
    requires 1 <= n <= 6
    ensures HeadBytes(im)[n - 1] == Magic(n)
  {
  }

  function TrailerBytes(crc: nat): (r: seq<byte>)
    ensures |r| == 10
  {
    END_MAGIC + BigEndian(crc, 4)
  }

  lemma EndMagicBytes(crc: nat, n: nat)
    requires 1 <= n <= 6
    ensures TrailerBytes(crc)[n - 1] == EndMagic(n)
  {
  }

  lemma TrailerValue(crc: nat)
    requires crc < 0x1_0000_0000
    ensures FromBytes(TrailerBytes(crc)[6..]) == crc
  {
    assert TrailerBytes(crc)[6..] == BigEndian(crc, 4);
    Pow2Values();
    FromBigEndian(crc, 4);
  }

  lemma OrigPtrStart(im: Image, tail: seq<bool>)
    requires ValidImage(im)
    ensures AtHead(BigEndian(im.origPtr, 3), 0, 0, 0, MapBits(im, tail), AfterRand(im, tail))
  {
    NoBytes(BigEndian(im.origPtr, 3), 0);
    assert BigEndian(im.origPtr, 3)[0..] == BigEndian(im.origPtr, 3);
  }

  lemma OrigPtrDone(c: Context, origPtr: nat, rest: seq<bool>)
    requires Current(c) && ValidImage(c.im) &&
        AtHead(BigEndian(c.im.origPtr, 3), 3, 0, origPtr, MapBits(c.im, c.tail), rest)
    ensures origPtr == c.im.origPtr <= 10 + 100000 * c.blockSize100k && rest == MapBits(c.im, c.tail)
  {
    hide MapBits;
    HeadDone(BigEndian(c.im.origPtr, 3), 3, 0, origPtr, MapBits(c.im, c.tail), rest);
    HeadValue(c.im);
    assert BigEndian(c.im.origPtr, 3)[0..] == BigEndian(c.im.origPtr, 3);
    assert ValidSent(c.bl[c.no], c.blockSize100k);
  }

  ghost function AfterGroups(im: Image, tail: seq<bool>): seq<bool>
    requires ValidImage(im)
  {
    BitsOf(|im.selectors|, 15) + SelectorsFrom(Positions(im), 0, TableBits(im, tail))
  }

  lemma GroupCount(im: Image, tail: seq<bool>, todo: seq<bool>, v: nat, rest: seq<bool>)
    requires ValidImage(im) && todo == SelectorBits(im, tail) && Got(todo, v, 3, rest)
    ensures v == im.nGroups && 2 <= v <= 6 && rest == AfterGroups(im, tail)
  {
    hide Got, ValidImage, SelectorBits, BitsOf, Pow2, SelectorsFrom, Positions, TableBits;
    SelectorFields(im, tail);
    ImageShape(im);
    GotField(todo, v, 3, rest, im.nGroups, AfterGroups(im, tail));
  }

  lemma SelectorCount(im: Image, tail: seq<bool>, todo: seq<bool>, v: nat, n: nat, rest: seq<bool>)
    requires ValidImage(im) && todo == AfterGroups(im, tail) && n == 15 && Got(todo, v, n, rest)
    ensures v == |im.selectors| >= 1 && AtSelector(im, tail, [], 0, rest)
  {
    hide Got, ValidImage, SelectorBits, BitsOf, Pow2, SelectorsFrom, Positions, TableBits, AtSelector;
    SelectorFields(im, tail);
    ImageShape(im);
    GotField(todo, v, n, rest, |im.selectors|, SelectorsFrom(Positions(im), 0, TableBits(im, tail)));
    SelectorStart(im, tail, [], rest);
  }

  lemma SelectorClosed(im: Image, tail: seq<bool>, m: seq<int>, j: nat, todo: seq<bool>, v: nat, rest: seq<bool>)
    requires AtSelector(im, tail, m, j, todo) && Got(todo, v, 1, rest) && v == 0
    ensures ValidImage(im) && |m| + 1 <= |im.selectors|
    ensures |m| + 1 < |im.selectors| ==> AtSelector(im, tail, m + [j], 0, rest)
    ensures |m| + 1 == |im.selectors| ==> m + [j] == Positions(im) && rest == TableBits(im, tail)
  {
    hide Got, AtSelector, ValidImage, SelectorsFrom, Positions, TableBits;
    SelectorInside(im, tail, m, j, todo);
    SelectorZero(im, tail, m, j, todo, v, rest);
    SelectorStart(im, tail, m + [j], rest);
  }

  lemma SelectorInside(im: Image, tail: seq<bool>, m: seq<int>, j: nat, todo: seq<bool>)
    requires AtSelector(im, tail, m, j, todo)
    ensures |m| < |im.selectors| && ValidImage(im)
  {
  }

  lemma LengthInside(im: Image, tail: seq<bool>, t: nat, len: seq<int>, curr: int, todo: seq<bool>)
    requires AtLength(im, tail, t, len, curr, todo)
    ensures 1 <= curr <= 20 && ValidImage(im) && t < |im.lens| && |len| < |im.lens[t]|
  {
  }

  /** The first byte of a block, or of the trailer. */
  ghost method EnterBlock(c: Context, v: nat, todo: seq<bool>, rest: seq<bool>) returns (c2: Context)
    requires BetweenBlocks(c, todo) && Got(todo, v, 8, rest)
    ensures c2 == c.(im := c2.im, tail := c2.tail)
    ensures c.no < |c.bl| ==>
        v == 0x31 && Current(c2) && ValidImage(c2.im) &&
            AtHead(HeadBytes(c2.im), 1, 6, 0, AfterHead(c2.im, c2.tail), rest)
    ensures c.no >= |c.bl| ==> v == 0x17 && AllBlocksRead(c2) && AtHead(TrailerBytes(c2.crc), 1, 6, 0, c2.pad, rest)
  {
    hide Got, ValidBlocks, BlocksFrom, TrailerBits, AtHead, ValidImage, HeadBytes, AfterHead, TrailerBytes;
    if c.no < |c.bl| {
      var tail := BlockBegins(c.bl, c.no, c.blockSize100k, TrailerBits(c.crc, c.pad), todo, v, rest);
      c2 := c.(im := c.bl[c.no].im, tail := tail);
    } else {
      TrailerBegins(c.bl, c.no, c.blockSize100k, c.crc, c.pad, todo, v, rest);
      c2 := c;
    }
  }

  /** The last code length of a table: one more table is in. */
  lemma TableDone(c: Context, p: Parsed, nGroups: nat, nSelectors: nat, selector: seq<int>, t: nat, lens: seq<seq<int>>,
                  len: seq<int>, todo: seq<bool>)
    requires TablesRead(c, p, nGroups, nSelectors, selector, t, lens) && ValidImage(c.im)
    requires t < |c.im.lens| && len == c.im.lens[t] &&
        todo == (ValidTables(c.im); TablesFrom(c.im.lens, t + 1, SymbolBits(c.im, c.tail)))
    ensures lens + [len] == c.im.lens[..t + 1] && SelectorsRead(c, p, nGroups, nSelectors, selector)
    ensures t + 1 < nGroups ==> TablesRead(c, p, nGroups, nSelectors, selector, t + 1, lens + [len])
    ensures t + 1 == nGroups ==> lens + [len] == c.im.lens && todo == SymbolBits(c.im, c.tail)
  {
    hide SelectorsRead, ValidImage, SymbolBits;
    SelectorsKnown(c, p, nGroups, nSelectors, selector);
    ValidTables(c.im);
    assert c.im.lens[..|c.im.lens|] == c.im.lens;
  }

  lemma ReadyLengths(im: Image, u: nat)
    requires ValidImage(im) && u < |im.lens|
    ensures im.lens[u] != [] && |im.lens[u]| <= MAX_ALPHA_SIZE && LengthsWithin(im.lens[u], 1, 20)
  {
    assert ValidTable(im.lens[u], |Used(im.inUse, 256)| + 2);
  }

  /** minLens[t], limit[t], base[t] and perm[t]. */
  method TableFor(len: seq<int>) returns (minLen: nat, ghost maxLen: nat, limit: seq<int>, base: seq<int>,
                  perm: seq<int>)
    requires len != [] && |len| <= MAX_ALPHA_SIZE && LengthsWithin(len, 1, 20)
    ensures ReadyTable(len, minLen, maxLen, limit, base, perm)
  {
    hide Tables;
    var mn, mx := LengthRange(len);
    var length := new int[|len|](i requires 0 <= i < |len| => len[i]);
    var l, b, p := new int[MAX_ALPHA_SIZE](_ => 0), new int[MAX_ALPHA_SIZE](_ => 0), new int[MAX_ALPHA_SIZE](_ => 0);
    assert length[..|len|] == len;
    CreateDecodeTables(l, b, p, length, mn, mx, |len|);
    minLen, maxLen, limit, base, perm := mn, mx, l[..], b[..], p[..];
  }

  lemma SymbolInside(im: Image, tail: seq<bool>, x: nat, todo: seq<bool>)
    requires AtSymbol(im, tail, x, todo)
    ensures x < |im.syms| && ValidImage(im)
  {
  }

  /** With `n` bits in, the code of symbol `x` is not complete. */
  ghost predicate Incomplete(im: Image, x: int, n: nat) {
    0 <= x < |im.syms| && 0 <= im.syms[x] < |TableOf(im, x)| && n < TableOf(im, x)[im.syms[x]]
  }

  lemma LimitCheck(im: Image, tail: seq<bool>, x: nat, n: nat, zvec: int, todo: seq<bool>,
                   minLen: nat, maxLen: nat, limit: seq<int>, base: seq<int>, perm: seq<int>)
    requires AtCodeBits(im, tail, x, n, zvec, todo) && minLen <= n
    requires Tables(TableOf(im, x), minLen, maxLen, limit, base, perm)
    ensures |limit| == |base| == |perm| == MAX_ALPHA_SIZE && n <= 20 && x < |im.syms|
    ensures zvec > limit[n] ==> Incomplete(im, x, n)
    ensures zvec <= limit[n] ==> 0 <= zvec - base[n] < MAX_ALPHA_SIZE && perm[zvec - base[n]] == im.syms[x]
    ensures zvec <= limit[n] && x + 1 < |im.syms| ==> AtSymbol(im, tail, x + 1, todo)
    ensures zvec <= limit[n] && x + 1 == |im.syms| ==> todo == tail
  {
    hide ValidImage, TableOf, BitsOf, Decodable, Shr, CodeOf, SymsFrom, Tables, AtSymbol;
    ValidTables(im);
    SymCoded(im, x);
    CodeTest(im, tail, x, n, zvec, todo, minLen, maxLen, limit, base, perm);
  }

  lemma MoreBits(im: Image, tail: seq<bool>, x: nat, n: nat, zvec: int, todo: seq<bool>, v: nat, rest: seq<bool>)
    requires AtCodeBits(im, tail, x, n, zvec, todo) && Incomplete(im, x, n) && Got(todo, v, 1, rest)
    ensures AtCodeBits(im, tail, x, n + 1, zvec * 2 + v, rest)
  {
    hide Got, ValidImage, TableOf, BitsOf, Decodable, Shr, CodeOf, SymsFrom;
    CodeNext(im, tail, x, n, zvec, todo, v, rest);
  }

  /** What the output stage needs to know about the block. */
  lemma BlockKnown(c: Context, p: Parsed, nGroups: nat, nSelectors: nat, selector: seq<int>)
    requires SelectorsRead(c, p, nGroups, nSelectors, selector)
    ensures c.no < |c.bl| && Current(c) && p.storedBlockCRC == c.im.crc
    ensures var s := c.bl[c.no];
            && SortedRotations(s.block, s.order) && p.origPtr < |s.block| && s.order[p.origPtr] == 0
            && WellFormed(s.block, 0)
            && (forall x :: 0 <= x < |s.block| ==> 0 <= s.block[x] < 256) && Column(c) == LastColumn(s.block, s.order)
            && |s.block| <= 100000 * c.blockSize100k
  {
    assert ValidSent(c.bl[c.no], c.blockSize100k);
    hide Used, WellFormed, Code, Over, MappedColumn;
  }

  lemma FilledColumn(small: bool, tt: seq<u32>, ll16: seq<u16>, unzftab: seq<int>, out: seq<int>, s: Sent)
    requires SortedRotations(s.block, s.order) && out == LastColumn(s.block, s.order)
    requires Written(small, tt, ll16, out) && Tallied(unzftab, out)
    ensures |out| == |s.block| && |unzftab| == 256
    ensures forall c :: 0 <= c < 256 ==> unzftab[c] == CountEq(LastColumn(s.block, s.order), |s.block|, c)
    ensures !small ==> |s.block| <= |tt| && forall x :: 0 <= x < |s.block| ==> tt[x] == LastColumn(s.block, s.order)[x]
    ensures small ==> |s.block| <= |ll16| && forall x :: 0 <= x < |s.block| ==>
        ll16[x] == LastColumn(s.block, s.order)[x]
  {
    hide CountEq, RotLe;
  }

  /** What the whole symbol sequence of a block promises. */
  lemma StageStart(c: Context, p: Parsed)
    requires MapRead(c, p)
    ensures 2 < p.alphaSize <= 258 && |Column(c)| <= 100000 * c.blockSize100k
    ensures 0 < |c.im.syms| && Due([], p.seqToUnseq, Identity(256), p.alphaSize - 2, [], c.im.syms[0..], Column(c))
  {
    hide Code, Decode, Through, Used, SortedRotations, WellFormed, Terminated, Front, Mapped, Over;
    ImageShape(c.im);
    var s, n := c.bl[c.no], p.alphaSize - 2;
    assert ValidSent(s, c.blockSize100k);
    ColumnKnown(s, c.blockSize100k);
    var col := LastColumn(s.block, s.order);
    assert Column(c) == col;
    DecodesColumn(c.im.inUse, col, n);
    ThroughTable(Used(c.im.inUse, 256), p.seqToUnseq, Mapped(c.im.inUse, col));
    assert c.im.syms[0..] == c.im.syms;
    assert [] + col == col;
  }

  lemma ColumnKnown(s: Sent, blockSize100k: nat)
    requires ValidSent(s, blockSize100k)
    ensures IsPerm(s.order, |s.block|) && 0 < |s.block| <= 100000 * blockSize100k <= 900000 && |s.im.inUse| == 256
    ensures s.im.origPtr < |s.block|
    ensures forall i :: 0 <= i < |s.block| ==>
        0 <= LastColumn(s.block, s.order)[i] < 256 && s.im.inUse[LastColumn(s.block, s.order)[i]]
    ensures MappedColumn(s.im.inUse, s.block, s.order) == Mapped(s.im.inUse, LastColumn(s.block, s.order))
  {
    hide Code, Used, WellFormed, Mapped, Over;
  }

  lemma BlockBegins(bl: seq<Sent>, no: nat, blockSize100k: nat, k: seq<bool>, todo: seq<bool>, v: nat, rest: seq<bool>)
    returns (tail: seq<bool>)
    requires ValidBlocks(bl, blockSize100k) && no < |bl| && Got(todo, v, 8, rest) && todo == BlocksFrom(bl, no, k)
    ensures ValidImage(bl[no].im) && tail == BlocksFrom(bl, no + 1, k)
    ensures v == 0x31 && AtHead(HeadBytes(bl[no].im), 1, 6, 0, AfterHead(bl[no].im, tail), rest)
  {
    hide Got, AtHead, AfterHead, BytesThen, BlocksFrom;
    BlockStarts(bl, no, blockSize100k, k);
    tail := BlocksFrom(bl, no + 1, k);
    var h, after := HeadBytes(bl[no].im), AfterHead(bl[no].im, tail);
    HeadStart(h, 6, 0, after);
    HeadStep(h, 0, 6, 0, after, todo, v, rest);
    assert h[0] == 0x31;
  }

  lemma TrailerBegins(bl: seq<Sent>, no: nat, blockSize100k: nat, crc: nat, pad: seq<bool>, todo: seq<bool>, v: nat,
                      rest: seq<bool>)
    requires ValidBlocks(bl, blockSize100k) && no == |bl| && Got(todo, v, 8, rest)
    requires todo == BlocksFrom(bl, no, TrailerBits(crc, pad))
    ensures v == 0x17 && AtHead(TrailerBytes(crc), 1, 6, 0, pad, rest)
  {
    hide Got, AtHead, BytesThen, BigEndian;
    assert todo == TrailerBits(crc, pad);
    hide BlocksFrom;
    var h := TrailerBytes(crc);
    HeadStart(h, 6, 0, pad);
    HeadStep(h, 0, 6, 0, pad, todo, v, rest);
    assert h[0] == 0x17;
  }

  lemma BlockStarts(bl: seq<Sent>, no: nat, blockSize100k: nat, k: seq<bool>)
    requires ValidBlocks(bl, blockSize100k) && no < |bl|
    ensures ValidImages(bl)
    ensures BlocksFrom(bl, no, k) == BytesThen(HeadBytes(bl[no].im), AfterHead(bl[no].im, BlocksFrom(bl, no + 1, k)))
  {
    forall x | 0 <= x < |bl|
      ensures ValidImage(bl[x].im)
    {
      assert ValidSent(bl[x], blockSize100k);
    }
  }
}
