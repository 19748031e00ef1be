/** BZ2_bzCompress (bzlib.c): the stream machine that takes input and gives output a piece at a time.
    Over any sequence of calls no byte is lost: everything taken in is in a finished block, in the current
    block or in the run in progress. */
module BzCompress {
  import opened Rotations
  import opened Bits
  import opened BitIO
  import opened BlockCheck
  import opened RunLength
  import opened Bwt
  import opened BlockFormat
  import opened Decompress
  import opened BzDecompress
  import opened BlockBuffer
  import opened CompressBlock
  import BlockSort
  import BlockTail
  import opened ImageSize
  import opened InverseBwt
  import MainOrder

  /** The caller's half of bz_stream: input not taken yet, room left, output so far. */
  class Stream {
    var nextIn: seq<byte>
    var availOut: nat
    var nextOut: seq<byte>

    constructor ()
      ensures nextIn == nextOut == [] && availOut == 0
    {
      nextIn, nextOut, availOut := [], [], 0;
    }
  }

  datatype Mode = Stopped | Running | Flushing | Finishing
  /** BZ_S_OUTPUT and BZ_S_INPUT. */
  datatype State = Draining | Filling
  datatype Action = Run | Flush | Finish
  datatype Ret = RunOk | FlushOk | FinishOk | Ended | ParamError | OutOfSequence

  /** Sorting space: arr1, arr2 and ftab. */
  class Space {
    const ptr: array<int>
    const eclass: array<int>
    const bhtab: array<bool>
    const quadrant: array<u16>
    const ftab: array<int>
    const unseqToSeq: array<byte>
    const mtfFreq: array<nat>

    constructor (n: nat)
      ensures Shape(n) && fresh(ptr) && fresh(eclass) && fresh(bhtab) && fresh(quadrant) && fresh(ftab) &&
          fresh(unseqToSeq) && fresh(mtfFreq)
    {
      ptr, eclass, bhtab := new int[n](_ => 0), new int[n](_ => 0), new bool[n + 64](_ => false);
      quadrant, ftab := new u16[n + MainOrder.N_OVERSHOOT](_ => 0), new int[65537](_ => 0);
      unseqToSeq, mtfFreq := new byte[256](_ => 0), new nat[258](_ => 0);
    }

    ghost predicate Shape(n: nat) {
      && ptr != eclass && ptr.Length == eclass.Length == n && bhtab.Length == n + 64
      && quadrant.Length == n + 34 && ftab.Length == 65537 && ftab != ptr && ftab != eclass
      && quadrant as object !in {ptr as object, eclass as object, bhtab as object, ftab as object}
      && bhtab as object !in {ptr, eclass, ftab}
      && unseqToSeq.Length == 256 && mtfFreq.Length == 258
    }
  }

  class Compressor {
    const strm: Stream
    const buf: Buffer
    const w: BitWriter
    const sp: Space
    const blockSize100k: nat
    const workFactor: int
    var mode: Mode
    var state: State
    var availInExpect: nat
    var combinedCRC: u32
    var blockNo: nat
    /** numZ counts from zStart on: `zbits` holds the whole stream here. */
    var zStart: nat
    var stateOutPos: nat
    /** The blocks finished so far, every byte taken in, and what the caller had before. */
    ghost var done: seq<Sent>
    ghost var fed: seq<byte>
    ghost const out0: seq<byte>
    ghost var ended: bool
    ghost var pad: seq<bool>

    /** The fields of EState; the parts that hold memory are there already. */
    constructor (strm: Stream, blockSize100k: nat, workFactor: int, buf: Buffer, w: BitWriter, sp: Space)
      ensures this.strm == strm && this.blockSize100k == blockSize100k && this.workFactor == workFactor &&
          this.buf == buf && this.w == w && this.sp == sp
      ensures mode == Running && state == Filling &&
          availInExpect == combinedCRC == blockNo == zStart == stateOutPos == 0
      ensures done == [] && fed == [] && !ended && out0 == strm.nextOut
    {
      this.strm, this.blockSize100k, this.workFactor, this.buf, this.w, this.sp := strm, blockSize100k, workFactor, buf,
          w, sp;
      mode, state, availInExpect, combinedCRC, blockNo := Running, Filling, 0, 0, 0;
      zStart, stateOutPos, done, fed, ended, pad := 0, 0, [], [], false, [];
      out0 := strm.nextOut;
    }

    /** init_RL and prepare_new_block. */
    method Start()
      requires Shape() && buf.stateInCh == NO_CHAR && buf.stateInLen == 0
      requires mode == Running && state == Filling && combinedCRC == blockNo == zStart == stateOutPos == 0
      requires done == [] && fed == [] && !ended && out0 == strm.nextOut
      requires w.Valid() && w.Out() == [] && w.zbits == []
      modifies `blockNo, `zStart, `stateOutPos, buf, buf.inUse, w.mark
      ensures Valid()
    {
      hide Valid, Buffer.Valid, BitWriter.Valid, BitWriter.Out;
      PrepareNewBlock();
      StartsValid();
    }

    lemma StartsValid()
      requires Shape() && buf.Valid() && buf.nblock == 0 && buf.runs == [] && buf.plain == [] &&
          buf.stateInCh == NO_CHAR
      requires mode == Running && state == Filling && blockNo == 1 && combinedCRC == 0 && done == [] && fed == [] &&
          !ended
      requires w.Valid() && w.Out() == [] && w.zbits == [] && w.mark.floor == [] && zStart == stateOutPos == 0 &&
          strm.nextOut == out0
      ensures Valid()
    {
      hide Buffer.Valid, BitWriter.Valid, BitWriter.Out;
      assert out0 + w.zbits[..0] == out0;
    }

    ghost function Repr(): set<object> {
      {buf, buf.block, w.mark, buf.inUse, w, sp, sp.ptr, sp.eclass, sp.bhtab, sp.quadrant, sp.ftab, sp.unseqToSeq,
          sp.mtfFreq}
    }

    ghost predicate Shape() {
      && buf.Shape() && sp.Shape(100000 * blockSize100k) && 1 <= blockSize100k <= 9
      && buf.block.Length == 100000 * blockSize100k + 34
      && Apart(buf, sp)
    }

    function NblockMAX(): int {
      100000 * blockSize100k - 19
    }

    function NumZ(): int
      reads `zStart, w
    {
      |w.zbits| - zStart
    }

    /** What has been written to the stream. */
    ghost predicate WrittenOk()
      reads `blockNo, `state, `done, `combinedCRC, `ended, `pad, w, w.mark
    {
      && blockSize100k <= 9 && ValidImages(done)
      && if ended
         then |pad| < 8 && BytesBits(w.zbits) == StreamSoFar(blockSize100k, done, TrailerBits(combinedCRC, pad))
         else w.Valid() &&
              if blockNo == 1 && state == Filling then done == [] && w.Out() == []
              else w.Out() == StreamSoFar(blockSize100k, done, [])
    }

    /** What has been handed to the caller. */
    ghost predicate DeliveredOk()
      reads `zStart, `stateOutPos, `state, w, w.mark, strm`nextOut
    {
      && w.mark.floor <= w.zbits && zStart + stateOutPos <= |w.zbits|
      && strm.nextOut == out0 + w.zbits[..zStart + stateOutPos]
      && (state == Filling ==> stateOutPos == 0 && zStart == |w.zbits| && w.mark.floor == w.zbits)
    }

    /** Every byte taken in is accounted for. */
    ghost predicate Accounted()
      reads `done, `fed, `state, buf
    {
      fed == Plain(done, |done|) + (if state == Filling then buf.plain else []) + buf.Pending()
    }

    ghost predicate BlockOk()
      reads `state, `ended, `mode, `availInExpect, buf, buf.block, buf.inUse
    {
      && Shape()
      && (ended ==> state == Draining && (mode == Finishing || mode == Stopped))
      && (ended ==> availInExpect == 0 && buf.stateInCh == NO_CHAR)
      && (state == Filling ==>
          buf.Valid() && buf.nblock <= NblockMAX() + 4 && (buf.stateInCh == NO_CHAR ==> buf.runs == []))
      && (state == Draining ==> Joins([], buf.stateInCh, buf.stateInLen))
      && (state == Draining && !ended && mode != Flushing ==> buf.stateInCh < NO_CHAR)
      && (mode == Stopped ==> ended)
    }

    ghost predicate Valid()
      reads this, strm, Repr()
    {
      && BlockOk() && blockNo >= 1 && BlocksOk() && WrittenOk() && DeliveredOk() && Accounted()
    }

    /** prepare_new_block. */
    method PrepareNewBlock()
      requires Shape() && Joins([], buf.stateInCh, buf.stateInLen)
      modifies `blockNo, `zStart, `stateOutPos, buf`nblock, buf`blockCRC, buf`runs, buf`plain, buf.inUse, w.mark
      ensures w.mark.floor == w.zbits
      ensures old(w.Valid()) ==> w.Valid() && w.Out() == old(w.Out())
      ensures buf.Valid() && buf.nblock == 0 && buf.runs == [] && buf.plain == [] && blockNo == old(blockNo) + 1
      ensures zStart == |w.zbits| && stateOutPos == 0 && buf.Pending() == old(buf.Pending())
    {
      buf.Prepare();
      zStart, stateOutPos := |w.zbits|, 0;
      w.mark.floor := w.zbits;
      blockNo := blockNo + 1;
    }

    // ----- BZ2_compressBlock -----

    /** BZ2_blockSort: the block is sorted, and its bytes are back in place. */
    method SortBlock() returns (origPtr: int)
      requires Shape() && buf.Valid() && 0 < buf.nblock <= NblockMAX() + 9
      modifies sp.ptr, sp.eclass, sp.bhtab, sp.quadrant, sp.ftab, buf.block
      ensures buf.Valid() && 0 <= origPtr < buf.nblock && sp.ptr[origPtr] == 0
      ensures SortedRotations(buf.block[..buf.nblock], sp.ptr[..buf.nblock])
    {
      hide ValidRuns, Encode, Expand, Marks, CrcOf, SortedRotations;
      ghost var b := buf.block[..buf.nblock];
      origPtr := BlockSort.Sort(sp.ptr, sp.eclass, buf.block, sp.bhtab, sp.quadrant, sp.ftab, buf.nblock, workFactor);
      assert buf.block[..buf.nblock] == b;
    }

    /** The stream header, before the first block. */
    method PutStreamHeader()
      requires Shape() && w.Valid() && w.Out() == []
      modifies w
      ensures w.Valid() && w.Out() == StreamSoFar(blockSize100k, [], [])
    {
      hide BitWriter.Out, BitWriter.Valid, BytesThen;
      ghost var all := StreamSoFar(blockSize100k, [], []);
      Nothing(all);
      PutBytes(w, StreamHeader(blockSize100k), [], all);
      assert w.Out() + [] == w.Out();
    }

    /** The block after the header: it becomes the last of the blocks sent. */
    method PutBlock(crc: u32, origPtr: nat)
      requires Shape() && buf.Valid() && 0 < buf.nblock <= NblockMAX() + 9 && origPtr < buf.nblock &&
          sp.ptr[origPtr] == 0
      requires SortedRotations(buf.block[..buf.nblock], sp.ptr[..buf.nblock]) &&
          crc == BlockCrc(buf.crcTable, buf.plain)
      requires GoodBlocks(buf.crcTable, blockSize100k, done) && ValidImages(done) && AsEncoded(done)
      requires w.Valid() && w.Out() == StreamSoFar(blockSize100k, done, [])
      modifies w, sp.unseqToSeq, sp.mtfFreq, `done
      ensures GoodBlocks(buf.crcTable, blockSize100k, done) && ValidImages(done) && AsEncoded(done)
      ensures w.Valid() && w.Out() == StreamSoFar(blockSize100k, done, [])
      ensures Plain(done, |done|) == old(Plain(done, |done|)) + buf.plain
      ensures Combined(buf.crcTable, done, |done|) == Combine(old(Combined(buf.crcTable, done, |done|)), crc)
      ensures Grows(old(done), done, buf.nblock)
    {
      hide BitWriter.Out, BitWriter.Valid, SortedRotations, BlockCrc, GoodBlocks, ValidImages, StreamSoFar, Plain;
      hide Combined, Combine;
      hide Buffer.Valid, ValidSent, PlainOf, BlockBits, AsEncoded, Encoded;
      ghost var s := WriteBlock(w, buf, sp.ptr, sp.unseqToSeq, sp.mtfFreq, crc, origPtr, blockSize100k);
      StreamGrows(buf.crcTable, blockSize100k, done, s, []);
      GoodMore(buf.crcTable, blockSize100k, done, s);
      GoodImages(buf.crcTable, blockSize100k, done + [s]);
      PlainMore(buf.crcTable, done, s);
      EncodedMore(done, s);
      done := done + [s];
    }

    /** The trailer, and the last bits. */
    method PutTrailer()
      requires Shape() && w.Valid() && GoodBlocks(buf.crcTable, blockSize100k, done) && ValidImages(done)
      requires w.Out() == StreamSoFar(blockSize100k, done, [])
      modifies w, `pad
      ensures BytesBits(w.zbits) == StreamSoFar(blockSize100k, done, TrailerBits(combinedCRC, pad)) &&
          w.mark.floor <= w.zbits
      ensures |pad| < 8
    {
      hide BitWriter.Out, BitWriter.Valid, GoodBlocks, ValidImages, StreamSoFar, BytesThen, BytesBits, TrailerBytes;
      hide BitsOf;
      ghost var o := w.Out();
      ghost var t := TrailerBits(combinedCRC, []);
      PutBytes(w, TrailerBytes(combinedCRC), [], o + t);
      Nothing(w.Out());
      w.Finish();
      ghost var n: nat :| n < 8 && BytesBits(w.zbits) == o + t + BitsOf(0, n);
      pad := BitsOf(0, n);
      TrailerGrows(combinedCRC, pad);
      StreamGrows(buf.crcTable, blockSize100k, done, Sent(Image(0, 0, [], 0, [], [], []), [], []),
          TrailerBits(combinedCRC, pad));
      BlockTail.Reassociate(o, t, pad);
    }

    /** Blocks sent and the check value of all of them. */
    ghost predicate BlocksOk()
      reads `done, `combinedCRC
    {
      && GoodBlocks(buf.crcTable, blockSize100k, done) && ValidImages(done) && AsEncoded(done)
      && combinedCRC == Combined(buf.crcTable, done, |done|)
    }

    ghost predicate StreamOk()
      reads `done, w, w.mark
    {
      blockSize100k <= 9 && ValidImages(done) && w.Valid() && w.Out() == StreamSoFar(blockSize100k, done, [])
    }

    /** The stream header goes out with the first block. */
    method StartStream()
      requires Shape() && WrittenOk() && !ended && state == Filling && blockNo >= 1
      modifies w
      ensures StreamOk()
    {
      hide BitWriter.Valid, BitWriter.Out, ValidImages, StreamSoFar;
      if blockNo == 1 { PutStreamHeader(); }
    }

    /** A block that is not empty. */
    method AddBlock(crc: u32, origPtr: nat)
      requires Shape() && buf.Valid() && 0 < buf.nblock <= NblockMAX() + 9 && origPtr < buf.nblock &&
          sp.ptr[origPtr] == 0
      requires SortedRotations(buf.block[..buf.nblock], sp.ptr[..buf.nblock]) &&
          crc == BlockCrc(buf.crcTable, buf.plain)
      requires GoodBlocks(buf.crcTable, blockSize100k, done) && AsEncoded(done) && StreamOk()
      requires combinedCRC == Combine(Combined(buf.crcTable, done, |done|), crc)
      modifies w, sp.unseqToSeq, sp.mtfFreq, `done
      ensures BlocksOk() && StreamOk() && Plain(done, |done|) == old(Plain(done, |done|)) + buf.plain
      ensures Grows(old(done), done, buf.nblock)
    {
      hide BitWriter.Valid, BitWriter.Out, ValidImages, StreamSoFar, GoodBlocks, AsEncoded, SortedRotations, BlockCrc;
      hide Buffer.Valid, Plain, Combined, Combine;
      PutBlock(crc, origPtr);
    }

    /** The check values and the sort. */
    method FinishBlock() returns (crc: u32, origPtr: nat)
      requires Shape() && buf.Valid() && 0 < buf.nblock <= NblockMAX() + 9
      modifies `combinedCRC, sp.ptr, sp.eclass, sp.bhtab, sp.quadrant, sp.ftab, buf.block
      ensures crc == BlockCrc(buf.crcTable, buf.plain) && combinedCRC == Combine(old(combinedCRC), crc)
      ensures buf.Valid() && origPtr < buf.nblock && sp.ptr[origPtr] == 0
      ensures SortedRotations(buf.block[..buf.nblock], sp.ptr[..buf.nblock])
    {
      hide BlockCrc, Buffer.Valid, Combine, SortedRotations;
      crc := FinishCrc();
      origPtr := SortBlock();
    }

    /** BZ2_compressBlock up to the trailer: the block, if there is anything in it, is sent. */
    method AppendBlock()
      requires Shape() && state == Filling && !ended && buf.Valid() && buf.nblock <= NblockMAX() + 9 && blockNo >= 1
      requires BlocksOk() && WrittenOk() && Accounted()
      modifies `combinedCRC, `done, w, sp.ptr, sp.eclass, sp.bhtab, sp.quadrant, sp.ftab, buf.block, sp.unseqToSeq,
          sp.mtfFreq
      ensures BlocksOk() && StreamOk() && fed == Plain(done, |done|) + [] + buf.Pending()
      ensures Grows(old(done), done, buf.nblock)
    {
      hide BlocksOk, StreamOk, BitWriter.Valid, BitWriter.Out, StreamSoFar, Plain, Buffer.Valid, SortedRotations;
      hide BlockCrc, Combine, Combined, ValidImages, GoodBlocks, AsEncoded;
      hide WrittenOk;
      ghost var d := Plain(done, |done|);
      if buf.nblock > 0 {
        BlocksParts();
        StartStream();
        var crc, origPtr := FinishBlock();
        AddBlock(crc, origPtr);
        Reassociate(d, buf.plain, buf.Pending());
      } else {
        EmptyBlock(buf);
        StartStream();
        AddNothing(d);
      }
    }

    /** BZ2_compressBlock, then `s->state = BZ_S_OUTPUT`. What it writes fits behind the block in `arr2`. */
    method CompressBlock(isLast: bool)
      requires Shape() && state == Filling && !ended && buf.Valid() && buf.nblock <= NblockMAX() + 9 && blockNo >= 1
      requires BlocksOk() && WrittenOk() && DeliveredOk() && Accounted()
      modifies `state, `combinedCRC, `done, `ended, `pad, w, sp.ptr, sp.eclass, sp.bhtab, sp.quadrant, sp.ftab,
          buf.block, sp.unseqToSeq, sp.mtfFreq
      ensures Shape() && state == Draining && ended == isLast
      ensures BlocksOk() && WrittenOk() && DeliveredOk() && Accounted()
      ensures NumZ() <= Room(blockSize100k, buf.nblock)
      ensures Grows(old(done), done, buf.nblock) && old(done) <= done
      ensures old(w.zbits) <= w.zbits && (isLast ==> old(w.zbits) < w.zbits)
    {
      hide BlocksOk, StreamOk, BitWriter.Valid, BitWriter.Out, StreamSoFar, Plain, Buffer.Valid, ValidImages;
      hide GoodBlocks, Combined, Grows;
      BlocksParts();
      ghost var before := done;
      var bits := SizeBefore();
      AppendBlock();
      FinishStream(isLast);
      BlocksParts();
      SizeAfter(before, buf.nblock, bits);
      GrowsFront(before, done, buf.nblock);
      Kept(w.mark.floor, w.zbits);
    }

    /** Bits written before a block, counted from the whole bytes. */
    lemma SizeBefore() returns (bits: nat)
      requires Shape() && WrittenOk() && DeliveredOk() && state == Filling && !ended
      ensures ValidImages(done) && 8 * zStart <= bits == |StreamSoFar(blockSize100k, done, [])| <= 8 * zStart + 64
    {
      hide StreamSoFar, ValidImages;
      OutSize(w);
      HeaderSize(blockSize100k);
      bits := |StreamSoFar(blockSize100k, done, [])|;
    }

    lemma SizeAfter(before: seq<Sent>, nblock: nat, bits: nat)
      requires Shape() && WrittenOk() && state == Draining && (ended ==> |pad| < 8)
      requires GoodBlocks(buf.crcTable, blockSize100k, before) && GoodBlocks(buf.crcTable, blockSize100k, done)
      requires Grows(before, done, nblock) && ValidImages(before)
      requires 8 * zStart <= bits == |StreamSoFar(blockSize100k, before, [])| <= 8 * zStart + 64
      ensures NumZ() <= Room(blockSize100k, nblock) && (ended ==> zStart < |w.zbits|)
    {
      hide StreamSoFar, ValidImages, GoodBlocks, Grows, TrailerBits, BytesBits, BitWriter.Valid, BitWriter.Out;
      TrailerSize(combinedCRC, pad);
      var tail := if ended then TrailerBits(combinedCRC, pad) else [];
      StreamFits(buf.crcTable, blockSize100k, before, done, nblock, tail);
      if !ended { OutSize(w); }
    }

    method FinishStream(isLast: bool)
      requires Shape() && BlocksOk() && StreamOk() && state == Filling
      modifies `state, `ended, `pad, w
      ensures BlocksOk() && WrittenOk() && w.mark.floor <= w.zbits && state == Draining && ended == isLast
      ensures ended ==> |pad| < 8
    {
      hide BitWriter.Out, StreamSoFar, ValidImages, GoodBlocks, Combined, BytesBits;
      if isLast { PutTrailer(); }
      ended, state := isLast, Draining;
    }

    lemma BlocksParts()
      requires BlocksOk()
      ensures GoodBlocks(buf.crcTable, blockSize100k, done) && ValidImages(done) && AsEncoded(done)
      ensures combinedCRC == Combined(buf.crcTable, done, |done|)
    {
    }

    /** BZ_FINALISE_CRC and the combined check value. */
    method FinishCrc() returns (crc: u32)
      requires buf.Valid()
      modifies `combinedCRC
      ensures crc == BlockCrc(buf.crcTable, buf.plain) && combinedCRC == Combine(old(combinedCRC), crc)
    {
      crc := Finalise(buf.blockCRC);
      combinedCRC := Combine(combinedCRC, crc);
    }

    // ----- Moving bytes -----

    /** One byte of input: ADD_CHAR_TO_BLOCK and the counters. */
    method TakeByte()
      requires Shape() && buf.Valid() && buf.nblock < NblockMAX() && strm.nextIn != [] && state == Filling
      requires buf.stateInCh == NO_CHAR ==> buf.runs == []
      requires Accounted()
      modifies buf, buf.block, buf.inUse, strm`nextIn, `fed
      ensures buf.Valid() && buf.nblock <= 100000 * blockSize100k - 15 && buf.stateInCh < NO_CHAR
      ensures strm.nextIn == old(strm.nextIn)[1..] && fed == old(fed) + [old(strm.nextIn)[0]] && Accounted()
    {
      hide Buffer.Valid, Plain, Apart;
      ghost var d, c := Plain(done, |done|), buf.plain + buf.Pending();
      AccountedParts();
      buf.AddChar(strm.nextIn[0]);
      fed := fed + [strm.nextIn[0]];
      assert d + (c + [strm.nextIn[0]]) == d + c + [strm.nextIn[0]];
      strm.nextIn := strm.nextIn[1..];
      AccountedFrom(d, buf.plain, buf.Pending());
    }

    lemma AccountedParts()
      requires Accounted() && state == Filling
      ensures fed == Plain(done, |done|) + (buf.plain + buf.Pending())
    {
      AccountedFrom(Plain(done, |done|), buf.plain, buf.Pending());
    }

    /** copy_input_until_stop. */
    method CopyInputUntilStop() returns (progressIn: bool)
      requires Shape() && state == Filling && buf.Valid() && buf.nblock <= NblockMAX() + 4 && Accounted()
      requires buf.stateInCh == NO_CHAR ==> buf.runs == []
      modifies buf, buf.block, buf.inUse, strm`nextIn, `fed, `availInExpect
      ensures buf.Valid() && buf.nblock <= 100000 * blockSize100k - 15 && Accounted()
      ensures buf.stateInCh == NO_CHAR ==> buf.runs == []
      ensures |strm.nextIn| <= |old(strm.nextIn)| && fed + strm.nextIn == old(fed + strm.nextIn)
      ensures progressIn <==> |strm.nextIn| < |old(strm.nextIn)|
      ensures progressIn ==> buf.stateInCh < NO_CHAR
      ensures !progressIn ==> buf.nblock == old(buf.nblock) && buf.stateInCh == old(buf.stateInCh)
      ensures buf.nblock >= 100000 * blockSize100k - 19 || strm.nextIn == [] || (mode != Running && availInExpect == 0)
      ensures mode == Running ==> availInExpect == old(availInExpect)
      ensures mode != Running ==> |strm.nextIn| + old(availInExpect) == |old(strm.nextIn)| + availInExpect
    {
      hide Buffer.Valid, Plain, Apart, Accounted;
      progressIn := false;
      while true
        invariant buf.Valid() && buf.nblock <= NblockMAX() + 4 && Accounted()
        invariant buf.stateInCh == NO_CHAR ==> buf.runs == []
        invariant |strm.nextIn| <= |old(strm.nextIn)| && fed + strm.nextIn == old(fed + strm.nextIn)
        invariant progressIn <==> |strm.nextIn| < |old(strm.nextIn)|
        invariant progressIn ==> buf.stateInCh < NO_CHAR
        invariant !progressIn ==> buf.nblock == old(buf.nblock) && buf.stateInCh == old(buf.stateInCh)
        invariant mode == Running ==> availInExpect == old(availInExpect)
        invariant mode != Running ==> |strm.nextIn| + old(availInExpect) == |old(strm.nextIn)| + availInExpect
        decreases |strm.nextIn|
      {
        if buf.nblock >= NblockMAX() { break; }
        if strm.nextIn == [] { break; }
        if mode != Running && availInExpect == 0 { break; }
        progressIn := true;
        ghost var f, x := fed, strm.nextIn;
        TakeByte();
        OneMore(f, x);
        if mode != Running { availInExpect := availInExpect - 1; }
      }
    }

    /** copy_output_until_stop. */
    method CopyOutputUntilStop() returns (progressOut: bool)
      requires DeliveredOk() && state == Draining
      modifies `stateOutPos, strm`availOut, strm`nextOut
      ensures DeliveredOk() && stateOutPos >= old(stateOutPos)
      ensures strm.availOut == 0 || stateOutPos >= NumZ()
      ensures progressOut <==> strm.availOut < old(strm.availOut)
      ensures HandedOut(old(strm.nextOut), old(strm.availOut), strm.nextOut, strm.availOut)
    {
      progressOut := false;
      while true
        invariant DeliveredOk() && stateOutPos >= old(stateOutPos)
        invariant progressOut <==> strm.availOut < old(strm.availOut)
        invariant HandedOut(old(strm.nextOut), old(strm.availOut), strm.nextOut, strm.availOut)
        decreases strm.availOut
      {
        if strm.availOut == 0 { break; }
        if stateOutPos >= NumZ() { break; }
        progressOut := true;
        var c := w.zbits[zStart + stateOutPos];
        Deliver(out0, w.zbits, zStart + stateOutPos);
        strm.nextOut := strm.nextOut + [c];
        stateOutPos := stateOutPos + 1;
        strm.availOut := strm.availOut - 1;
      }
    }

    // ----- The machine -----

    /** isempty_RL. */
    predicate NoRun()
      reads buf
    {
      !(buf.stateInCh < 256 && buf.stateInLen > 0)
    }

    lemma NoRunMeans()
      requires BlockOk()
      ensures NoRun() <==> buf.stateInCh == NO_CHAR
    {
      hide Buffer.Valid;
      if state == Filling { JoinsNow(buf); }
    }

    /** Out of room, or at the end of the stream, or of what was to be flushed. */
    predicate DrainStopped()
      reads this, strm, buf, w
    {
      || (state == Draining && stateOutPos < NumZ() && strm.availOut == 0)
      || (mode == Finishing && state == Draining && availInExpect == 0 && NoRun() && stateOutPos >= NumZ())
      || (mode == Flushing && state == Filling && availInExpect == 0 && NoRun() && buf.nblock == 0)
    }

    /** BZ_S_OUTPUT: hand out what there is, and when that is all, begin a new block. */
    method Drain() returns (progressOut: bool, stop: bool)
      requires Valid() && state == Draining && mode != Stopped
      modifies `state, `blockNo, `zStart, `stateOutPos, buf`nblock, buf`blockCRC, buf`runs, buf`plain, buf.inUse,
          w.mark, strm`availOut, strm`nextOut
      ensures Valid()
      ensures !stop ==> state == Filling && buf.nblock == 0 && !(mode != Running && availInExpect == 0 && NoRun())
      ensures stop ==> DrainStopped()
      ensures progressOut <==> strm.availOut < old(strm.availOut)
      ensures HandedOut(old(strm.nextOut), old(strm.availOut), strm.nextOut, strm.availOut)
    {
      hide HandedOut, Buffer.Valid, BlocksOk, WrittenOk, DeliveredOk, Accounted;
      NoRunMeans();
      progressOut := CopyOutputUntilStop();
      if stateOutPos < NumZ() { return progressOut, true; }
      if mode == Finishing && availInExpect == 0 && NoRun() { return progressOut, true; }
      NextBlock();
      stop := mode == Flushing && availInExpect == 0 && NoRun();
    }

    method NextBlock()
      requires Valid() && state == Draining && !ended && stateOutPos >= NumZ()
      modifies `state, `blockNo, `zStart, `stateOutPos, buf`nblock, buf`blockCRC, buf`runs, buf`plain, buf.inUse, w.mark
      ensures Valid() && state == Filling && buf.nblock == 0
    {
      hide Buffer.Valid, BlocksOk, BitWriter.Valid, BitWriter.Out, StreamSoFar, ValidImages, Plain, Apart;
      assert w.zbits[..zStart + stateOutPos] == w.zbits;
      PrepareNewBlock();
      state := Filling;
      assert w.zbits[..|w.zbits|] == w.zbits;
    }

    /** BZ_S_INPUT: take what there is; a full block, or the end of what is to be flushed, is compressed. */
    method Fill() returns (progressIn: bool, stop: bool)
      requires Valid() && state == Filling && mode != Stopped
      modifies this, strm`nextIn, Repr()
      ensures Valid() && mode == old(mode)
      ensures fed + strm.nextIn == old(fed + strm.nextIn) && |strm.nextIn| <= |old(strm.nextIn)|
      ensures mode != Running ==> |strm.nextIn| + old(availInExpect) == |old(strm.nextIn)| + availInExpect
      ensures stop ==> state == Filling && strm.nextIn == [] && !(mode != Running && availInExpect == 0)
      ensures !stop ==> state == Draining
      ensures !stop && old(buf.nblock) == 0 ==>
          |strm.nextIn| < |old(strm.nextIn)| || (mode != Running && availInExpect == 0 && NoRun())
      ensures progressIn <==> |strm.nextIn| < |old(strm.nextIn)|
      ensures Grown(old(w.zbits), old(ended), old(done), w.zbits, ended, done)
      ensures mode == Finishing ==> FullBlocks(100000 * blockSize100k - 19, old(done), old(ended), done, ended)
    {
      hide Valid, Buffer.Valid, Grown, FullBlocks, Plain, BlocksOk, WrittenOk, DeliveredOk, Accounted, Apart;
      FillReady();
      GrownNothing(w.zbits, ended, done);
      FullNothing(100000 * blockSize100k - 19, done, ended);
      progressIn := CopyInputUntilStop();
      if mode != Running && availInExpect == 0 {
        FlushRun();
        SendBlock(mode == Finishing);
        stop := false;
      } else if buf.nblock >= NblockMAX() {
        FullBlock(buf);
        SendBlock(false);
        stop := false;
      } else {
        StillFilling();
        stop := strm.nextIn == [];
      }
    }

    lemma FillReady()
      requires Valid() && state == Filling
      ensures Shape() && buf.Valid() && buf.nblock <= NblockMAX() + 4 && Accounted() && !ended && mode != Mode.Stopped
      ensures buf.stateInCh == NO_CHAR ==> buf.runs == []
      ensures BlocksOk() && WrittenOk() && DeliveredOk() && blockNo >= 1
    {
      hide Buffer.Valid, BlocksOk, WrittenOk, DeliveredOk, Accounted, Apart;
    }

    lemma StillFilling()
      requires state == Filling && !ended && mode != Mode.Stopped && Shape() && buf.Valid() &&
          buf.nblock <= NblockMAX() + 4 && Accounted()
      requires buf.stateInCh == NO_CHAR ==> buf.runs == []
      requires BlocksOk() && WrittenOk() && DeliveredOk() && blockNo >= 1
      ensures Valid()
    {
      hide Buffer.Valid, BlocksOk, WrittenOk, DeliveredOk, Accounted, Apart;
    }

    /** A block goes out. */
    method SendBlock(isLast: bool)
      requires Shape() && state == Filling && !ended && mode != Mode.Stopped && buf.Valid() &&
          buf.nblock <= NblockMAX() + 9 && blockNo >= 1
      requires BlocksOk() && WrittenOk() && DeliveredOk() && Accounted()
      requires isLast ==> mode == Finishing && availInExpect == 0 && buf.stateInCh == NO_CHAR
      requires !isLast && mode != Flushing ==> buf.stateInCh < NO_CHAR
      modifies `state, `combinedCRC, `done, `ended, `pad, w, sp.ptr, sp.eclass, sp.bhtab, sp.quadrant, sp.ftab,
          buf.block, sp.unseqToSeq, sp.mtfFreq
      ensures Valid() && state == Draining
      ensures Grown(old(w.zbits), false, old(done), w.zbits, ended, done)
      ensures isLast || buf.nblock >= 100000 * blockSize100k - 19 ==>
          FullBlocks(100000 * blockSize100k - 19, old(done), false, done, ended)
    {
      hide Buffer.Valid, BlocksOk, WrittenOk, DeliveredOk, Accounted, Apart, FullBlocks;
      JoinsNow(buf);
      CompressBlock(isLast);
      FullNow(100000 * blockSize100k - 19, old(done), done, buf.nblock, ended);
    }

    /** flush_RL. */
    method FlushRun()
      requires Shape() && state == Filling && buf.Valid() && buf.nblock <= NblockMAX() + 4 && Accounted()
      modifies buf, buf.block, buf.inUse
      ensures buf.Valid() && buf.nblock <= NblockMAX() + 9 && Accounted() && buf.stateInCh == NO_CHAR &&
          buf.stateInLen == 0
    {
      hide Buffer.Valid, Plain, Apart;
      AccountedFrom(Plain(done, |done|), buf.plain, buf.Pending());
      buf.Flush();
      JoinsNow(buf);
      AddNothing(Plain(done, |done|) + buf.plain);
    }

    /** Why handle_compress comes back. */
    predicate Stopped?()
      reads this, strm, buf, w
    {
      DrainStopped() || (state == Filling && strm.nextIn == [] && !(mode != Running && availInExpect == 0))
    }

    /** What is left to do, apart from input: nothing, one more block, or a block and what follows. */
    ghost function Rank(): nat
      reads `state, `mode, `availInExpect, buf
    {
      if state == Filling then 2 else if mode != Running && availInExpect == 0 && NoRun() then 0 else 1
    }

    /** One turn of handle_compress. */
    method Turn() returns (progressIn: bool, progressOut: bool, stop: bool)
      requires Valid() && mode != Mode.Stopped && (mode != Running ==> availInExpect == |strm.nextIn|)
      modifies this, strm, Repr()
      ensures Valid() && mode == old(mode) && (mode != Running ==> availInExpect == |strm.nextIn|)
      ensures fed + strm.nextIn == old(fed + strm.nextIn) && |strm.nextIn| <= |old(strm.nextIn)|
      ensures stop ==> Stopped?()
      ensures !stop ==> |strm.nextIn| < |old(strm.nextIn)| || Rank() < old(Rank())
      ensures progressIn <==> |strm.nextIn| < |old(strm.nextIn)|
      ensures progressOut <==> strm.availOut < old(strm.availOut)
      ensures HandedOut(old(strm.nextOut), old(strm.availOut), strm.nextOut, strm.availOut)
      ensures Grown(old(w.zbits), old(ended), old(done), w.zbits, ended, done)
      ensures mode == Finishing ==> FullBlocks(100000 * blockSize100k - 19, old(done), old(ended), done, ended)
    {
      hide Valid, DrainStopped, FullBlocks;
      FullNothing(100000 * blockSize100k - 19, done, ended);
      progressIn, progressOut, stop := false, false, false;
      if state == Draining {
        progressOut, stop := Drain();
        if stop { return; }
      }
      progressIn, stop := Fill();
    }

    /** handle_compress. It ends, and takes no more and no less than it accounts for. */
    method HandleCompress() returns (progress: bool)
      requires Valid() && mode != Mode.Stopped && (mode != Running ==> availInExpect == |strm.nextIn|)
      modifies this, strm, Repr()
      ensures Valid() && mode == old(mode) && (mode != Running ==> availInExpect == |strm.nextIn|)
      ensures fed + strm.nextIn == old(fed + strm.nextIn) && Stopped?() && |strm.nextIn| <= |old(strm.nextIn)|
      ensures progress <==> |strm.nextIn| < |old(strm.nextIn)| || strm.availOut < old(strm.availOut)
      ensures HandedOut(old(strm.nextOut), old(strm.availOut), strm.nextOut, strm.availOut)
      ensures Grown(old(w.zbits), old(ended), old(done), w.zbits, ended, done)
      ensures mode == Finishing ==> FullBlocks(100000 * blockSize100k - 19, old(done), old(ended), done, ended)
    {
      hide Valid, Stopped?, Rank, HandedOut, Grown, FullBlocks;
      FullNothing(100000 * blockSize100k - 19, done, ended);
      HandedNothing(strm.nextOut, strm.availOut);
      GrownNothing(w.zbits, ended, done);
      progress := false;
      var stop := false;
      while !stop
        invariant Valid() && mode == old(mode) && (mode != Running ==> availInExpect == |strm.nextIn|)
        invariant fed + strm.nextIn == old(fed + strm.nextIn) && (stop ==> Stopped?()) &&
            |strm.nextIn| <= |old(strm.nextIn)|
        invariant progress <==> |strm.nextIn| < |old(strm.nextIn)| || strm.availOut < old(strm.availOut)
        invariant HandedOut(old(strm.nextOut), old(strm.availOut), strm.nextOut, strm.availOut) &&
            strm.availOut <= old(strm.availOut)
        invariant Grown(old(w.zbits), old(ended), old(done), w.zbits, ended, done)
        invariant mode == Finishing ==> FullBlocks(100000 * blockSize100k - 19, old(done), old(ended), done, ended)
        decreases |strm.nextIn|, if stop then 0 else 1 + Rank()
      {
        var progressIn, progressOut;
        ghost var n, a, z, e, bl := strm.nextOut, strm.availOut, w.zbits, ended, done;
        progressIn, progressOut, stop := Turn();
        HandedMore(old(strm.nextOut), old(strm.availOut), n, a, strm.nextOut, strm.availOut);
        GrownMore(old(w.zbits), old(ended), old(done), z, e, bl, w.zbits, ended, done);
        if mode == Finishing { FullMore(100000 * blockSize100k - 19, old(done), old(ended), bl, e, z, done, ended,
            w.zbits); }
        progress := progress || progressIn || progressOut;
      }
    }

    /** `avail_in_expect = avail_in`, and the mode that was asked for. */
    method Expect(m: Mode)
      requires Valid() && mode == Running && (m == Flushing || m == Finishing)
      modifies `mode, `availInExpect
      ensures Valid() && mode == m && availInExpect == |strm.nextIn|
    {
      hide Buffer.Valid, BlocksOk, WrittenOk, DeliveredOk, Accounted, Shape;
      availInExpect, mode := |strm.nextIn|, m;
    }

    /** A flush or a finish that comes back is out of room, or over. */
    lemma Resting()
      requires Valid() && Stopped?() && (mode == Flushing || mode == Finishing) && availInExpect == |strm.nextIn|
      ensures availInExpect > 0 || !NoRun() || stateOutPos < NumZ() ==> strm.availOut == 0
      ensures !(availInExpect > 0 || !NoRun() || stateOutPos < NumZ()) ==>
                strm.nextIn == [] && if mode == Flushing then state == Filling && buf.nblock == 0 else state == Draining
    {
      hide Buffer.Valid, BlocksOk, WrittenOk, Accounted, Shape;
      if mode == Flushing && state == Draining { DrainedFlush(); }
    }

    lemma DrainedFlush()
      requires Valid() && Stopped?() && mode == Flushing && state == Draining
      ensures stateOutPos < NumZ()
    {
      hide Buffer.Valid, BlocksOk, WrittenOk, DeliveredOk, Accounted, Shape;
    }

    /** Everything taken in so far is in finished blocks, and all whole bytes of them are out. */
    method EndFlush()
      requires Valid() && mode == Flushing && state == Filling && buf.nblock == 0 && NoRun()
      modifies `mode
      ensures Valid() && mode == Running && fed == Plain(done, |done|) && strm.nextOut == out0 + w.zbits
    {
      hide Buffer.Valid, BlocksOk, WrittenOk, Shape, Plain;
      NoRunMeans();
      EmptyBlock(buf);
      AddNothing(Plain(done, |done|));
      AddNothing(Plain(done, |done|) + []);
      assert w.zbits[..zStart + stateOutPos] == w.zbits;
      mode := Running;
    }

    method EndStream()
      requires Valid() && mode == Finishing && state == Draining && availInExpect == 0 && NoRun() &&
          stateOutPos >= NumZ()
      modifies `mode
      ensures Valid() && mode == Mode.Stopped && ended && fed == Plain(done, |done|) && strm.nextOut == out0 + w.zbits
    {
      hide Buffer.Valid, BlocksOk, WrittenOk, Shape, Plain;
      NoRunMeans();
      AddNothing(Plain(done, |done|));
      AddNothing(Plain(done, |done|) + []);
      assert w.zbits[..zStart + stateOutPos] == w.zbits;
      mode := Mode.Stopped;
    }

    /** Between calls a stream that has ended still has output to hand out. */
    ghost predicate Between()
      reads `mode, `ended, `zStart, `stateOutPos, w
    {
      mode == Finishing && ended ==> stateOutPos < NumZ()
    }

    /** The call is one the mode allows: any while running, after that only the same again, with the input
        that was announced. */
    predicate InSequence(action: Action)
      reads `mode, `availInExpect, strm
    {
      || mode == Running
      || (mode == Flushing && action == Flush && availInExpect == |strm.nextIn|)
      || (mode == Finishing && action == Finish && availInExpect == |strm.nextIn|)
    }

    /** What BZ2_bzCompress comes back with: an action out of sequence moves nothing; RUN takes and gives all it
        can, and reports whether that was anything; FLUSH and FINISH are over unless they are out of room. */
    ghost predicate Answers(action: Action, expected: bool, moved: bool, ret: Ret)
      reads `mode, strm
    {
      if !expected then ret == OutOfSequence && !moved
      else match action
        case Run => ret == (if moved then RunOk else ParamError) && mode == Running &&
            (strm.nextIn == [] || strm.availOut == 0)
        case Flush => (ret == RunOk && mode == Running) || (ret == FlushOk && mode == Flushing && strm.availOut == 0)
        case Finish =>
          || (ret == Ended && moved && mode == Mode.Stopped)
          || (ret == FinishOk && moved && mode == Finishing && strm.availOut == 0)
          || (ret == OutOfSequence && !moved && mode == Finishing && strm.availOut == 0)
    }

    /** A finish that has room hands something out: of what was left, or what ends the stream. */
    lemma FinishMoves(n0: seq<byte>, a0: nat, pos0: nat, z0: seq<byte>, e0: bool, bl0: seq<Sent>)
      requires Valid() && Stopped?() && mode == Finishing && availInExpect == |strm.nextIn|
      requires HandedOut(n0, a0, strm.nextOut, strm.availOut) && Grown(z0, e0, bl0, w.zbits, ended, done)
      requires pos0 <= |z0| && n0 == out0 + z0[..pos0] && (e0 ==> pos0 < |z0|)
      ensures a0 > 0 ==> strm.availOut < a0
    {
      hide Buffer.Valid, BlocksOk, WrittenOk, Accounted, Shape;
      NoRunMeans();
    }

    /** Where output stands before a call. */
    lemma Position() returns (pos: nat)
      requires Valid()
      ensures pos == zStart + stateOutPos <= |w.zbits| && strm.nextOut == out0 + w.zbits[..pos]
      ensures Between() && mode == Finishing && ended ==> pos < |w.zbits|
      ensures mode == Running ==> !ended
    {
      hide Buffer.Valid, BlocksOk, WrittenOk, Accounted, Shape;
      pos := zStart + stateOutPos;
    }

    lemma RunStops()
      requires Valid() && Stopped?() && mode == Running
      ensures strm.nextIn == [] || strm.availOut == 0
    {
      hide Valid;
    }

    /** BZ_M_RUNNING and BZ_RUN. */
    method RunAction() returns (ret: Ret)
      requires Valid() && mode == Running
      modifies this, strm, Repr()
      ensures Valid() && mode == Running && fed + strm.nextIn == old(fed + strm.nextIn) && old(done) <= done
      ensures HandedOut(old(strm.nextOut), old(strm.availOut), strm.nextOut, strm.availOut)
      ensures ret == (if strm.nextIn != old(strm.nextIn) || strm.nextOut != old(strm.nextOut)
                      then RunOk else ParamError)
      ensures strm.nextIn == [] || strm.availOut == 0
    {
      hide Valid, Stopped?, HandedOut, Grown;
      ghost var f, x, n, a, z, e, bl := fed, strm.nextIn, strm.nextOut, strm.availOut, w.zbits, ended, done;
      var progress := HandleCompress();
      RunStops();
      Moved(f, x, n, a, fed, strm.nextIn, strm.nextOut, strm.availOut);
      GrownBlocks(z, e, bl, w.zbits, ended, done);
      ret := if progress then RunOk else ParamError;
    }

    /** BZ_M_FLUSHING. */
    method FlushAction() returns (ret: Ret)
      requires Valid() && mode == Flushing && availInExpect == |strm.nextIn|
      modifies this, strm, Repr()
      ensures Valid() && fed + strm.nextIn == old(fed + strm.nextIn) && old(done) <= done
      ensures HandedOut(old(strm.nextOut), old(strm.availOut), strm.nextOut, strm.availOut)
      ensures (ret == RunOk && mode == Running) || (ret == FlushOk && mode == Flushing && strm.availOut == 0)
      ensures ret == RunOk ==> strm.nextIn == [] && fed == Plain(done, |done|) && strm.nextOut == out0 + w.zbits
    {
      hide Valid, Stopped?, HandedOut, Grown, Plain;
      ghost var z, e, bl := w.zbits, ended, done;
      var progress := HandleCompress();
      GrownBlocks(z, e, bl, w.zbits, ended, done);
      Resting();
      if availInExpect > 0 || !NoRun() || stateOutPos < NumZ() { return FlushOk; }
      EndFlush();
      ret := RunOk;
    }

    /** BZ_M_FINISHING. */
    method FinishAction() returns (ret: Ret)
      requires Valid() && mode == Finishing && availInExpect == |strm.nextIn| && Between()
      modifies this, strm, Repr()
      ensures Valid() && Between() && fed + strm.nextIn == old(fed + strm.nextIn) && old(done) <= done
      ensures HandedOut(old(strm.nextOut), old(strm.availOut), strm.nextOut, strm.availOut)
      ensures Answers(Finish, true, strm.nextIn != old(strm.nextIn) || strm.nextOut != old(strm.nextOut), ret)
      ensures ret == Ended ==>
          ended && strm.nextIn == [] && fed == Plain(done, |done|) && strm.nextOut == out0 + w.zbits
      ensures FullBlocks(100000 * blockSize100k - 19, old(done), old(ended), done, ended)
    {
      hide Valid, Stopped?, HandedOut, Grown, Plain, FullBlocks;
      ghost var f, x, n, a, z, e, bl := fed, strm.nextIn, strm.nextOut, strm.availOut, w.zbits, ended, done;
      ghost var pos := Position();
      var progress := HandleCompress();
      GrownBlocks(z, e, bl, w.zbits, ended, done);
      FinishMoves(n, a, pos, z, e, bl);
      Moved(f, x, n, a, fed, strm.nextIn, strm.nextOut, strm.availOut);
      Resting();
      if !progress {
        StillBetween(n, a, pos, z, e, bl);
        return OutOfSequence;
      }
      if availInExpect > 0 || !NoRun() || stateOutPos < NumZ() {
        EndedBetween();
        return FinishOk;
      }
      EndStream();
      ret := Ended;
    }

    /** Unless all of it is out, a stream that has ended is between calls. */
    lemma EndedBetween()
      requires Valid() && mode == Finishing && (availInExpect > 0 || !NoRun() || stateOutPos < NumZ())
      ensures Between()
    {
      hide Buffer.Valid, BlocksOk, WrittenOk, Accounted, Shape, DeliveredOk;
      NoRunMeans();
    }

    lemma StillBetween(n0: seq<byte>, a0: nat, pos0: nat, z0: seq<byte>, e0: bool, bl0: seq<Sent>)
      requires Valid() && mode == Finishing
      requires HandedOut(n0, a0, strm.nextOut, strm.availOut) && strm.availOut == a0 &&
          Grown(z0, e0, bl0, w.zbits, ended, done)
      requires pos0 <= |z0| && n0 == out0 + z0[..pos0] && (e0 ==> pos0 < |z0|)
      ensures Between()
    {
      hide Buffer.Valid, BlocksOk, WrittenOk, Accounted, Shape;
    }

    /** BZ2_bzCompress. When it reports the end of the stream, the stream is complete, all of it has been
        handed over, and its blocks stand for exactly the bytes taken in; and it does so as soon as a finish
        leaves room. */
    method BzCompress(action: Action) returns (ret: Ret)
      requires Valid() && Between()
      modifies this, strm, Repr()
      ensures Valid() && Between() && fed + strm.nextIn == old(fed + strm.nextIn) && old(done) <= done
      ensures HandedOut(old(strm.nextOut), old(strm.availOut), strm.nextOut, strm.availOut)
      ensures Answers(action, old(InSequence(action)),
                      strm.nextIn != old(strm.nextIn) || strm.nextOut != old(strm.nextOut), ret)
      ensures ret == Ended ==>
          ended && strm.nextIn == [] && fed == Plain(done, |done|) && strm.nextOut == out0 + w.zbits
      ensures ret == RunOk && action == Flush ==>
          strm.nextIn == [] && fed == Plain(done, |done|) && strm.nextOut == out0 + w.zbits
      ensures action == Finish ==> FullBlocks(100000 * blockSize100k - 19, old(done), old(ended), done, ended)
    {
      hide Valid, Plain, HandedOut, FullBlocks;
      FullNothing(100000 * blockSize100k - 19, done, ended);
      HandedNothing(strm.nextOut, strm.availOut);
      ghost var pos := Position();
      if mode == Mode.Stopped { return OutOfSequence; }
      if mode == Running {
        match action
        case Run =>
          ret := RunAction();
          return;
        case Flush =>
          Expect(Flushing);
        case Finish =>
          Expect(Finishing);
      }
      if mode == Flushing {
        if action != Flush || availInExpect != |strm.nextIn| { return OutOfSequence; }
        ret := FlushAction();
        return;
      }
      if action != Finish || availInExpect != |strm.nextIn| { return OutOfSequence; }
      ret := FinishAction();
    }
  }

  lemma GrownBlocks(z0: seq<byte>, e0: bool, bl0: seq<Sent>, z: seq<byte>, e: bool, bl: seq<Sent>)
    requires Grown(z0, e0, bl0, z, e, bl)
    ensures bl0 <= bl
  { }

  /** Input and output have changed exactly if one got shorter or the other longer. */
  lemma Moved(f0: seq<byte>, x0: seq<byte>, n0: seq<byte>, a0: nat, f: seq<byte>, x: seq<byte>, n: seq<byte>, a: nat)
    requires f + x == f0 + x0 && |x| <= |x0| && HandedOut(n0, a0, n, a)
    ensures x != x0 <==> |x| < |x0|
    ensures a <= a0 && (n != n0 <==> a < a0)
  {
    if |x| == |x0| {
      assert |f| == |f0|;
      assert x == (f + x)[|f|..] == (f0 + x0)[|f0|..] == x0;
    }
    if a == a0 { assert n == n0; }
  }

  /** The stream and its blocks, before and after: nothing is taken back, and the end of the stream adds to it. */
  ghost predicate Grown(z0: seq<byte>, e0: bool, bl0: seq<Sent>, z: seq<byte>, e: bool, bl: seq<Sent>) {
    z0 <= z && bl0 <= bl && (e0 ==> e && z == z0) && (e && !e0 ==> z0 < z)
  }

  /** Blocks sent since then have at least `full` bytes, except the one that ends the stream. */
  ghost predicate FullBlocks(full: int, bl0: seq<Sent>, e0: bool, bl: seq<Sent>, e: bool) {
    && (e0 ==> e && bl == bl0)
    && forall i :: |bl0| <= i < (if e then |bl| - 1 else |bl|) ==> |bl[i].block| >= full
  }

  lemma FullNothing(full: int, bl: seq<Sent>, e: bool)
    ensures FullBlocks(full, bl, e, bl, e)
  { }

  lemma FullNow(full: int, bl0: seq<Sent>, bl: seq<Sent>, nblock: nat, e: bool)
    requires Grows(bl0, bl, nblock) && full > 0
    ensures e || nblock >= full ==> FullBlocks(full, bl0, false, bl, e)
  { }

  lemma FullMore(full: int, bl0: seq<Sent>, e0: bool, bl1: seq<Sent>, e1: bool, z1: seq<byte>,
                 bl: seq<Sent>, e: bool, z: seq<byte>)
    requires FullBlocks(full, bl0, e0, bl1, e1) && FullBlocks(full, bl1, e1, bl, e) && Grown(z1, e1, bl1, z, e, bl)
    ensures FullBlocks(full, bl0, e0, bl, e)
  { }

  lemma GrownNothing(z: seq<byte>, e: bool, bl: seq<Sent>)
    ensures Grown(z, e, bl, z, e, bl)
  { }

  lemma GrownMore(z0: seq<byte>, e0: bool, bl0: seq<Sent>, z1: seq<byte>, e1: bool, bl1: seq<Sent>, z: seq<byte>,
                  e: bool, bl: seq<Sent>)
    requires Grown(z0, e0, bl0, z1, e1, bl1) && Grown(z1, e1, bl1, z, e, bl)
    ensures Grown(z0, e0, bl0, z, e, bl)
  { }

  /** Output has moved from the room left to what has been handed out. */
  ghost predicate HandedOut(n0: seq<byte>, a0: nat, n: seq<byte>, a: nat) {
    n0 <= n && a <= a0 && |n| + a == |n0| + a0
  }

  lemma HandedNothing(n: seq<byte>, a: nat)
    ensures HandedOut(n, a, n, a)
  { }

  lemma HandedMore(n0: seq<byte>, a0: nat, n1: seq<byte>, a1: nat, n: seq<byte>, a: nat)
    requires HandedOut(n0, a0, n1, a1) && HandedOut(n1, a1, n, a)
    ensures HandedOut(n0, a0, n, a) && a <= a1 <= a0
  { }

  /** BZ2_bzCompressInit: the memory first. */
  method Allocate(n: nat, crcTable: seq<u32>) returns (buf: Buffer, w: BitWriter, sp: Space)
    requires |crcTable| == 256
    ensures fresh(buf) && fresh(buf.block) && fresh(buf.inUse) && fresh(w) && fresh(w.mark) && fresh(sp)
    ensures fresh(sp.ptr) && fresh(sp.eclass) && fresh(sp.bhtab) && fresh(sp.quadrant) && fresh(sp.ftab) &&
        fresh(sp.unseqToSeq) && fresh(sp.mtfFreq)
    ensures buf.Shape() && buf.crcTable == crcTable && buf.block.Length == n + 34 &&
        buf.stateInCh == NO_CHAR && buf.stateInLen == 0
    ensures w.Valid() && w.Out() == [] && w.zbits == [] && sp.Shape(n)
    ensures Apart(buf, sp)
  {
    hide BitWriter.Valid, BitWriter.Out;
    buf := new Buffer(n + MainOrder.N_OVERSHOOT, crcTable);
    w := new BitWriter();
    sp := new Space(n);
  }

  method BzCompressInit(strm: Stream, blockSize100k: nat, workFactor: int, crcTable: seq<u32>)
    returns (ok: bool, s: Compressor)
    requires |crcTable| == 256
    ensures fresh(s) && (ok <==> 1 <= blockSize100k <= 9 && 0 <= workFactor <= 250)
    ensures ok ==>
        s.Valid() && s.Between() && s.mode == Running && s.fed == [] && s.done == [] && s.out0 == strm.nextOut
    ensures ok ==> s.strm == strm && s.blockSize100k == blockSize100k && (workFactor > 0 ==> s.workFactor == workFactor)
    ensures ok ==> s.buf.crcTable == crcTable && fresh(s.Repr())
  {
    hide Compressor.Valid, BitWriter.Valid, BitWriter.Out;
    ok := 1 <= blockSize100k <= 9 && 0 <= workFactor <= 250;
    var buf, w, sp := Allocate(if ok then 100000 * blockSize100k else 0, crcTable);
    s := new Compressor(strm, blockSize100k, if workFactor == 0 then 30 else workFactor, buf, w, sp);
    if ok { s.Start(); }
  }

  /** The block is not where the sorter works. */
  ghost predicate Apart(buf: Buffer, sp: Space) {
    && sp.unseqToSeq != buf.block && buf.block != sp.ptr as object && buf.block != sp.eclass as object
    && buf.block != sp.bhtab as object
    && buf.block != sp.quadrant as object && buf.block != sp.ftab as object && buf.inUse != sp.bhtab
  }

  lemma Kept(floor: seq<byte>, z: seq<byte>)
    requires floor <= z
    ensures z[..|floor|] == floor
  {
  }

  lemma Reassociate(a: seq<byte>, b: seq<byte>, c: seq<byte>)
    ensures a + b + c == a + b + [] + c
  {
  }

  lemma AddNothing(a: seq<byte>)
    ensures a + [] == a
  {
  }

  lemma JoinsNow(buf: Buffer)
    requires buf.Valid()
    ensures Joins(buf.runs, buf.stateInCh, buf.stateInLen) && Joins([], buf.stateInCh, buf.stateInLen)
    ensures buf.stateInCh == NO_CHAR ==> buf.stateInLen == 0
  {
  }

  /** A block with something in it has runs. */
  lemma FullBlock(buf: Buffer)
    requires buf.Valid()
    ensures buf.nblock > 0 ==> buf.runs != []
    ensures Joins([], buf.stateInCh, buf.stateInLen)
  {
    assert Encode([]) == [];
  }

  lemma AccountedFrom(a: seq<byte>, b: seq<byte>, c: seq<byte>)
    ensures a + b + c == a + (b + c)
  {
  }

  lemma OneMore(f: seq<byte>, x: seq<byte>)
    requires x != []
    ensures f + [x[0]] + x[1..] == f + x
  {
  }

  lemma Deliver(o: seq<byte>, z: seq<byte>, n: nat)
    requires n < |z|
    ensures o + z[..n] + [z[n]] == o + z[..n + 1]
  {
    assert z[..n + 1] == z[..n] + [z[n]];
  }

  lemma EmptyBlock(buf: Buffer)
    requires buf.Valid() && buf.nblock == 0
    ensures buf.plain == []
  {
    hide ValidRuns, Encode, Marks, CrcOf;
    assert buf.block[..0] == [];
    if buf.runs != [] {
      EncodeHead(buf.runs);
    }
  }

  lemma TrailerGrows(crc: nat, pad: seq<bool>)
    ensures TrailerBits(crc, []) + pad == TrailerBits(crc, pad)
  {
    BlockTail.BytesTail(TrailerBytes(crc), [], pad);
    Nothing(pad);
  }

  lemma OutSize(w: BitWriter)
    requires w.Valid()
    ensures 8 * |w.zbits| <= |w.Out()| <= 8 * |w.zbits| + 32
  {
  }

  lemma Nothing(s: seq<bool>)
    ensures [] + s == s && s + [] == s
  {
  }
}
