/** BZ2_bzDecompress (bzlib.c): parse a block, deliver its bytes, check it, and so on to the end of the
    stream, with any amount of input and of output room in each call. */
module BzDecompress {
  import opened Rotations
  import opened Permutations
  import opened Bwt
  import opened Bits
  import opened BitIO
  import opened RunLength
  import opened OutputStage
  import opened BlockCheck
  import opened BlockFormat
  import opened Decompress

  // ----- Check values -----

  /** The check value of a block: the CRC of the bytes it stands for, complemented at the end. */
  ghost function BlockCrc(table: seq<u32>, plain: seq<byte>): u32
    requires |table| == 256
  {
    Finalise(CrcOf(table, CRC_INIT, plain))
  }

  /** The bytes a block stands for. */
  ghost function PlainOf(s: Sent): (r: seq<byte>) {
    if WellFormed(s.block, 0) && AllBytes(UnRle(s.block, 0)) then AsBytes(UnRle(s.block, 0)) else []
  }

  ghost predicate AllBytes(s: seq<int>) {
    forall i :: 0 <= i < |s| ==> 0 <= s[i] < 256
  }

  ghost function AsBytes(s: seq<int>): (r: seq<byte>)
    requires AllBytes(s)
    ensures r == s
  {
    seq(|s|, i requires 0 <= i < |s| => s[i] as byte)
  }

  /** The bytes of the first `n` blocks. */
  ghost function Plain(bl: seq<Sent>, n: nat): seq<byte>
    requires n <= |bl|
  {
    if n == 0 then [] else Plain(bl, n - 1) + PlainOf(bl[n - 1])
  }

  ghost function Combined(table: seq<u32>, bl: seq<Sent>, n: nat): u32
    requires |table| == 256 && n <= |bl|
  {
    if n == 0 then 0 else Combine(Combined(table, bl, n - 1), BlockCrc(table, PlainOf(bl[n - 1])))
  }

  /** Every block carries its check value, and the trailer that of all of them. */
  ghost predicate Checked(table: seq<u32>, bl: seq<Sent>, crc: nat) {
    && |table| == 256 && crc == Combined(table, bl, |bl|)
    && forall i :: 0 <= i < |bl| ==> bl[i].im.crc == BlockCrc(table, PlainOf(bl[i]))
  }

  // ----- The decompressor -----

  datatype Result = Ok | AtStreamEnd | BadData | SequenceError

  class BzDecompressor {
    const p: Decompressor
    var calculatedCombinedCRC: u32
    /** What the caller's buffer held before this stream. */
    ghost const start: seq<byte>

    constructor (p: Decompressor)
      requires p.state == BlkHdr(1) && p.c.no == 0
      ensures this.p == p && start == p.strm.written && calculatedCombinedCRC == 0
    {
      this.p := p;
      start := p.strm.written;
      calculatedCombinedCRC := 0;
    }

    /** The stream's check values are right, and so is the one computed so far. */
    ghost predicate Sound()
      reads this, p
    {
      && p.Shape() && Checked(p.d.crcTable, p.c.bl, p.c.crc) && p.c.no <= |p.c.bl|
      && p.c.blockSize100k == p.d.blockSize100k
      && calculatedCombinedCRC == Combined(p.d.crcTable, p.c.bl, p.c.no)
    }

    /** So far the caller has got the bytes of the blocks before this one, and what this one has
        delivered. */
    ghost predicate Valid(future: seq<bool>)
      reads this, p, p.r, p.strm`written, p.Footprint()
    {
      && Sound() && p.r.Valid()
      && (if p.state == Output then
            p.Delivering(p.r.Unread() + future) && p.d.base == start + Plain(p.c.bl, p.c.no)
          else
            p.Phase(p.r.Unread() + future) && p.strm.written == start + Plain(p.c.bl, p.c.no))
    }

    /** Deliver what fits, and when the block is complete check it. */
    method DeliverBlock(ghost future: seq<bool>) returns (ok: bool, done: bool)
      requires Valid(future) && p.state == Output
      modifies this, p, p.d, p.strm
      ensures ok && Valid(future) && p.c.bl == old(p.c.bl)
      ensures |p.strm.written| + p.strm.availOut == old(|p.strm.written| + p.strm.availOut) &&
          p.strm.availOut <= old(p.strm.availOut)
      ensures done ==> p.state == BlkHdr(1)
      ensures !done ==> p.state == Output && p.strm.availOut == 0 && p.strm.written < start + Plain(p.c.bl, |p.c.bl|)
    {
      hide Valid, WellFormed, UnRle, Plain;
      var corrupt;
      corrupt, done := StepOutput(future);
      if corrupt { return false, false; }
      ok := true;
      if done { ok := EndOfBlock(future); }
    }

    /** The whole block is out. */
    method EndOfBlock(ghost future: seq<bool>) returns (ok: bool)
      requires Valid(future) && p.state == Output && WellFormed(p.d.src.blk, 0) &&
          p.d.delivered == UnRle(p.d.src.blk, 0)
      modifies `calculatedCombinedCRC, p`state, p`c
      ensures ok && Valid(future) && p.c.bl == old(p.c.bl) && p.state == BlkHdr(1)
    {
      hide Valid, Sound, WellFormed, UnRle, Plain, Decompressor.Delivering, Decompressor.Phase, BitReader.Unread;
      hide BitReader.Valid, Decompressor.Shape;
      ValidParts(future);
      ok := FinishBlock(p.r.Unread() + future);
      FinishedValid(future);
    }

    /** The output stage, within a block. */
    method StepOutput(ghost future: seq<bool>) returns (corrupt: bool, done: bool)
      requires Valid(future) && p.state == Output
      modifies p.d, p.strm
      ensures Valid(future) && !corrupt && WellFormed(p.d.src.blk, 0)
      ensures |p.strm.written| + p.strm.availOut == old(|p.strm.written| + p.strm.availOut) &&
          p.strm.availOut <= old(p.strm.availOut)
      ensures !done ==> p.strm.availOut == 0 && p.strm.written < start + Plain(p.c.bl, |p.c.bl|)
      ensures done ==> p.d.delivered == UnRle(p.d.src.blk, 0)
    {
      hide Current, BitReader.Unread, BitReader.Valid, UnRle, DState.Valid, DState.Accounted, Checked, Combined, Plain;
      hide WellFormed;
      ghost var todo := p.r.Unread() + future;
      DeliveringFacts(p, todo);
      WrittenIs(p.d, p.strm);
      corrupt, done := p.d.UnRleToOutput(p.strm);
      WrittenIs(p.d, p.strm);
      if !done { FrontOfAll(p.c, start, p.d.delivered, p.strm.written); }
    }

    lemma FinishedValid(future: seq<bool>)
      requires Sound() && p.r.Valid() && p.state == BlkHdr(1) && p.Phase(p.r.Unread() + future) &&
          p.strm.written == start + Plain(p.c.bl, p.c.no)
      ensures Valid(future)
    {
      hide Sound, Decompressor.Phase, Plain, BitReader.Unread, BitReader.Valid;
    }

    /** Where delivery stands. */
    lemma ValidParts(future: seq<bool>)
      requires Valid(future)
      ensures Sound() && p.r.Valid() && p.Shape() && p.c.no <= |p.c.bl|
      ensures p.state == Output ==> p.Delivering(p.r.Unread() + future) && p.d.base == start + Plain(p.c.bl, p.c.no)
      ensures p.state != Output ==> p.strm.written == start + Plain(p.c.bl, p.c.no)
    {
      hide Plain, Decompressor.Phase, Decompressor.Delivering, BitReader.Unread, BitReader.Valid, Checked, Combined;
      hide Decompressor.Shape;
    }

    /** What has been delivered is the front of what the blocks stand for. */
    lemma WrittenSoFar(future: seq<bool>)
      requires Valid(future)
      ensures p.strm.written <= start + Plain(p.c.bl, |p.c.bl|)
    {
      hide Valid, Plain, Decompressor.Phase, DState.Valid, UnRle, BitReader.Unread, BitReader.Valid;
      hide Decompressor.Shape, PlainOf, Decompressor.Delivering, WellFormed, DState.Accounted, Current;
      ValidParts(future);
      if p.state == Output {
        DeliveringFacts(p, p.r.Unread() + future);
        WrittenIs(p.d, p.strm);
        p.d.DeliveredPrefix();
        FrontOfAll(p.c, start, p.d.delivered, p.strm.written);
      } else {
        PlainPrefix(p.c.bl, p.c.no, |p.c.bl|);
        assert start + Plain(p.c.bl, p.c.no) <= start + Plain(p.c.bl, |p.c.bl|);
      }
    }

    /** BZ_FINALISE_CRC, the comparison, and on to the next block. */
    method FinishBlock(ghost todo: seq<bool>) returns (ok: bool)
      requires Sound() && p.state == Output && p.Delivering(todo) && p.d.base == start + Plain(p.c.bl, p.c.no)
      requires WellFormed(p.d.src.blk, 0) && p.d.delivered == UnRle(p.d.src.blk, 0)
      modifies `calculatedCombinedCRC, p`state, p`c
      ensures ok && p.c.bl == old(p.c.bl) && Sound() && p.state == BlkHdr(1) && p.Phase(todo) &&
          p.strm.written == start + Plain(p.c.bl, p.c.no)
    {
      hide Current, BetweenBlocks, UnRle, WellFormed, DState.Valid, DState.Shape, DState.Accounted, Checked, Combined;
      hide Combine, Plain, CrcOf;
      hide Finalise, BlockCrc, Decompressor.Delivering;
      DeliveringFacts(p, todo);
      var crc := Finalise(p.d.calculatedBlockCRC);
      BlockFinished(p.c, p.d.crcTable, todo, p.d.delivered, crc, p.storedBlockCRC, p.d.src.blk, calculatedCombinedCRC);
      ghost var whole := start + Plain(p.c.bl, p.c.no) + p.d.delivered;
      assert whole == start + (Plain(p.c.bl, p.c.no) + p.d.delivered);
      FinalCrc(p.d, p.strm);
      if crc != p.storedBlockCRC { return false; }
      calculatedCombinedCRC := Combine(calculatedCombinedCRC, crc);
      p.state := BlkHdr(1);
      p.c := p.c.(no := p.c.no + 1);
      ok := true;
    }

    /** BZ2_bzDecompress. It comes back only for more input, for more room, or at the end of the stream;
        no check ever fails. */
    method Decompress(ghost future: seq<bool>) returns (ret: Result)
      requires Valid(future)
      modifies this, p, p.r, p.strm, p.Footprint()
      ensures Valid(future) && ret != BadData && p.c.bl == old(p.c.bl)
      ensures ret == SequenceError ==> old(p.state) == Idle
      ensures ret == Ok ==> p.state != Idle
      ensures |p.strm.written| + p.strm.availOut == old(|p.strm.written| + p.strm.availOut) &&
          p.strm.availOut <= old(p.strm.availOut)
      ensures p.strm.written <= start + Plain(p.c.bl, |p.c.bl|)
      ensures ret == Ok ==>
          (p.r.input == [] && future != []) ||
              (p.strm.availOut == 0 && p.strm.written < start + Plain(p.c.bl, |p.c.bl|))
      ensures ret == AtStreamEnd ==> p.state == Idle && p.strm.written == start + Plain(p.c.bl, |p.c.bl|)
      ensures ret == AtStreamEnd ==> p.r.Unread() + future == p.c.pad
    {
      hide Valid, Decompressor.Phase, Decompressor.Delivering, BitReader.Unread, BitReader.Valid, Plain, Checked;
      if p.state == Idle { WrittenSoFar(future); return SequenceError; }
      while true
        invariant Valid(future) && p.state != Idle && p.c.bl == old(p.c.bl)
        invariant |p.strm.written| + p.strm.availOut == old(|p.strm.written| + p.strm.availOut) &&
            p.strm.availOut <= old(p.strm.availOut)
        decreases |p.r.Unread()|, p.state == Output
      {
        if p.state == Output {
          var ok, done := DeliverBlock(future);
          if !ok { WrittenSoFar(future); return BadData; }
          if !done { return Ok; }
        }
        var out := ParseBlock(future);
        WrittenSoFar(future);
        match out
        case DataError => return BadData;
        case NeedInput => return Ok;
        case StreamEnd =>
          StreamDone(future);
          if calculatedCombinedCRC != p.storedCombinedCRC { return BadData; }
          return AtStreamEnd;
        case BlockReady =>
      }
    }

    /** BZ2_decompress, with nothing written meanwhile. */
    method ParseBlock(ghost future: seq<bool>) returns (out: Outcome)
      requires Valid(future) && p.state != Output && p.state != Idle
      modifies p, p.r, p.Footprint()
      ensures Valid(future) && out != Outcome.DataError && p.c.bl == old(p.c.bl)
      ensures out == NeedInput ==> p.r.input == [] && p.state != Output && p.state != Idle && future != []
      ensures out == BlockReady <==> p.state == Output
      ensures out == StreamEnd <==> p.state == Idle
      ensures p.state == Output ==> |p.r.Unread()| < |old(p.r.Unread())|
      ensures p.strm.written == old(p.strm.written) && p.strm.availOut == old(p.strm.availOut)
    {
      hide Decompressor.Delivering, Decompressor.AtOutput, BitReader.Unread, BitReader.Valid, Plain, Checked, Combined;
      hide Decompressor.Shape, Decompressor.Phase;
      out := p.Decompress(future);
      if out == BlockReady { NothingYet(p, p.r.Unread() + future); }
    }

    lemma StreamDone(future: seq<bool>)
      requires Valid(future) && p.state == Idle
      ensures calculatedCombinedCRC == p.storedCombinedCRC
      ensures p.strm.written == start + Plain(p.c.bl, |p.c.bl|) && p.r.Unread() + future == p.c.pad
    {
      hide BitReader.Unread, BitReader.Valid, Plain, Combined, ValidBlocks;
    }

    /** The caller supplies more of the stream, and room for more output. */
    method Supply(chunk: seq<byte>, room: nat, ghost future: seq<bool>, ghost later: seq<bool>)
      requires Valid(future) && future == BytesBits(chunk) + later
      modifies p.r, p.strm`availOut
      ensures Valid(later) && p.strm.availOut == room && p.r.input == old(p.r.input) + chunk
    {
      hide Sound, BytesBits, BitsOf, Decompressor.Phase, Decompressor.Delivering;
      BytesBitsConcat(p.r.input, chunk);
      ghost var a, b, todo := BitsOf(p.r.bsBuff, p.r.bsLive), BytesBits(p.r.input), p.r.Unread() + future;
      assert a + b + (BytesBits(chunk) + later) == a + (b + BytesBits(chunk)) + later;
      assert p.r !in p.Footprint() && p.strm !in p.Footprint();
      p.r.input := p.r.input + chunk;
      p.strm.availOut := room;
      assert p.r.Unread() + later == todo;
    }
  }

  lemma DeliveringFacts(p: Decompressor, todo: seq<bool>)
    requires p.Delivering(todo)
    ensures Current(p.c) && p.c.no < |p.c.bl| && p.storedBlockCRC == p.c.im.crc && todo == p.c.tail
    ensures |p.d.crcTable| == 256 && p.d.Accounted(p.strm) && p.d.src.blk == p.c.bl[p.c.no].block && p.d.Valid()
  {
    hide Current, DState.Valid, DState.Accounted;
    CurrentFacts(p.c);
    p.d.ValidShape();
  }

  lemma CurrentFacts(c: Context)
    requires Current(c)
    ensures c.no < |c.bl| && c.im == c.bl[c.no].im
  { hide ValidBlocks, ValidImage, BlocksFrom; }

  /** The front of the next block, behind the blocks before it, is the front of everything; the proper front a
      proper one. */
  lemma FrontOfAll(c: Context, o: seq<byte>, d: seq<byte>, written: seq<byte>)
    requires Current(c) && c.no < |c.bl| && WellFormed(c.bl[c.no].block, 0) && d <= UnRle(c.bl[c.no].block, 0)
    requires written == o + Plain(c.bl, c.no) + d
    ensures written <= o + Plain(c.bl, |c.bl|)
    ensures d < UnRle(c.bl[c.no].block, 0) ==> written < o + Plain(c.bl, |c.bl|)
  {
    hide Current, UnRle, WellFormed, Plain, PlainOf;
    BlockPlain(c);
    PlainGrows(c.bl, c.no);
    var u := PlainOf(c.bl[c.no]);
    Up(o, Plain(c.bl, c.no), d, u, Plain(c.bl, |c.bl|));
    if d < u { Beyond(o, Plain(c.bl, c.no), d, u, Plain(c.bl, |c.bl|)); }
  }

  /** A proper front of the next block, behind the blocks before it. */
  lemma Beyond(o: seq<byte>, a: seq<byte>, d: seq<byte>, u: seq<byte>, all: seq<byte>)
    requires d < u && a + u <= all
    ensures o + a + d < o + all
  {
    assert a + d < a + u;
  }

  lemma Up(o: seq<byte>, a: seq<byte>, d: seq<byte>, u: seq<byte>, all: seq<byte>)
    requires d <= u && a + u <= all
    ensures o + a + d <= o + all
  {
    assert a + d <= a + u;
  }

  lemma WrittenIs(d: DState, strm: OutStream)
    requires |d.crcTable| == 256 && d.Accounted(strm)
    ensures strm.written == d.base + d.delivered
  {
  }

  /** The bytes of a block that is being delivered. */
  lemma BlockPlain(c: Context)
    requires Current(c) && c.no < |c.bl| && WellFormed(c.bl[c.no].block, 0)
    ensures UnRle(c.bl[c.no].block, 0) == PlainOf(c.bl[c.no])
  {
    hide UnRle, WellFormed, ValidImage, SortedRotations, IsPerm, BlocksFrom;
    var b := c.bl[c.no].block;
    assert ValidSent(c.bl[c.no], c.blockSize100k);
    UnRleBytes(b, 0);
  }

  /** Undoing run lengths yields bytes of the block only. */
  lemma {:induction false} UnRleBytes(b: seq<int>, u: nat)
    requires WellFormed(b, u) && forall i :: 0 <= i < |b| ==> 0 <= b[i] < 256
    ensures AllBytes(UnRle(b, u))
    decreases |b| - u
  {
    if u < |b| {
      if FourEqual(b, u) {
        var rest := UnRle(b, u + 5);
        UnRleBytes(b, u + 5);
        assert UnRle(b, u) == Rep(b[u], b[u + 4] + 4) + rest;
      } else {
        UnRleBytes(b, u + 1);
      }
    }
  }

  lemma {:induction false} PlainPrefix(bl: seq<Sent>, m: nat, n: nat)
    requires m <= n <= |bl|
    ensures Plain(bl, m) <= Plain(bl, n)
    decreases n
  {
    hide PlainOf;
    if m < n { PlainPrefix(bl, m, n - 1); }
  }

  lemma PlainGrows(bl: seq<Sent>, no: nat)
    requires no < |bl|
    ensures Plain(bl, no) + PlainOf(bl[no]) <= Plain(bl, |bl|)
  {
    hide PlainOf;
    PlainPrefix(bl, no + 1, |bl|);
  }

  lemma NothingYet(p: Decompressor, todo: seq<bool>)
    requires p.Phase(todo) && p.state == Output
    ensures p.Delivering(todo) && p.d.base == p.strm.written
  {
    assert p.AtOutput(todo);
    DeliveringFacts(p, todo);
    assert p.d.base + [] == p.d.base;
  }

  lemma FinalCrc(d: DState, strm: OutStream)
    requires |d.crcTable| == 256 && d.Accounted(strm)
    ensures Finalise(d.calculatedBlockCRC) == BlockCrc(d.crcTable, d.delivered) && strm.written == d.base + d.delivered
  {
  }

  /** The block that has been delivered is right, and the next one is due. */
  lemma BlockFinished(c: Context, table: seq<u32>, todo: seq<bool>, delivered: seq<byte>, crc: u32, stored: nat,
                      blk: seq<int>, combined: u32)
    requires Current(c) && Checked(table, c.bl, c.crc) && todo == c.tail && c.no < |c.bl| && stored == c.im.crc
    requires blk == c.bl[c.no].block && WellFormed(blk, 0) && delivered == UnRle(blk, 0)
    requires combined == Combined(table, c.bl, c.no)
    ensures crc == BlockCrc(table, delivered) ==> crc == stored
    ensures crc == BlockCrc(table, delivered) ==> Combined(table, c.bl, c.no + 1) == Combine(combined, crc)
    ensures Plain(c.bl, c.no + 1) == Plain(c.bl, c.no) + delivered
    ensures BetweenBlocks(c.(no := c.no + 1), todo)
  {
    hide UnRle, WellFormed, ValidBlocks, BlocksFrom, CrcOf, ValidImage, Checked, BlockCrc, Combine, Finalise;
    DeliveredPlain(delivered, c.bl[c.no]);
    CheckedBlock(table, c.bl, c.crc, c.no);
  }

  lemma DeliveredPlain(delivered: seq<byte>, s: Sent)
    requires WellFormed(s.block, 0) && delivered == UnRle(s.block, 0)
    ensures PlainOf(s) == delivered
  {
    hide UnRle, WellFormed;
    assert AllBytes(UnRle(s.block, 0));
  }

  lemma CheckedBlock(table: seq<u32>, bl: seq<Sent>, crc: nat, no: nat)
    requires Checked(table, bl, crc) && no < |bl|
    ensures bl[no].im.crc == BlockCrc(table, PlainOf(bl[no]))
    ensures Combined(table, bl, no + 1) == Combine(Combined(table, bl, no), BlockCrc(table, PlainOf(bl[no])))
    ensures Plain(bl, no + 1) == Plain(bl, no) + PlainOf(bl[no])
  {
  }
}
