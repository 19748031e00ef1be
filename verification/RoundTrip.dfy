/** From end to end: what BZ2_bzCompress writes, BZ2_bzDecompress turns back into what was taken in, for
    every way of cutting the input and the output of either into pieces. */
module RoundTrip {
  import opened Rotations
  import opened Power
  import opened Bits
  import opened BitIO
  import opened BlockCheck
  import opened OutputStage
  import opened BlockFormat
  import opened BlockParts
  import opened Decompress
  import opened BzDecompress
  import opened CompressBlock
  import opened BzCompress

  // ----- The stream header -----

  /** BZ_X_MAGIC_1 to BZ_X_MAGIC_4: four bytes, with a stop before each. */
  class Opener {
    const r: BitReader
    var got: nat
    var blockSize100k: nat

    constructor (r: BitReader)
      ensures this.r == r && got == 0
    {
      this.r := r;
      got, blockSize100k := 0, 0;
    }

    ghost predicate Valid(k: nat, rest: seq<bool>, future: seq<bool>)
      reads this, r
    {
      && 1 <= k <= 9 && got <= 4 && r.Valid() && r.Unread() + future == BytesThen(StreamHeader(k)[got..], rest)
      && (got == 4 ==> blockSize100k == k)
    }

    method Supply(chunk: seq<byte>, ghost k: nat, ghost rest: seq<bool>, ghost future: seq<bool>,
                  ghost later: seq<bool>)
      requires Valid(k, rest, future) && future == BytesBits(chunk) + later
      modifies r
      ensures Valid(k, rest, later)
    {
      hide BytesBits, BitsOf, BytesThen;
      BytesBitsConcat(r.input, chunk);
      ghost var a, b := BitsOf(r.bsBuff, r.bsLive), BytesBits(r.input);
      assert a + b + (BytesBits(chunk) + later) == a + (b + BytesBits(chunk)) + later;
      r.input := r.input + chunk;
    }

    lemma Opened(k: nat, rest: seq<bool>, future: seq<bool>)
      requires Valid(k, rest, future) && got == 4
      ensures blockSize100k == k && r.Valid() && r.Unread() + future == rest
    {
      assert StreamHeader(k)[4..] == [];
    }

    /** One byte of the header, checked. */
    method ReadByte(ghost k: nat, ghost rest: seq<bool>, ghost future: seq<bool>) returns (ok: bool, more: bool)
      requires Valid(k, rest, future) && got < 4
      modifies this, r
      ensures ok && Valid(k, rest, future)
      ensures more ==> got == old(got) + 1
      ensures !more ==> got == old(got) && r.input == [] && future != []
    {
      hide BitReader.Unread, BitReader.Valid, BitsOf, Pow2, BytesThen, Got;
      ghost var before := r.Unread();
      ghost var h: seq<byte> := StreamHeader(k)[got..];
      assert h[1..] == StreamHeader(k)[got + 1..];
      var v;
      more, v := r.GetBits(8);
      ok := true;
      HeadLength(StreamHeader(k), got, rest);
      if !more { return; }
      Splits(before, v, 8, r.Unread(), future);
      GotByte(before + future, v, r.Unread() + future, h, rest);
      if got == 0 && v != 0x42 { return false, false; }
      if got == 1 && v != 0x5a { return false, false; }
      if got == 2 && v != 0x68 { return false, false; }
      if got == 3 {
        if v < 0x31 || v > 0x39 { return false, false; }
        blockSize100k := v - 0x30;
      }
      got := got + 1;
    }

    /** All four, or as many as there are. */
    method Open(ghost k: nat, ghost rest: seq<bool>, ghost future: seq<bool>) returns (ok: bool)
      requires Valid(k, rest, future)
      modifies this, r
      ensures ok && Valid(k, rest, future) && (got == 4 || (r.input == [] && future != []))
    {
      assert got <= 4;
      hide Valid;
      while got < 4
        invariant Valid(k, rest, future) && got <= 4
        decreases 4 - got
      {
        var more;
        ok, more := ReadByte(k, rest, future);
        if !ok || !more { return; }
      }
      ok := true;
    }
  }

  // ----- Decoding by a schedule of calls -----

  /** One call of BZ2_bzDecompress: what the caller adds to the input, and the room it gives. */
  datatype Call = Call(chunk: seq<byte>, room: nat)

  ghost function Supplied(calls: seq<Call>): seq<byte> {
    if calls == [] then [] else calls[0].chunk + Supplied(calls[1..])
  }

  lemma SuppliedBits(calls: seq<Call>, i: nat)
    requires i < |calls|
    ensures BytesBits(Supplied(calls[i..])) == BytesBits(calls[i].chunk) + BytesBits(Supplied(calls[i + 1..]))
  {
    hide BytesBits;
    assert calls[i..][1..] == calls[i + 1..];
    BytesBitsConcat(calls[i].chunk, Supplied(calls[i + 1..]));
  }

  /** A stream as the compressor leaves it. */
  ghost predicate WholeStream(z: seq<bool>, table: seq<u32>, k: nat, done: seq<Sent>, crc: u32, pad: seq<bool>) {
    && 1 <= k <= 9 && GoodBlocks(table, k, done) && ValidImages(done) && crc == Combined(table, done, |done|)
    && z == StreamSoFar(k, done, TrailerBits(crc, pad))
  }

  /** After the header the parser finds the blocks. */
  lemma HeaderThenBlocks(z: seq<bool>, table: seq<u32>, k: nat, done: seq<Sent>, crc: u32, pad: seq<bool>, c: Context)
    requires WholeStream(z, table, k, done, crc, pad)
    requires c == Context(done, k, crc, pad, 0, c.im, c.tail)
    ensures z == BytesThen(StreamHeader(k), BlocksFrom(done, 0, TrailerBits(crc, pad)))
    ensures BetweenBlocks(c, BlocksFrom(done, 0, TrailerBits(crc, pad))) && Checked(table, done, crc)
  {
    hide ValidBlocks, BlockCrc, Combined, BlocksFrom;
  }

  /** The decompressor for what follows the header. */
  method Begin(r: BitReader, strm: OutStream, small: bool, table: seq<u32>, blockSize100k: nat, ghost c: Context,
               ghost future: seq<bool>)
    returns (z: BzDecompressor)
    requires 1 <= blockSize100k <= 9 && |table| == 256 && r.Valid() && c.blockSize100k == blockSize100k && c.no == 0
    requires BetweenBlocks(c, r.Unread() + future) && Checked(table, c.bl, c.crc)
    ensures fresh(z) && fresh(z.p) && fresh(z.p.Footprint()) && z.p.r == r && z.p.strm == strm
    ensures z.Valid(future) && z.start == strm.written && z.p.c == c && z.p.d.crcTable == table &&
        z.p.state == BlkHdr(1)
  {
    hide BetweenBlocks, Checked, BitReader.Unread, BitReader.Valid;
    var p := new Decompressor(r, strm, small, blockSize100k, table, c);
    z := new BzDecompressor(p);
    Fresh(z, future);
  }

  lemma Fresh(z: BzDecompressor, future: seq<bool>)
    requires z.p.Shape() && z.p.r.Valid() && z.p.state == BlkHdr(1) && z.p.c.no == 0 && z.calculatedCombinedCRC == 0
    requires z.start == z.p.strm.written && z.p.c.blockSize100k == z.p.d.blockSize100k
    requires BetweenBlocks(z.p.c, z.p.r.Unread() + future) && Checked(z.p.d.crcTable, z.p.c.bl, z.p.c.crc)
    ensures z.Valid(future)
  {
    hide BetweenBlocks, BitReader.Unread, BitReader.Valid, Decompressor.Shape;
    assert z.start + [] == z.start;
  }

  /** The room given from call `i` on. */
  ghost function Room(calls: seq<Call>, i: nat): nat
    decreases |calls| - i
  {
    if i >= |calls| then 0 else calls[i].room + Room(calls, i + 1)
  }

  /** The room given from call `i` on by the calls that have the whole stream: the one that completes it, and
      those after it. */
  ghost function RoomAtEnd(calls: seq<Call>, i: nat): nat
    decreases |calls| - i
  {
    if i >= |calls| then 0
    else (if Supplied(calls[i + 1..]) == [] then calls[i].room else 0) + RoomAtEnd(calls, i + 1)
  }

  /** If the first call has the whole stream, all of them do. */
  lemma {:induction false} AtOnce(calls: seq<Call>, i: nat)
    requires i < |calls| && Supplied(calls[i + 1..]) == []
    ensures RoomAtEnd(calls, i) == Room(calls, i)
    decreases |calls| - i
  {
    if i + 1 < |calls| {
      assert calls[i + 1..][1..] == calls[i + 2..];
      AtOnce(calls, i + 1);
    }
  }

  lemma AllSupplied(calls: seq<Call>)
    ensures Supplied(calls[|calls|..]) == [] && BytesBits(Supplied(calls[|calls|..])) == [] && calls[0..] == calls
  {
  }

  /** Any schedule of calls that supplies the whole stream: no call reports an error; what has been delivered
      is the front of what the blocks stand for, all of it exactly if the calls came to the end of the stream;
      and that depends on nothing but the room they gave. */
  method Replay(calls: seq<Call>, small: bool, table: seq<u32>, ghost k: nat, ghost done: seq<Sent>, ghost crc: u32,
                ghost pad: seq<bool>)
    returns (plain: seq<byte>, ok: bool, ended: bool)
    requires WholeStream(BytesBits(Supplied(calls)), table, k, done, crc, pad)
    ensures ok && plain <= Plain(done, |done|) && (ended <==> plain == Plain(done, |done|))
    ensures |plain| <= Room(calls, 0)
    ensures RoomAtEnd(calls, 0) >= |Plain(done, |done|)| ==> ended
    ensures !ended ==> RoomAtEnd(calls, 0) <= |plain|
  {
    hide BytesThen, BytesBits, Blocks, BetweenBlocks, Checked, Plain, Supplied, Opening, Going, Room, RoomAtEnd;
    var r := new BitReader([]);
    var strm := new OutStream(0);
    var o := new Opener(r);
    ghost var c := Context(done, k, crc, pad, 0, Image(0, 0, [], 0, [], [], []), []);
    AllSupplied(calls);
    OpenerStarts(o, strm, BytesBits(Supplied(calls)), table, k, done, crc, pad, c);
    hide WholeStream;
    var z: BzDecompressor? := null;
    var i := 0;
    while i < |calls| && z == null
      invariant i <= |calls| && fresh(r) && fresh(strm) && fresh(o) && o.r == r
      invariant z == null ==> Opening(o, strm, k, c, BytesBits(Supplied(calls[i..])))
      invariant z == null ==> Room(calls, i) <= Room(calls, 0) && RoomAtEnd(calls, 0) <= RoomAtEnd(calls, i)
      invariant z != null ==>
          0 < i && fresh(z) && fresh(z.p) && fresh(z.p.Footprint()) && z.p.r == r && z.p.strm == strm &&
              z.p.c.bl == done
      invariant z != null ==>
          z.Valid(BytesBits(Supplied(calls[i..]))) && z.p.state != Idle && z.start == strm.written == []
      invariant z != null ==>
          strm.availOut == calls[i - 1].room && Room(calls, i - 1) <= Room(calls, 0) &&
              RoomAtEnd(calls, 0) <= RoomAtEnd(calls, i - 1)
    {
      ghost var future, later := BytesBits(Supplied(calls[i..])), BytesBits(Supplied(calls[i + 1..]));
      SuppliedBits(calls, i);
      RoomStep(calls, i);
      z, ok := OpeningCall(o, strm, calls[i], small, table, k, c, future, later);
      if z == null { StillOpening(o, strm, k, c, later); }
      i := i + 1;
    }
    if z == null { StillOpening(o, strm, k, c, BytesBits(Supplied(calls[|calls|..]))); }
    ok, ended := DeliverRest(z, calls, i, done);
    plain := strm.written;
  }

  /** The calls from the one on that has come to the end of the header. */
  method DeliverRest(z: BzDecompressor, calls: seq<Call>, from: nat, ghost done: seq<Sent>)
    returns (ok: bool, ended: bool)
    requires 0 < from <= |calls| && z.Valid(BytesBits(Supplied(calls[from..]))) && z.p.state != Idle && z.start == [] &&
        z.p.c.bl == done
    requires z.p.strm.written == [] && z.p.strm.availOut == calls[from - 1].room
    modifies z, z.p, z.p.r, z.p.strm, z.p.Footprint()
    ensures ok && z.p.strm.written <= Plain(done, |done|) && (ended <==> z.p.strm.written == Plain(done, |done|))
    ensures |z.p.strm.written| <= Room(calls, from - 1)
    ensures RoomAtEnd(calls, from - 1) >= |Plain(done, |done|)| ==> ended
    ensures !ended ==> RoomAtEnd(calls, from - 1) <= |z.p.strm.written|
  {
    hide BytesBits, Plain, Supplied, Going, Room, RoomAtEnd, BzDecompressor.Valid;
    ghost var strm := z.p.strm;
    RoomStep(calls, from - 1);
    ok, ended := RunCall(z, done, BytesBits(Supplied(calls[from..])));
    var i := from;
    while i < |calls| && !ended
      invariant from <= i <= |calls| && ok
      invariant !ended ==> Going(z, done, BytesBits(Supplied(calls[i..])))
      invariant ended ==> strm.written == Plain(done, |done|)
      invariant |strm.written| + Room(calls, i) <= Room(calls, from - 1)
      invariant !ended ==> RoomAtEnd(calls, from - 1) <= |strm.written| + RoomAtEnd(calls, i)
    {
      ghost var future, later := BytesBits(Supplied(calls[i..])), BytesBits(Supplied(calls[i + 1..]));
      SuppliedBits(calls, i);
      RoomStep(calls, i);
      GoingOn(z, done, future);
      z.Supply(calls[i].chunk, calls[i].room, future, later);
      ok, ended := RunCall(z, done, later);
      i := i + 1;
    }
    RoomNone(calls);
    AllSupplied(calls);
    if !ended { GoingOn(z, done, BytesBits(Supplied(calls[|calls|..]))); }
  }

  lemma RoomStep(calls: seq<Call>, i: nat)
    requires i < |calls|
    ensures Room(calls, i) == calls[i].room + Room(calls, i + 1)
    ensures RoomAtEnd(calls, i) ==
        (if Supplied(calls[i + 1..]) == [] then calls[i].room else 0) + RoomAtEnd(calls, i + 1)
    ensures BytesBits(Supplied(calls[i + 1..])) == [] <==> Supplied(calls[i + 1..]) == []
  {
    hide Supplied, BitsOf;
  }

  lemma RoomNone(calls: seq<Call>)
    ensures Room(calls, |calls|) == 0 && RoomAtEnd(calls, |calls|) == 0
  { }

  /** The header is being read. */
  ghost predicate Opening(o: Opener, strm: OutStream, k: nat, c: Context, future: seq<bool>)
    reads o, o.r, strm`written
  {
    o.got < 4 && o.Valid(k, Blocks(c), future) && strm.written == [] && future != []
  }

  /** Blocks are being read and delivered; there is more to come, of the stream or of its blocks. */
  ghost predicate Going(z: BzDecompressor, done: seq<Sent>, future: seq<bool>)
    reads z, z.p, z.p.r, z.p.strm`written, z.p.Footprint()
  {
    z.start == [] && z.p.c.bl == done && z.Valid(future) && z.p.state != Idle && z.p.strm.written <= Plain(done, |done|)
    && (future == [] ==> z.p.strm.written < Plain(done, |done|))
  }

  lemma GoingOn(z: BzDecompressor, done: seq<Sent>, future: seq<bool>)
    requires Going(z, done, future)
    ensures z.start == [] && z.p.c.bl == done && z.Valid(future) && z.p.state != Idle &&
        z.p.strm.written <= Plain(done, |done|)
    ensures future == [] ==> z.p.strm.written < Plain(done, |done|)
  {
    hide BzDecompressor.Valid, Plain;
  }

  lemma StillOpening(o: Opener, strm: OutStream, k: nat, c: Context, future: seq<bool>)
    requires Opening(o, strm, k, c, future)
    ensures future != [] && strm.written == []
  {
  }

  /** One call of BZ2_bzDecompress once the header is read. */
  method RunCall(z: BzDecompressor, ghost done: seq<Sent>, ghost future: seq<bool>) returns (ok: bool, ended: bool)
    requires z.Valid(future) && z.p.state != Idle && z.start == [] && z.p.c.bl == done
    modifies z, z.p, z.p.r, z.p.strm, z.p.Footprint()
    ensures ok && (ended ==> z.p.strm.written == Plain(done, |done|))
    ensures !ended ==> Going(z, done, future) && (future == [] ==> z.p.strm.availOut == 0)
    ensures |z.p.strm.written| + z.p.strm.availOut == old(|z.p.strm.written| + z.p.strm.availOut)
    ensures z.p.strm.availOut <= old(z.p.strm.availOut)
  {
    hide BzDecompressor.Valid, Plain;
    var ret := z.Decompress(future);
    ok, ended := ret == Ok || ret == AtStreamEnd, ret == AtStreamEnd;
    assert [] + Plain(done, |done|) == Plain(done, |done|);
  }

  lemma OpenerStarts(o: Opener, strm: OutStream, z: seq<bool>, table: seq<u32>, k: nat, done: seq<Sent>, crc: u32,
                     pad: seq<bool>, c: Context)
    requires WholeStream(z, table, k, done, crc, pad) && o.got == 0 && o.r.Valid() && o.r.Unread() == [] &&
        strm.written == []
    requires c == Context(done, k, crc, pad, 0, c.im, c.tail)
    ensures Opening(o, strm, k, c, z) && 1 <= k <= 9 && |table| == 256
    ensures BetweenBlocks(c, Blocks(c)) && Checked(table, done, crc)
  {
    HeaderThenBlocks(z, table, k, done, crc, pad, c);
    hide BytesThen, BlocksFrom, BetweenBlocks, Checked, GoodBlocks, Combined, BitReader.Unread;
    assert StreamHeader(k)[0..] == StreamHeader(k);
    assert [] + z == z;
    HeadLength(StreamHeader(k), 0, BlocksFrom(done, 0, TrailerBits(crc, pad)));
  }

  /** A call while the header is still being read. */
  method OpeningCall(o: Opener, strm: OutStream, call: Call, small: bool, table: seq<u32>, ghost k: nat,
                     ghost c: Context,
                     ghost future: seq<bool>, ghost later: seq<bool>)
    returns (z: BzDecompressor?, ok: bool)
    requires future == BytesBits(call.chunk) + later && 1 <= k <= 9 && |table| == 256 && c.blockSize100k == k &&
        c.no == 0
    requires Opening(o, strm, k, c, future) && BetweenBlocks(c, Blocks(c)) && Checked(table, c.bl, c.crc)
    modifies o, o.r, strm`availOut
    ensures ok && (z == null ==> Opening(o, strm, k, c, later))
    ensures strm.availOut == call.room && strm.written == []
    ensures z != null ==> fresh(z) && fresh(z.p) && fresh(z.p.Footprint()) && z.p.r == o.r && z.p.strm == strm
    ensures z != null ==> z.Valid(later) && z.p.state != Idle && z.start == [] && z.p.c.bl == c.bl
  {
    hide BytesThen, BytesBits, BetweenBlocks, Checked, Blocks;
    o.Supply(call.chunk, k, Blocks(c), future, later);
    strm.availOut := call.room;
    ok := o.Open(k, Blocks(c), later);
    if o.got < 4 { return null, ok; }
    o.Opened(k, Blocks(c), later);
    z := Begin(o.r, strm, small, table, o.blockSize100k, c, later);
  }

  ghost function Blocks(c: Context): seq<bool> {
    if ValidImages(c.bl) then BlocksFrom(c.bl, 0, TrailerBits(c.crc, c.pad)) else []
  }

  // ----- End to end -----

  lemma EndedStream(s: Compressor)
    requires s.Valid() && s.ended
    ensures WholeStream(BytesBits(s.w.zbits), s.buf.crcTable, s.blockSize100k, s.done, s.combinedCRC, s.pad)
    ensures s.fed == Plain(s.done, |s.done|)
  {
    hide GoodBlocks, ValidImages, StreamSoFar, BytesBits, Plain, Combined;
    assert s.buf.Pending() == [];
    AddNothing(Plain(s.done, |s.done|));
    AddNothing(Plain(s.done, |s.done|) + []);
  }

  /** Whatever went into a compressor, in whatever pieces, comes out of the decompressor, in whatever
      pieces the finished stream is fed to it and its output is fetched: never anything else, all of it exactly
      if the end of the stream is reported, and that is reported as soon as the calls that have the whole
      stream have given room for it. */
  method RoundTrip(s: Compressor, calls: seq<Call>, small: bool) returns (plain: seq<byte>, ok: bool, ended: bool)
    requires s.Valid() && s.ended && Supplied(calls) == s.w.zbits
    ensures ok && plain <= s.fed && (ended <==> plain == s.fed)
    ensures |plain| <= Room(calls, 0)
    ensures RoomAtEnd(calls, 0) >= |s.fed| ==> ended
    ensures !ended ==> RoomAtEnd(calls, 0) <= |plain|
  {
    hide Compressor.Valid, WholeStream, BytesBits, Plain, Room, RoomAtEnd;
    EndedStream(s);
    plain, ok, ended := Replay(calls, small, s.buf.crcTable, s.blockSize100k, s.done, s.combinedCRC, s.pad);
  }
}
