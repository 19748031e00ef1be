/** BZ2_bzBuffToBuffCompress and BZ2_bzBuffToBuffDecompress (bzlib.c): a whole stream in one call each way. */
module BuffToBuff {
  import opened Rotations
  import opened Bits
  import opened BlockCheck
  import opened Decompress
  import opened BzDecompress
  import opened BzCompress
  import opened RoundTrip
  import opened StreamSize
  import opened RunSize

  /** BZ_OK, BZ_OUTBUFF_FULL, BZ_UNEXPECTED_EOF, BZ_PARAM_ERROR, BZ_SEQUENCE_ERROR. */
  datatype Status = Done | OutBuffFull | UnexpectedEof | BadParam | BadSequence

  /** `z` is a complete stream for `source`. */
  ghost predicate StreamFor(z: seq<byte>, table: seq<u32>, source: seq<byte>) {
    exists k: nat, done: seq<Sent>, crc: u32, pad: seq<bool> :: IsStream(z, table, source, k, done, crc, pad)
  }

  ghost predicate IsStream(z: seq<byte>, table: seq<u32>, source: seq<byte>, k: nat, done: seq<Sent>, crc: u32,
                           pad: seq<bool>) {
    WholeStream(BytesBits(z), table, k, done, crc, pad) && Plain(done, |done|) == source
  }

  /** The same with nothing behind the end but what fills the last byte. */
  ghost predicate WholeBytes(z: seq<byte>, table: seq<u32>, source: seq<byte>) {
    exists k: nat, done: seq<Sent>, crc: u32, pad: seq<bool> ::
        IsStream(z, table, source, k, done, crc, pad) && |pad| < 8
  }

  lemma WholeIsStream(z: seq<byte>, table: seq<u32>, source: seq<byte>)
    requires WholeBytes(z, table, source)
    ensures StreamFor(z, table, source)
  {
    hide IsStream;
    var k: nat, done: seq<Sent>, crc: u32, pad: seq<bool> :| IsStream(z, table, source, k, done, crc, pad) && |pad| < 8;
  }

  lemma EndedIs(s: Compressor)
    requires s.Valid() && s.ended
    ensures IsStream(s.w.zbits, s.buf.crcTable, s.fed, s.blockSize100k, s.done, s.combinedCRC, s.pad) && |s.pad| < 8
  {
    hide WholeStream, BytesBits, Plain, Compressor.Valid;
    EndedStream(s);
    Parts(s);
  }

  lemma EndedStreamFor(s: Compressor)
    requires s.Valid() && s.ended
    ensures WholeBytes(s.w.zbits, s.buf.crcTable, s.fed)
  {
    hide WholeStream, BytesBits, Plain, Compressor.Valid;
    EndedStream(s);
    Parts(s);
    assert IsStream(s.w.zbits, s.buf.crcTable, s.fed, s.blockSize100k, s.done, s.combinedCRC, s.pad);
  }

  /** Room in bytes for the stream of any source of this length. */
  function EnoughRoom(sourceLen: nat): nat {
    6457 + 3 * sourceLen
  }

  /** A compressor in the middle of `source` that has handed out `dest` and has no room for more. */
  ghost predicate OutOfRoom(s: Compressor, source: seq<byte>, dest: seq<byte>)
    reads s, s.strm, s.Repr()
  {
    s.Valid() && s.fed + s.strm.nextIn == source && s.out0 == [] && s.strm.nextOut == dest && s.strm.availOut == 0
  }

  /** What a compressor has handed out is no longer than the stream of what it has taken in. */
  lemma HandedOutFits(s: Compressor, source: seq<byte>, dest: seq<byte>)
    requires OutOfRoom(s, source, dest) && FullBlocks(100000 * s.blockSize100k - 19, [], false, s.done, s.ended)
    ensures |dest| <= EnoughRoom(|source|)
  {
    hide Compressor.Valid, FullBlocks;
    FullBound(s);
    var pos := s.Position();
    assert |s.fed| <= |source|;
  }

  lemma AllFull(full: int, e0: bool, bl: seq<Sent>, e: bool)
    requires FullBlocks(full, [], e0, bl, e)
    ensures FullBlocks(full, [], false, bl, e)
  {
  }

  /** BZ2_bzBuffToBuffCompress: one BZ_FINISH. It fails only for its parameters or for lack of room, and
      otherwise leaves a complete stream for `source`; and there is a size that is always enough. */
  method BuffToBuffCompress(source: seq<byte>, destLen: nat, blockSize100k: nat, workFactor: int, crcTable: seq<u32>)
    returns (ret: Status, dest: seq<byte>, ghost s: Compressor)
    requires |crcTable| == 256
    ensures ret == BadParam <==> !(1 <= blockSize100k <= 9 && 0 <= workFactor <= 250)
    ensures ret != BadParam ==> |dest| <= destLen
    ensures ret == Done ==> WholeBytes(dest, crcTable, source) && |dest| <= EnoughRoom(|source|)
    ensures ret == Done ==> IsStream(dest, crcTable, source, blockSize100k, s.done, s.combinedCRC, s.pad) && |s.pad| < 8
    ensures ret == Done && CodeSize(source, |source|) < 100000 * blockSize100k - 19 ==> |s.done| <= 1
    ensures ret == OutBuffFull || ret == BadSequence ==> |dest| == destLen && OutOfRoom(s, source, dest)
    ensures ret == BadSequence ==> destLen == 0
    ensures ret != UnexpectedEof
    ensures destLen > EnoughRoom(|source|) ==> ret == Done || ret == BadParam
  {
    hide Compressor.Valid, WholeBytes, Plain, FullBlocks, IsStream, CodeSize;
    dest := [];
    var strm := new Stream();
    strm.nextIn, strm.availOut := source, destLen;
    var ok, z := BzCompressInit(strm, blockSize100k, workFactor, crcTable);
    s := z;
    if !ok { return BadParam, dest, s; }
    ghost var e := z.ended;
    var answer := z.BzCompress(Finish);
    AllFull(100000 * blockSize100k - 19, e, z.done, z.ended);
    dest := strm.nextOut;
    assert [] + source == source && z.fed + [] == z.fed && [] + z.w.zbits == z.w.zbits;
    if answer == Ended {
      EndedStreamFor(z);
      FullBound(z);
      EndedIs(z);
      if CodeSize(source, |source|) < 100000 * blockSize100k - 19 { OneBlock(z); }
      return Done, dest, s;
    }
    HandedOutFits(z, source, dest);
    ret := if answer == FinishOk then OutBuffFull else BadSequence;
  }

  /** BZ2_bzBuffToBuffDecompress on a complete stream: the source, exactly if there is room for it; otherwise
      as much of its front as there is room for. */
  method BuffToBuffDecompress(z: seq<byte>, destLen: nat, small: bool, crcTable: seq<u32>, ghost source: seq<byte>)
    returns (ret: Status, dest: seq<byte>)
    requires StreamFor(z, crcTable, source)
    ensures ret == if |source| <= destLen then Done else OutBuffFull
    ensures dest == if |source| <= destLen then source else source[..destLen]
  {
    hide WholeStream, BytesBits, Plain;
    ghost var k: nat, done: seq<Sent>, crc: u32, pad: seq<bool> :| IsStream(z, crcTable, source, k, done, crc, pad);
    var calls := [Call(z, destLen)];
    assert calls[1..] == [] && Supplied([]) == [] && z + [] == z;
    assert Supplied(calls) == z;
    AtOnce(calls, 0);
    assert Room(calls, 1) == 0;
    var ok, ended;
    dest, ok, ended := Replay(calls, small, crcTable, k, done, crc, pad);
    if !ok { return BadSequence, dest; }
    if ended { return Done, dest; }
    ret := if |dest| < destLen then UnexpectedEof else OutBuffFull;
  }

  /** There and back: with room for the stream, the source again. */
  method BuffRoundTrip(source: seq<byte>, destLen: nat, blockSize100k: nat, workFactor: int, small: bool,
                       crcTable: seq<u32>)
    returns (ret: Status, plain: seq<byte>)
    requires |crcTable| == 256
    ensures ret == Done ==> plain == source
    ensures 1 <= blockSize100k <= 9 && 0 <= workFactor <= 250 && destLen > EnoughRoom(|source|) ==> ret == Done
  {
    hide StreamFor, WholeBytes;
    var z;
    ghost var s;
    ret, z, s := BuffToBuffCompress(source, destLen, blockSize100k, workFactor, crcTable);
    if ret != Done { return ret, []; }
    WholeIsStream(z, crcTable, source);
    ret, plain := BuffToBuffDecompress(z, |source|, small, crcTable, source);
  }
}
