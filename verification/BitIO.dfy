/** The bit streams of the codec: bsW and bsFinishWrite (compress.c), GET_BITS (decompress.c). */
module BitIO {
  import opened Rotations
  import opened Power
  import opened Bits

  const WORD := 0x1_0000_0000

  // ----- Writing -----

  /** Shifting the top byte out of a 32-bit buffer whose top `live` bits are `hi`. */
  lemma ShiftOut(buff: nat, hi: nat, live: nat) returns (top: nat, lo: nat)
    requires 8 <= live <= 32 && hi < Pow2(live) && buff == Shl(hi, 32 - live)
    ensures top == buff / 0x100_0000 < 256
    ensures lo < Pow2(live - 8) && BitsOf(hi, live) == BitsOf(top, 8) + BitsOf(lo, live - 8)
    ensures (buff * 256) % WORD == Shl(lo, 32 - (live - 8))
  {
    hide Pow2, Shl, BitsOf, Low, Shr;
    top, lo := Shr(hi, live - 8), Low(hi, live - 8);
    ShrLow(hi, live - 8);
    assert 8 + (live - 8) == live;
    ShrBound(hi, 8, live - 8);
    Pow2Values();
    BitsConcat(top, 8, hi, live - 8);
    BitsMasked(hi, live - 8);
    ShlAdd(Shl(top, live - 8), lo, 32 - live);
    ShlTwice(top, live - 8, 32 - live);
    ShlBytes(top);
    assert (live - 8) + (32 - live) == 24;
    ShlBound(lo, live - 8, 32 - live);
    ShlByte(Shl(lo, 32 - live));
    ShlTwice(lo, 32 - live, 8);
    assert (32 - live) + 8 == 32 - (live - 8);
  }

  /** What of the output has been promised to a reader: it stays as it is. */
  class Mark {
    ghost var floor: seq<byte>

    constructor ()
      ensures floor == []
    {
      floor := [];
    }
  }

  /** The compressor's output: whole bytes so far, and up to 32 bits waiting at the top of the
      buffer. */
  class BitWriter {
    var zbits: seq<byte>
    var bsBuff: nat
    var bsLive: int
    ghost var hi: nat
    const mark: Mark

    /** BZ2_bsInitWrite. */
    constructor ()
      ensures Valid() && Out() == [] && zbits == [] && fresh(mark) && mark.floor == []
    {
      zbits, bsBuff, bsLive, hi := [], 0, 0, 0;
      mark := new Mark();
      new;
      ShlZero(32);
    }

    ghost predicate Valid()
      reads this, mark
    {
      mark.floor <= zbits && 0 <= bsLive <= 32 && hi < Pow2(bsLive) && bsBuff == Shl(hi, 32 - bsLive) && bsBuff < WORD
    }

    /** Every bit written so far. */
    ghost function Out(): seq<bool>
      requires Valid()
      reads this, mark
    {
      BytesBits(zbits) + BitsOf(hi, bsLive)
    }

    /** Move one full byte from the buffer to the output. */
    method FlushByte()
      requires Valid() && bsLive >= 8
      modifies this
      ensures Valid() && Out() == old(Out()) && bsLive == old(bsLive) - 8
      ensures |zbits| == |old(zbits)| + 1
    {
      hide BitsOf, BytesBits, Pow2, Shl;
      ghost var top, lo := ShiftOut(bsBuff, hi, bsLive);
      BytesBitsAppend(zbits, bsBuff / 0x100_0000);
      zbits := zbits + [bsBuff / 0x100_0000];
      bsBuff := (bsBuff * 256) % WORD;
      bsLive := bsLive - 8;
      hi := lo;
    }

    /** bsNEEDW. */
    method Need()
      requires Valid()
      modifies this
      ensures Valid() && Out() == old(Out()) && bsLive < 8
    {
      hide Out;
      while bsLive >= 8
        invariant Valid() && Out() == old(Out())
        decreases bsLive
      {
        FlushByte();
      }
    }

    /** bsW: the low `n` bits of `v` go out, most significant first. The buffer below the live bits
        is zero, so the OR is an addition. */
    method BsW(n: nat, v: nat)
      requires Valid() && n <= 24 && v < Pow2(n)
      modifies this
      ensures Valid() && Out() == old(Out()) + BitsOf(v, n)
    {
      hide BitsOf, BytesBits, Pow2, Shl, Low;
      Need();
      OrIn(hi, v, bsLive, n);
      BitsConcat(hi, bsLive, v, n);
      LowSmall(v, n);
      bsBuff := bsBuff + Shl(v, 32 - bsLive - n);
      bsLive := bsLive + n;
      hi := Shl(hi, n) + v;
    }

    /** bsFinishWrite: the last bits go out, filled up with zeros to a whole byte. */
    method Finish()
      requires Valid()
      modifies this
      ensures mark.floor <= zbits
      ensures exists pad: nat :: pad < 8 && BytesBits(zbits) == old(Out()) + BitsOf(0, pad)
    {
      hide BitsOf, BytesBits, Pow2, Shl;
      Need();
      ghost var pad := 0;
      if bsLive > 0 {
        pad := 8 - bsLive;
        ZeroPad(bsBuff, hi, bsLive);
        BytesBitsAppend(zbits, bsBuff / 0x100_0000);
        zbits := zbits + [bsBuff / 0x100_0000];
        bsBuff := (bsBuff * 256) % WORD;
        bsLive := bsLive - 8;
      } else {
        NoBits(hi);
        NoBits(0);
      }
      assert BytesBits(zbits) == old(Out()) + BitsOf(0, pad);
    }
  }

  lemma NoBits(x: nat)
    ensures BitsOf(x, 0) == []
  {
  }

  /** The last byte: the live bits and zeros below them. */
  lemma ZeroPad(buff: nat, hi: nat, live: nat)
    requires 0 < live < 8 && hi < Pow2(live) && buff == Shl(hi, 32 - live)
    ensures buff / 0x100_0000 < 256
    ensures BitsOf(buff / 0x100_0000, 8) == BitsOf(hi, live) + BitsOf(0, 8 - live)
  {
    hide Pow2, Shl, BitsOf, Low;
    BitsConcat(hi, live, 0, 8 - live);
    PositivePow2(8 - live);
    LowSmall(0, 8 - live);
    ShlBound(hi, live, 8 - live);
    Pow2Values();
    assert live + (8 - live) == 8;
    ShlTwice(hi, 8 - live, 24);
    ShlBytes(Shl(hi, 8 - live));
    assert (8 - live) + 24 == 32 - live;
  }

  lemma OrIn(hi: nat, v: nat, live: nat, n: nat)
    requires live + n <= 32 && hi < Pow2(live) && v < Pow2(n)
    ensures Shl(hi, 32 - live) + Shl(v, 32 - live - n) == Shl(Shl(hi, n) + v, 32 - live - n)
    ensures Shl(hi, n) + v < Pow2(live + n)
    ensures Shl(Shl(hi, n) + v, 32 - live - n) < WORD
  {
    var s := 32 - live - n;
    hide Pow2, Shl;
    ShlAdd(Shl(hi, n), v, s);
    ShlTwice(hi, n, s);
    ShlBound(hi, live, n);
    ShlBound(Shl(hi, n) + v, live + n, s);
    Pow2Values();
  }

  // ----- Reading -----

  /** The decompressor's input: bytes not yet fetched, and `bsLive` bits at the bottom of the
      buffer. */
  class BitReader {
    var input: seq<byte>
    var bsBuff: nat
    var bsLive: nat

    constructor (bytes: seq<byte>)
      ensures Valid() && Unread() == BytesBits(bytes)
    {
      input, bsBuff, bsLive := bytes, 0, 0;
      new;
      assert [] + BytesBits(input) == BytesBits(input);
    }

    ghost predicate Valid()
      reads this
    {
      bsLive <= 32 && bsBuff < WORD
    }

    /** Every bit not yet consumed. */
    ghost function Unread(): seq<bool>
      reads this
    {
      BitsOf(bsBuff, bsLive) + BytesBits(input)
    }

    /** Fetch one byte into the buffer; bits shifted out at the top were consumed long ago. */
    method Refill()
      requires Valid() && bsLive <= 24 && input != []
      modifies this
      ensures Valid() && Unread() == old(Unread()) && bsLive == old(bsLive) + 8
      ensures input == old(input)[1..]
    {
      hide BitsOf, BytesBits, Pow2;
      Shifted(bsBuff, input[0], bsLive);
      BytesBitsFront(input);
      bsBuff := (bsBuff * 256) % WORD + input[0];
      bsLive := bsLive + 8;
      input := input[1..];
    }

    /** GET_BITS: the next `n` bits, or, when the input runs out first, a suspension that has kept
        every bit. */
    method GetBits(n: nat) returns (ok: bool, v: nat)
      requires Valid() && n <= 24
      modifies this
      ensures Valid()
      ensures ok ==> v < Pow2(n) && old(Unread()) == BitsOf(v, n) + Unread()
      ensures !ok ==> input == [] && Unread() == old(Unread()) && |Unread()| < n
      ensures ok <==> |old(Unread())| >= n
    {
      hide BitsOf, Pow2;
      while bsLive < n
        invariant Valid() && Unread() == old(Unread())
        decreases |input|
      {
        if input == [] { return false, 0; }
        Refill();
      }
      ok, v := true, Low(Shr(bsBuff, bsLive - n), n);
      BitsSplit(bsBuff, n, bsLive - n);
      BitsMasked(Shr(bsBuff, bsLive - n), n);
      assert n + (bsLive - n) == bsLive;
      bsLive := bsLive - n;
    }
  }

  lemma Shifted(buff: nat, c: byte, live: nat)
    requires buff < WORD && live <= 24
    ensures (buff * 256) % WORD + c < WORD
    ensures BitsOf((buff * 256) % WORD + c, live + 8) == BitsOf(buff, live) + BitsOf(c, 8)
  {
    hide BitsOf, Pow2, Shl, Low;
    BitsConcat(buff, live, c, 8);
    ShlByte(buff);
    Pow2Values();
    LowSmall(c, 8);
    var q, x := (buff * 256) / WORD, (buff * 256) % WORD + c;
    assert buff * 256 + c == q * WORD + x;
    ShlTwice(q, 24 - live, live + 8);
    ShlBytes(q);
    ShlTwice(q, 24, 8);
    ShlByte(Shl(q, 24));
    assert (24 - live) + (live + 8) == 32 && Shl(q, 32) == q * WORD;
    BitsLow(Shl(q, 24 - live), x, live + 8);
  }
}
