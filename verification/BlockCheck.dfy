/** The check values of bzip2 (bzlib_private.h, compress.c, bzlib.c): a 32-bit register stepped by a table
    of 256 words. Words are numbers; exclusive or works bit by bit. */
module BlockCheck {
  import opened Rotations
  import opened Power

  type u32 = x: int | 0 <= x < 0x1_0000_0000

  /** Exclusive or of the low `n` bits. */
  function Xor(a: nat, b: nat, n: nat): (r: nat)
    ensures r < Pow2(n)
  {
    if n == 0 then 0 else 2 * Xor(a / 2, b / 2, n - 1) + (a + b) % 2
  }

  function Xor32(a: u32, b: u32): u32 {
    var n := 32;
    Widths();
    Xor(a, b, n)
  }

  function Xor8(a: byte, b: byte): byte {
    var n := 8;
    Widths();
    Xor(a, b, n)
  }

  lemma Widths()
    ensures Pow2(8) == 0x100 && Pow2(32) == 0x1_0000_0000
  {
    assert Pow2(4) == 16;
    Pow2Add(4, 4);
    Pow2Add(8, 8);
    Pow2Add(16, 16);
  }

  /** BZ_UPDATE_CRC, for a table of 256 words. */
  function UpdateCrc(table: seq<u32>, crc: u32, ch: byte): u32
    requires |table| == 256
  {
    Xor32((crc * 256) % 0x1_0000_0000, table[Xor8(crc / 0x100_0000, ch)])
  }

  ghost function CrcOf(table: seq<u32>, crc: u32, s: seq<byte>): u32
    requires |table| == 256
  {
    if s == [] then crc else UpdateCrc(table, CrcOf(table, crc, s[..|s| - 1]), s[|s| - 1])
  }

  /** BZ_INITIALISE_CRC. */
  const CRC_INIT: u32 := 0xffff_ffff

  /** BZ_FINALISE_CRC: the complement. */
  function Finalise(crc: u32): u32 {
    0xffff_ffff - crc
  }

  /** (combined << 1) | (combined >> 31), with the next block's check value mixed in. */
  function Combine(combined: u32, crc: u32): u32 {
    Xor32((combined * 2) % 0x1_0000_0000 + combined / 0x8000_0000, crc)
  }
}
