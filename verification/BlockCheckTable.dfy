/** The table of crctable.c: its entries are the bytes clocked through an empty register. */
module BlockCheckTable {
  import opened Rotations
  import opened Bits
  import opened BlockCheck
  import opened BlockCheckKnown
  import opened BzDecompress

  /** BZ2_crc32Table, eight entries to a row. */
  const CRC_ROWS: seq<seq<u32>> := [
    [0x00000000, 0x04c11db7, 0x09823b6e, 0x0d4326d9, 0x130476dc, 0x17c56b6b, 0x1a864db2, 0x1e475005],
    [0x2608edb8, 0x22c9f00f, 0x2f8ad6d6, 0x2b4bcb61, 0x350c9b64, 0x31cd86d3, 0x3c8ea00a, 0x384fbdbd],
    [0x4c11db70, 0x48d0c6c7, 0x4593e01e, 0x4152fda9, 0x5f15adac, 0x5bd4b01b, 0x569796c2, 0x52568b75],
    [0x6a1936c8, 0x6ed82b7f, 0x639b0da6, 0x675a1011, 0x791d4014, 0x7ddc5da3, 0x709f7b7a, 0x745e66cd],
    [0x9823b6e0, 0x9ce2ab57, 0x91a18d8e, 0x95609039, 0x8b27c03c, 0x8fe6dd8b, 0x82a5fb52, 0x8664e6e5],
    [0xbe2b5b58, 0xbaea46ef, 0xb7a96036, 0xb3687d81, 0xad2f2d84, 0xa9ee3033, 0xa4ad16ea, 0xa06c0b5d],
    [0xd4326d90, 0xd0f37027, 0xddb056fe, 0xd9714b49, 0xc7361b4c, 0xc3f706fb, 0xceb42022, 0xca753d95],
    [0xf23a8028, 0xf6fb9d9f, 0xfbb8bb46, 0xff79a6f1, 0xe13ef6f4, 0xe5ffeb43, 0xe8bccd9a, 0xec7dd02d],
    [0x34867077, 0x30476dc0, 0x3d044b19, 0x39c556ae, 0x278206ab, 0x23431b1c, 0x2e003dc5, 0x2ac12072],
    [0x128e9dcf, 0x164f8078, 0x1b0ca6a1, 0x1fcdbb16, 0x018aeb13, 0x054bf6a4, 0x0808d07d, 0x0cc9cdca],
    [0x7897ab07, 0x7c56b6b0, 0x71159069, 0x75d48dde, 0x6b93dddb, 0x6f52c06c, 0x6211e6b5, 0x66d0fb02],
    [0x5e9f46bf, 0x5a5e5b08, 0x571d7dd1, 0x53dc6066, 0x4d9b3063, 0x495a2dd4, 0x44190b0d, 0x40d816ba],
    [0xaca5c697, 0xa864db20, 0xa527fdf9, 0xa1e6e04e, 0xbfa1b04b, 0xbb60adfc, 0xb6238b25, 0xb2e29692],
    [0x8aad2b2f, 0x8e6c3698, 0x832f1041, 0x87ee0df6, 0x99a95df3, 0x9d684044, 0x902b669d, 0x94ea7b2a],
    [0xe0b41de7, 0xe4750050, 0xe9362689, 0xedf73b3e, 0xf3b06b3b, 0xf771768c, 0xfa325055, 0xfef34de2],
    [0xc6bcf05f, 0xc27dede8, 0xcf3ecb31, 0xcbffd686, 0xd5b88683, 0xd1799b34, 0xdc3abded, 0xd8fba05a],
    [0x690ce0ee, 0x6dcdfd59, 0x608edb80, 0x644fc637, 0x7a089632, 0x7ec98b85, 0x738aad5c, 0x774bb0eb],
    [0x4f040d56, 0x4bc510e1, 0x46863638, 0x42472b8f, 0x5c007b8a, 0x58c1663d, 0x558240e4, 0x51435d53],
    [0x251d3b9e, 0x21dc2629, 0x2c9f00f0, 0x285e1d47, 0x36194d42, 0x32d850f5, 0x3f9b762c, 0x3b5a6b9b],
    [0x0315d626, 0x07d4cb91, 0x0a97ed48, 0x0e56f0ff, 0x1011a0fa, 0x14d0bd4d, 0x19939b94, 0x1d528623],
    [0xf12f560e, 0xf5ee4bb9, 0xf8ad6d60, 0xfc6c70d7, 0xe22b20d2, 0xe6ea3d65, 0xeba91bbc, 0xef68060b],
    [0xd727bbb6, 0xd3e6a601, 0xdea580d8, 0xda649d6f, 0xc423cd6a, 0xc0e2d0dd, 0xcda1f604, 0xc960ebb3],
    [0xbd3e8d7e, 0xb9ff90c9, 0xb4bcb610, 0xb07daba7, 0xae3afba2, 0xaafbe615, 0xa7b8c0cc, 0xa379dd7b],
    [0x9b3660c6, 0x9ff77d71, 0x92b45ba8, 0x9675461f, 0x8832161a, 0x8cf30bad, 0x81b02d74, 0x857130c3],
    [0x5d8a9099, 0x594b8d2e, 0x5408abf7, 0x50c9b640, 0x4e8ee645, 0x4a4ffbf2, 0x470cdd2b, 0x43cdc09c],
    [0x7b827d21, 0x7f436096, 0x7200464f, 0x76c15bf8, 0x68860bfd, 0x6c47164a, 0x61043093, 0x65c52d24],
    [0x119b4be9, 0x155a565e, 0x18197087, 0x1cd86d30, 0x029f3d35, 0x065e2082, 0x0b1d065b, 0x0fdc1bec],
    [0x3793a651, 0x3352bbe6, 0x3e119d3f, 0x3ad08088, 0x2497d08d, 0x2056cd3a, 0x2d15ebe3, 0x29d4f654],
    [0xc5a92679, 0xc1683bce, 0xcc2b1d17, 0xc8ea00a0, 0xd6ad50a5, 0xd26c4d12, 0xdf2f6bcb, 0xdbee767c],
    [0xe3a1cbc1, 0xe760d676, 0xea23f0af, 0xeee2ed18, 0xf0a5bd1d, 0xf464a0aa, 0xf9278673, 0xfde69bc4],
    [0x89b8fd09, 0x8d79e0be, 0x803ac667, 0x84fbdbd0, 0x9abc8bd5, 0x9e7d9662, 0x933eb0bb, 0x97ffad0c],
    [0xafb010b1, 0xab710d06, 0xa6322bdf, 0xa2f33668, 0xbcb4666d, 0xb8757bda, 0xb5365d03, 0xb1f740b4]
  ]

  function RowEntry(rows: seq<seq<u32>>, i: nat): u32
    requires i < 256
  {
    if |rows| == 32 && |rows[i / 8]| == 8 then rows[i / 8][i % 8] else 0
  }

  function CrcEntry(i: nat): u32
    requires i < 256
  {
    RowEntry(CRC_ROWS, i)
  }

  ghost function CrcTable(): (t: seq<u32>)
    ensures |t| == 256
  {
    seq(256, i requires 0 <= i < 256 => CrcEntry(i))
  }

  // ----- Exclusive or of written-out words, byte by byte -----

  function Number(x: bv8): byte { x as nat }
  function Half(x: bv8): bv8 { x >> 1 }
  function Mix(x: bv8, y: bv8): bv8 { x ^ y }
  predicate Odd(x: bv8) { x & 1 == 1 }

  lemma HalfByte(x: bv8)
    ensures Number(Half(x)) == Number(x) / 2
  { }

  lemma LastBit(x: bv8)
    ensures Number(x) % 2 == if Odd(x) then 1 else 0
  { }

  lemma HalfMix(x: bv8, y: bv8)
    ensures Half(Mix(x, y)) == Mix(Half(x), Half(y)) && Odd(Mix(x, y)) == (Odd(x) != Odd(y))
  { }

  /** What is needed of the bytes, as numbers. */
  lemma ByteFacts(x: bv8, y: bv8)
    ensures Number(Half(x)) == Number(x) / 2 && Number(Half(y)) == Number(y) / 2
    ensures Number(Mix(Half(x), Half(y))) == Number(Mix(x, y)) / 2
    ensures Number(Mix(x, y)) % 2 == (Number(x) + Number(y)) % 2
  {
    hide Number, Half, Mix, Odd;
    HalfByte(x);
    HalfByte(y);
    HalfByte(Mix(x, y));
    HalfMix(x, y);
    LastBit(x);
    LastBit(y);
    LastBit(Mix(x, y));
  }

  lemma BitStep(a: nat, b: nat, c: nat, n: nat)
    requires Xor(a / 2, b / 2, n) == Low(c / 2, n) && c % 2 == (a + b) % 2
    ensures Xor(a, b, n + 1) == Low(c, n + 1)
  { }

  lemma NothingMixed(a: nat, b: nat, c: nat)
    ensures Xor(a, b, 0) == Low(c, 0)
  { }

  lemma {:induction false} ByteXor(x: bv8, y: bv8, n: nat)
    ensures Xor(Number(x), Number(y), n) == Low(Number(Mix(x, y)), n)
    decreases n
  {
    hide Xor, Low, Number, Half, Mix;
    if n == 0 {
      NothingMixed(Number(x), Number(y), Number(Mix(x, y)));
    } else {
      ByteXor(Half(x), Half(y), n - 1);
      ByteFacts(x, y);
      BitStep(Number(x), Number(y), Number(Mix(x, y)), n - 1);
    }
  }

  function WordOf(b3: byte, b2: byte, b1: byte, b0: byte): u32 {
    256 * (256 * (256 * b3 + b2) + b1) + b0
  }

  function Word(b3: bv8, b2: bv8, b1: bv8, b0: bv8): u32 {
    WordOf(Number(b3), Number(b2), Number(b1), Number(b0))
  }

  /** Only the lowest bytes count. */
  lemma LowBytesOnly(u: nat, v: nat, x: nat, y: nat, w: nat)
    requires Low(u, w) == Low(x, w) && Low(v, w) == Low(y, w)
    ensures Xor(u, v, w) == Xor(x, y, w)
  {
    hide Xor, Low;
    XorOfLow(u, v, x, w);
    XorCommutes(x, v, w);
    XorOfLow(v, x, y, w);
    XorCommutes(y, x, w);
  }

  lemma ByteOf(a: nat, x: byte, w: nat)
    requires w == 8
    ensures Low(256 * a + x, w) == Low(x, w) && Shr(256 * a + x, w) == a
  {
    hide Low, Shr;
    LowIs(256 * a + x, w, w + 16, w + 24);
    LowOfByte(x, w);
    assert (256 * a + x) / 256 == a && (256 * a + x) % 256 == x;
  }

  /** The lowest byte and the rest. */
  lemma LastByte(a: nat, b: nat, x: byte, y: byte, z: byte, n: nat, w: nat)
    requires w == 8 && Xor(x, y, w) == z
    ensures Xor(256 * a + x, 256 * b + y, w + n) == 256 * Xor(a, b, n) + z
  {
    hide Xor, Low, Shr, Shl;
    var u, v := 256 * a + x, 256 * b + y;
    ByteOf(a, x, w);
    ByteOf(b, y, w);
    LowBytesOnly(u, v, x, y, w);
    XorShr(u, v, w, n);
    XorLow(u, v, w, n);
    ShrLow(Xor(u, v, w + n), w);
    ShlIs(Xor(a, b, n), w, w + 16, w + 24);
  }

  lemma ByteValue(x: bv8, y: bv8, w: nat)
    requires w == 8
    ensures Xor(Number(x), Number(y), w) == Number(Mix(x, y))
  {
    hide Xor, Low, Number, Mix;
    ByteXor(x, y, w);
    LowOfByte(Number(Mix(x, y)), w);
  }

  lemma LowOfByte(x: byte, w: nat)
    requires w == 8
    ensures Low(x, w) == x
  {
    hide Low, Shr;
    LowIs(x, w, w + 16, w + 24);
  }

  /** Four bytes from the highest on. */
  lemma FourBytes(a3: byte, a2: byte, a1: byte, a0: byte, b3: byte, b2: byte, b1: byte, b0: byte,
                  c3: byte, c2: byte, c1: byte, c0: byte, w: nat)
    requires w == 8 && Xor(a3, b3, w) == c3 && Xor(a2, b2, w) == c2 && Xor(a1, b1, w) == c1 && Xor(a0, b0, w) == c0
    ensures Xor(WordOf(a3, a2, a1, a0), WordOf(b3, b2, b1, b0), 4 * w) == WordOf(c3, c2, c1, c0)
  {
    hide Xor;
    LastByte(a3, b3, a2, b2, c2, w, w);
    LastByte(256 * a3 + a2, 256 * b3 + b2, a1, b1, c1, w + w, w);
    LastByte(256 * (256 * a3 + a2) + a1, 256 * (256 * b3 + b2) + b1, a0, b0, c0, w + (w + w), w);
    assert w + (w + (w + w)) == 4 * w;
  }

  lemma WordXor(a3: bv8, a2: bv8, a1: bv8, a0: bv8, b3: bv8, b2: bv8, b1: bv8, b0: bv8, w: nat)
    requires w == 8
    ensures Xor32(Word(a3, a2, a1, a0), Word(b3, b2, b1, b0)) ==
        Word(Mix(a3, b3), Mix(a2, b2), Mix(a1, b1), Mix(a0, b0))
  {
    hide Xor32, Xor, Number, Mix, WordOf;
    ByteValue(a3, b3, w);
    ByteValue(a2, b2, w);
    ByteValue(a1, b1, w);
    ByteValue(a0, b0, w);
    FourBytes(Number(a3), Number(a2), Number(a1), Number(a0), Number(b3), Number(b2), Number(b1), Number(b0),
              Number(Mix(a3, b3)), Number(Mix(a2, b2)), Number(Mix(a1, b1)), Number(Mix(a0, b0)), w);
    WordIs(Word(a3, a2, a1, a0), Word(b3, b2, b1, b0), 4 * w);
  }

  /** Exclusive or with the polynomial, byte by byte. */
  lemma PolyXor(a3: bv8, a2: bv8, a1: bv8, a0: bv8, c3: bv8, c2: bv8, c1: bv8, c0: bv8, a: u32, c: u32)
    requires c3 == a3 ^ 0x04 && c2 == a2 ^ 0xc1 && c1 == a1 ^ 0x1d && c0 == a0 ^ 0xb7
    requires a == 256 * (256 * (256 * (a3 as nat) + a2 as nat) + a1 as nat) + a0 as nat
    requires c == 256 * (256 * (256 * (c3 as nat) + c2 as nat) + c1 as nat) + c0 as nat
    ensures Xor32(a, POLY) == c
  {
    PolyBytes();
    hide Xor32;
    WordXor(a3, a2, a1, a0, 0x04, 0xc1, 0x1d, 0xb7, 8);
  }

  lemma PolyBytes()
    ensures Word(0x04, 0xc1, 0x1d, 0xb7) == POLY
  { }

  /** A clock that shifts out a one. */
  lemma OneOut(d: u32, a: u32, c: u32)
    requires d >= 0x8000_0000 && a == 2 * d - 0x1_0000_0000 && Xor32(a, POLY) == c
    ensures Clock(d) == c
  {
    hide Xor32;
  }

  /** Row `s` holds the entries of twice the place of four entries of row `r`, and one more. */
  ghost predicate Follows(r: seq<u32>, s: seq<u32>, at: nat) {
    && |r| == |s| == 8 && at + 4 <= 8
    && forall j :: 0 <= j < 4 ==> s[2 * j] == Clock(r[at + j]) && s[2 * j + 1] == Xor32(s[2 * j], POLY)
  }

  lemma Row0()
    ensures Follows(CRC_ROWS[0], CRC_ROWS[0], 0)
  {
    hide Xor32, Clock;
    ZeroOut(0x00000000);
    PolyXor(0x00, 0x00, 0x00, 0x00, 0x04, 0xc1, 0x1d, 0xb7, 0x00000000, 0x04c11db7);
    ZeroOut(0x04c11db7);
    PolyXor(0x09, 0x82, 0x3b, 0x6e, 0x0d, 0x43, 0x26, 0xd9, 0x09823b6e, 0x0d4326d9);
    ZeroOut(0x09823b6e);
    PolyXor(0x13, 0x04, 0x76, 0xdc, 0x17, 0xc5, 0x6b, 0x6b, 0x130476dc, 0x17c56b6b);
    ZeroOut(0x0d4326d9);
    PolyXor(0x1a, 0x86, 0x4d, 0xb2, 0x1e, 0x47, 0x50, 0x05, 0x1a864db2, 0x1e475005);
  }

  lemma Row1()
    ensures Follows(CRC_ROWS[0], CRC_ROWS[1], 4)
  {
    hide Xor32, Clock;
    ZeroOut(0x130476dc);
    PolyXor(0x26, 0x08, 0xed, 0xb8, 0x22, 0xc9, 0xf0, 0x0f, 0x2608edb8, 0x22c9f00f);
    ZeroOut(0x17c56b6b);
    PolyXor(0x2f, 0x8a, 0xd6, 0xd6, 0x2b, 0x4b, 0xcb, 0x61, 0x2f8ad6d6, 0x2b4bcb61);
    ZeroOut(0x1a864db2);
    PolyXor(0x35, 0x0c, 0x9b, 0x64, 0x31, 0xcd, 0x86, 0xd3, 0x350c9b64, 0x31cd86d3);
    ZeroOut(0x1e475005);
    PolyXor(0x3c, 0x8e, 0xa0, 0x0a, 0x38, 0x4f, 0xbd, 0xbd, 0x3c8ea00a, 0x384fbdbd);
  }

  lemma Row2()
    ensures Follows(CRC_ROWS[1], CRC_ROWS[2], 0)
  {
    hide Xor32, Clock;
    ZeroOut(0x2608edb8);
    PolyXor(0x4c, 0x11, 0xdb, 0x70, 0x48, 0xd0, 0xc6, 0xc7, 0x4c11db70, 0x48d0c6c7);
    ZeroOut(0x22c9f00f);
    PolyXor(0x45, 0x93, 0xe0, 0x1e, 0x41, 0x52, 0xfd, 0xa9, 0x4593e01e, 0x4152fda9);
    ZeroOut(0x2f8ad6d6);
    PolyXor(0x5f, 0x15, 0xad, 0xac, 0x5b, 0xd4, 0xb0, 0x1b, 0x5f15adac, 0x5bd4b01b);
    ZeroOut(0x2b4bcb61);
    PolyXor(0x56, 0x97, 0x96, 0xc2, 0x52, 0x56, 0x8b, 0x75, 0x569796c2, 0x52568b75);
  }

  lemma Row3()
    ensures Follows(CRC_ROWS[1], CRC_ROWS[3], 4)
  {
    hide Xor32, Clock;
    ZeroOut(0x350c9b64);
    PolyXor(0x6a, 0x19, 0x36, 0xc8, 0x6e, 0xd8, 0x2b, 0x7f, 0x6a1936c8, 0x6ed82b7f);
    ZeroOut(0x31cd86d3);
    PolyXor(0x63, 0x9b, 0x0d, 0xa6, 0x67, 0x5a, 0x10, 0x11, 0x639b0da6, 0x675a1011);
    ZeroOut(0x3c8ea00a);
    PolyXor(0x79, 0x1d, 0x40, 0x14, 0x7d, 0xdc, 0x5d, 0xa3, 0x791d4014, 0x7ddc5da3);
    ZeroOut(0x384fbdbd);
    PolyXor(0x70, 0x9f, 0x7b, 0x7a, 0x74, 0x5e, 0x66, 0xcd, 0x709f7b7a, 0x745e66cd);
  }

  lemma Row4()
    ensures Follows(CRC_ROWS[2], CRC_ROWS[4], 0)
  {
    hide Xor32, Clock;
    ZeroOut(0x4c11db70);
    PolyXor(0x98, 0x23, 0xb6, 0xe0, 0x9c, 0xe2, 0xab, 0x57, 0x9823b6e0, 0x9ce2ab57);
    ZeroOut(0x48d0c6c7);
    PolyXor(0x91, 0xa1, 0x8d, 0x8e, 0x95, 0x60, 0x90, 0x39, 0x91a18d8e, 0x95609039);
    ZeroOut(0x4593e01e);
    PolyXor(0x8b, 0x27, 0xc0, 0x3c, 0x8f, 0xe6, 0xdd, 0x8b, 0x8b27c03c, 0x8fe6dd8b);
    ZeroOut(0x4152fda9);
    PolyXor(0x82, 0xa5, 0xfb, 0x52, 0x86, 0x64, 0xe6, 0xe5, 0x82a5fb52, 0x8664e6e5);
  }

  lemma Row5()
    ensures Follows(CRC_ROWS[2], CRC_ROWS[5], 4)
  {
    hide Xor32, Clock;
    ZeroOut(0x5f15adac);
    PolyXor(0xbe, 0x2b, 0x5b, 0x58, 0xba, 0xea, 0x46, 0xef, 0xbe2b5b58, 0xbaea46ef);
    ZeroOut(0x5bd4b01b);
    PolyXor(0xb7, 0xa9, 0x60, 0x36, 0xb3, 0x68, 0x7d, 0x81, 0xb7a96036, 0xb3687d81);
    ZeroOut(0x569796c2);
    PolyXor(0xad, 0x2f, 0x2d, 0x84, 0xa9, 0xee, 0x30, 0x33, 0xad2f2d84, 0xa9ee3033);
    ZeroOut(0x52568b75);
    PolyXor(0xa4, 0xad, 0x16, 0xea, 0xa0, 0x6c, 0x0b, 0x5d, 0xa4ad16ea, 0xa06c0b5d);
  }

  lemma Row6()
    ensures Follows(CRC_ROWS[3], CRC_ROWS[6], 0)
  {
    hide Xor32, Clock;
    ZeroOut(0x6a1936c8);
    PolyXor(0xd4, 0x32, 0x6d, 0x90, 0xd0, 0xf3, 0x70, 0x27, 0xd4326d90, 0xd0f37027);
    ZeroOut(0x6ed82b7f);
    PolyXor(0xdd, 0xb0, 0x56, 0xfe, 0xd9, 0x71, 0x4b, 0x49, 0xddb056fe, 0xd9714b49);
    ZeroOut(0x639b0da6);
    PolyXor(0xc7, 0x36, 0x1b, 0x4c, 0xc3, 0xf7, 0x06, 0xfb, 0xc7361b4c, 0xc3f706fb);
    ZeroOut(0x675a1011);
    PolyXor(0xce, 0xb4, 0x20, 0x22, 0xca, 0x75, 0x3d, 0x95, 0xceb42022, 0xca753d95);
  }

  lemma Row7()
    ensures Follows(CRC_ROWS[3], CRC_ROWS[7], 4)
  {
    hide Xor32, Clock;
    ZeroOut(0x791d4014);
    PolyXor(0xf2, 0x3a, 0x80, 0x28, 0xf6, 0xfb, 0x9d, 0x9f, 0xf23a8028, 0xf6fb9d9f);
    ZeroOut(0x7ddc5da3);
    PolyXor(0xfb, 0xb8, 0xbb, 0x46, 0xff, 0x79, 0xa6, 0xf1, 0xfbb8bb46, 0xff79a6f1);
    ZeroOut(0x709f7b7a);
    PolyXor(0xe1, 0x3e, 0xf6, 0xf4, 0xe5, 0xff, 0xeb, 0x43, 0xe13ef6f4, 0xe5ffeb43);
    ZeroOut(0x745e66cd);
    PolyXor(0xe8, 0xbc, 0xcd, 0x9a, 0xec, 0x7d, 0xd0, 0x2d, 0xe8bccd9a, 0xec7dd02d);
  }

  lemma Row8()
    ensures Follows(CRC_ROWS[4], CRC_ROWS[8], 0)
  {
    hide Xor32, Clock;
    PolyXor(0x30, 0x47, 0x6d, 0xc0, 0x34, 0x86, 0x70, 0x77, 0x30476dc0, 0x34867077);
    OneOut(0x9823b6e0, 0x30476dc0, 0x34867077);
    PolyXor(0x34, 0x86, 0x70, 0x77, 0x30, 0x47, 0x6d, 0xc0, 0x34867077, 0x30476dc0);
    PolyXor(0x39, 0xc5, 0x56, 0xae, 0x3d, 0x04, 0x4b, 0x19, 0x39c556ae, 0x3d044b19);
    OneOut(0x9ce2ab57, 0x39c556ae, 0x3d044b19);
    PolyXor(0x3d, 0x04, 0x4b, 0x19, 0x39, 0xc5, 0x56, 0xae, 0x3d044b19, 0x39c556ae);
    PolyXor(0x23, 0x43, 0x1b, 0x1c, 0x27, 0x82, 0x06, 0xab, 0x23431b1c, 0x278206ab);
    OneOut(0x91a18d8e, 0x23431b1c, 0x278206ab);
    PolyXor(0x27, 0x82, 0x06, 0xab, 0x23, 0x43, 0x1b, 0x1c, 0x278206ab, 0x23431b1c);
    PolyXor(0x2a, 0xc1, 0x20, 0x72, 0x2e, 0x00, 0x3d, 0xc5, 0x2ac12072, 0x2e003dc5);
    OneOut(0x95609039, 0x2ac12072, 0x2e003dc5);
    PolyXor(0x2e, 0x00, 0x3d, 0xc5, 0x2a, 0xc1, 0x20, 0x72, 0x2e003dc5, 0x2ac12072);
  }

  lemma Row9()
    ensures Follows(CRC_ROWS[4], CRC_ROWS[9], 4)
  {
    hide Xor32, Clock;
    PolyXor(0x16, 0x4f, 0x80, 0x78, 0x12, 0x8e, 0x9d, 0xcf, 0x164f8078, 0x128e9dcf);
    OneOut(0x8b27c03c, 0x164f8078, 0x128e9dcf);
    PolyXor(0x12, 0x8e, 0x9d, 0xcf, 0x16, 0x4f, 0x80, 0x78, 0x128e9dcf, 0x164f8078);
    PolyXor(0x1f, 0xcd, 0xbb, 0x16, 0x1b, 0x0c, 0xa6, 0xa1, 0x1fcdbb16, 0x1b0ca6a1);
    OneOut(0x8fe6dd8b, 0x1fcdbb16, 0x1b0ca6a1);
    PolyXor(0x1b, 0x0c, 0xa6, 0xa1, 0x1f, 0xcd, 0xbb, 0x16, 0x1b0ca6a1, 0x1fcdbb16);
    PolyXor(0x05, 0x4b, 0xf6, 0xa4, 0x01, 0x8a, 0xeb, 0x13, 0x054bf6a4, 0x018aeb13);
    OneOut(0x82a5fb52, 0x054bf6a4, 0x018aeb13);
    PolyXor(0x01, 0x8a, 0xeb, 0x13, 0x05, 0x4b, 0xf6, 0xa4, 0x018aeb13, 0x054bf6a4);
    PolyXor(0x0c, 0xc9, 0xcd, 0xca, 0x08, 0x08, 0xd0, 0x7d, 0x0cc9cdca, 0x0808d07d);
    OneOut(0x8664e6e5, 0x0cc9cdca, 0x0808d07d);
    PolyXor(0x08, 0x08, 0xd0, 0x7d, 0x0c, 0xc9, 0xcd, 0xca, 0x0808d07d, 0x0cc9cdca);
  }

  lemma Row10()
    ensures Follows(CRC_ROWS[5], CRC_ROWS[10], 0)
  {
    hide Xor32, Clock;
    PolyXor(0x7c, 0x56, 0xb6, 0xb0, 0x78, 0x97, 0xab, 0x07, 0x7c56b6b0, 0x7897ab07);
    OneOut(0xbe2b5b58, 0x7c56b6b0, 0x7897ab07);
    PolyXor(0x78, 0x97, 0xab, 0x07, 0x7c, 0x56, 0xb6, 0xb0, 0x7897ab07, 0x7c56b6b0);
    PolyXor(0x75, 0xd4, 0x8d, 0xde, 0x71, 0x15, 0x90, 0x69, 0x75d48dde, 0x71159069);
    OneOut(0xbaea46ef, 0x75d48dde, 0x71159069);
    PolyXor(0x71, 0x15, 0x90, 0x69, 0x75, 0xd4, 0x8d, 0xde, 0x71159069, 0x75d48dde);
    PolyXor(0x6f, 0x52, 0xc0, 0x6c, 0x6b, 0x93, 0xdd, 0xdb, 0x6f52c06c, 0x6b93dddb);
    OneOut(0xb7a96036, 0x6f52c06c, 0x6b93dddb);
    PolyXor(0x6b, 0x93, 0xdd, 0xdb, 0x6f, 0x52, 0xc0, 0x6c, 0x6b93dddb, 0x6f52c06c);
    PolyXor(0x66, 0xd0, 0xfb, 0x02, 0x62, 0x11, 0xe6, 0xb5, 0x66d0fb02, 0x6211e6b5);
    OneOut(0xb3687d81, 0x66d0fb02, 0x6211e6b5);
    PolyXor(0x62, 0x11, 0xe6, 0xb5, 0x66, 0xd0, 0xfb, 0x02, 0x6211e6b5, 0x66d0fb02);
  }

  lemma Row11()
    ensures Follows(CRC_ROWS[5], CRC_ROWS[11], 4)
  {
    hide Xor32, Clock;
    PolyXor(0x5a, 0x5e, 0x5b, 0x08, 0x5e, 0x9f, 0x46, 0xbf, 0x5a5e5b08, 0x5e9f46bf);
    OneOut(0xad2f2d84, 0x5a5e5b08, 0x5e9f46bf);
    PolyXor(0x5e, 0x9f, 0x46, 0xbf, 0x5a, 0x5e, 0x5b, 0x08, 0x5e9f46bf, 0x5a5e5b08);
    PolyXor(0x53, 0xdc, 0x60, 0x66, 0x57, 0x1d, 0x7d, 0xd1, 0x53dc6066, 0x571d7dd1);
    OneOut(0xa9ee3033, 0x53dc6066, 0x571d7dd1);
    PolyXor(0x57, 0x1d, 0x7d, 0xd1, 0x53, 0xdc, 0x60, 0x66, 0x571d7dd1, 0x53dc6066);
    PolyXor(0x49, 0x5a, 0x2d, 0xd4, 0x4d, 0x9b, 0x30, 0x63, 0x495a2dd4, 0x4d9b3063);
    OneOut(0xa4ad16ea, 0x495a2dd4, 0x4d9b3063);
    PolyXor(0x4d, 0x9b, 0x30, 0x63, 0x49, 0x5a, 0x2d, 0xd4, 0x4d9b3063, 0x495a2dd4);
    PolyXor(0x40, 0xd8, 0x16, 0xba, 0x44, 0x19, 0x0b, 0x0d, 0x40d816ba, 0x44190b0d);
    OneOut(0xa06c0b5d, 0x40d816ba, 0x44190b0d);
    PolyXor(0x44, 0x19, 0x0b, 0x0d, 0x40, 0xd8, 0x16, 0xba, 0x44190b0d, 0x40d816ba);
  }

  lemma Row12()
    ensures Follows(CRC_ROWS[6], CRC_ROWS[12], 0)
  {
    hide Xor32, Clock;
    PolyXor(0xa8, 0x64, 0xdb, 0x20, 0xac, 0xa5, 0xc6, 0x97, 0xa864db20, 0xaca5c697);
    OneOut(0xd4326d90, 0xa864db20, 0xaca5c697);
    PolyXor(0xac, 0xa5, 0xc6, 0x97, 0xa8, 0x64, 0xdb, 0x20, 0xaca5c697, 0xa864db20);
    PolyXor(0xa1, 0xe6, 0xe0, 0x4e, 0xa5, 0x27, 0xfd, 0xf9, 0xa1e6e04e, 0xa527fdf9);
    OneOut(0xd0f37027, 0xa1e6e04e, 0xa527fdf9);
    PolyXor(0xa5, 0x27, 0xfd, 0xf9, 0xa1, 0xe6, 0xe0, 0x4e, 0xa527fdf9, 0xa1e6e04e);
    PolyXor(0xbb, 0x60, 0xad, 0xfc, 0xbf, 0xa1, 0xb0, 0x4b, 0xbb60adfc, 0xbfa1b04b);
    OneOut(0xddb056fe, 0xbb60adfc, 0xbfa1b04b);
    PolyXor(0xbf, 0xa1, 0xb0, 0x4b, 0xbb, 0x60, 0xad, 0xfc, 0xbfa1b04b, 0xbb60adfc);
    PolyXor(0xb2, 0xe2, 0x96, 0x92, 0xb6, 0x23, 0x8b, 0x25, 0xb2e29692, 0xb6238b25);
    OneOut(0xd9714b49, 0xb2e29692, 0xb6238b25);
    PolyXor(0xb6, 0x23, 0x8b, 0x25, 0xb2, 0xe2, 0x96, 0x92, 0xb6238b25, 0xb2e29692);
  }

  lemma Row13()
    ensures Follows(CRC_ROWS[6], CRC_ROWS[13], 4)
  {
    hide Xor32, Clock;
    PolyXor(0x8e, 0x6c, 0x36, 0x98, 0x8a, 0xad, 0x2b, 0x2f, 0x8e6c3698, 0x8aad2b2f);
    OneOut(0xc7361b4c, 0x8e6c3698, 0x8aad2b2f);
    PolyXor(0x8a, 0xad, 0x2b, 0x2f, 0x8e, 0x6c, 0x36, 0x98, 0x8aad2b2f, 0x8e6c3698);
    PolyXor(0x87, 0xee, 0x0d, 0xf6, 0x83, 0x2f, 0x10, 0x41, 0x87ee0df6, 0x832f1041);
    OneOut(0xc3f706fb, 0x87ee0df6, 0x832f1041);
    PolyXor(0x83, 0x2f, 0x10, 0x41, 0x87, 0xee, 0x0d, 0xf6, 0x832f1041, 0x87ee0df6);
    PolyXor(0x9d, 0x68, 0x40, 0x44, 0x99, 0xa9, 0x5d, 0xf3, 0x9d684044, 0x99a95df3);
    OneOut(0xceb42022, 0x9d684044, 0x99a95df3);
    PolyXor(0x99, 0xa9, 0x5d, 0xf3, 0x9d, 0x68, 0x40, 0x44, 0x99a95df3, 0x9d684044);
    PolyXor(0x94, 0xea, 0x7b, 0x2a, 0x90, 0x2b, 0x66, 0x9d, 0x94ea7b2a, 0x902b669d);
    OneOut(0xca753d95, 0x94ea7b2a, 0x902b669d);
    PolyXor(0x90, 0x2b, 0x66, 0x9d, 0x94, 0xea, 0x7b, 0x2a, 0x902b669d, 0x94ea7b2a);
  }

  lemma Row14()
    ensures Follows(CRC_ROWS[7], CRC_ROWS[14], 0)
  {
    hide Xor32, Clock;
    PolyXor(0xe4, 0x75, 0x00, 0x50, 0xe0, 0xb4, 0x1d, 0xe7, 0xe4750050, 0xe0b41de7);
    OneOut(0xf23a8028, 0xe4750050, 0xe0b41de7);
    PolyXor(0xe0, 0xb4, 0x1d, 0xe7, 0xe4, 0x75, 0x00, 0x50, 0xe0b41de7, 0xe4750050);
    PolyXor(0xed, 0xf7, 0x3b, 0x3e, 0xe9, 0x36, 0x26, 0x89, 0xedf73b3e, 0xe9362689);
    OneOut(0xf6fb9d9f, 0xedf73b3e, 0xe9362689);
    PolyXor(0xe9, 0x36, 0x26, 0x89, 0xed, 0xf7, 0x3b, 0x3e, 0xe9362689, 0xedf73b3e);
    PolyXor(0xf7, 0x71, 0x76, 0x8c, 0xf3, 0xb0, 0x6b, 0x3b, 0xf771768c, 0xf3b06b3b);
    OneOut(0xfbb8bb46, 0xf771768c, 0xf3b06b3b);
    PolyXor(0xf3, 0xb0, 0x6b, 0x3b, 0xf7, 0x71, 0x76, 0x8c, 0xf3b06b3b, 0xf771768c);
    PolyXor(0xfe, 0xf3, 0x4d, 0xe2, 0xfa, 0x32, 0x50, 0x55, 0xfef34de2, 0xfa325055);
    OneOut(0xff79a6f1, 0xfef34de2, 0xfa325055);
    PolyXor(0xfa, 0x32, 0x50, 0x55, 0xfe, 0xf3, 0x4d, 0xe2, 0xfa325055, 0xfef34de2);
  }

  lemma Row15()
    ensures Follows(CRC_ROWS[7], CRC_ROWS[15], 4)
  {
    hide Xor32, Clock;
    PolyXor(0xc2, 0x7d, 0xed, 0xe8, 0xc6, 0xbc, 0xf0, 0x5f, 0xc27dede8, 0xc6bcf05f);
    OneOut(0xe13ef6f4, 0xc27dede8, 0xc6bcf05f);
    PolyXor(0xc6, 0xbc, 0xf0, 0x5f, 0xc2, 0x7d, 0xed, 0xe8, 0xc6bcf05f, 0xc27dede8);
    PolyXor(0xcb, 0xff, 0xd6, 0x86, 0xcf, 0x3e, 0xcb, 0x31, 0xcbffd686, 0xcf3ecb31);
    OneOut(0xe5ffeb43, 0xcbffd686, 0xcf3ecb31);
    PolyXor(0xcf, 0x3e, 0xcb, 0x31, 0xcb, 0xff, 0xd6, 0x86, 0xcf3ecb31, 0xcbffd686);
    PolyXor(0xd1, 0x79, 0x9b, 0x34, 0xd5, 0xb8, 0x86, 0x83, 0xd1799b34, 0xd5b88683);
    OneOut(0xe8bccd9a, 0xd1799b34, 0xd5b88683);
    PolyXor(0xd5, 0xb8, 0x86, 0x83, 0xd1, 0x79, 0x9b, 0x34, 0xd5b88683, 0xd1799b34);
    PolyXor(0xd8, 0xfb, 0xa0, 0x5a, 0xdc, 0x3a, 0xbd, 0xed, 0xd8fba05a, 0xdc3abded);
    OneOut(0xec7dd02d, 0xd8fba05a, 0xdc3abded);
    PolyXor(0xdc, 0x3a, 0xbd, 0xed, 0xd8, 0xfb, 0xa0, 0x5a, 0xdc3abded, 0xd8fba05a);
  }

  lemma Row16()
    ensures Follows(CRC_ROWS[8], CRC_ROWS[16], 0)
  {
    hide Xor32, Clock;
    ZeroOut(0x34867077);
    PolyXor(0x69, 0x0c, 0xe0, 0xee, 0x6d, 0xcd, 0xfd, 0x59, 0x690ce0ee, 0x6dcdfd59);
    ZeroOut(0x30476dc0);
    PolyXor(0x60, 0x8e, 0xdb, 0x80, 0x64, 0x4f, 0xc6, 0x37, 0x608edb80, 0x644fc637);
    ZeroOut(0x3d044b19);
    PolyXor(0x7a, 0x08, 0x96, 0x32, 0x7e, 0xc9, 0x8b, 0x85, 0x7a089632, 0x7ec98b85);
    ZeroOut(0x39c556ae);
    PolyXor(0x73, 0x8a, 0xad, 0x5c, 0x77, 0x4b, 0xb0, 0xeb, 0x738aad5c, 0x774bb0eb);
  }

  lemma Row17()
    ensures Follows(CRC_ROWS[8], CRC_ROWS[17], 4)
  {
    hide Xor32, Clock;
    ZeroOut(0x278206ab);
    PolyXor(0x4f, 0x04, 0x0d, 0x56, 0x4b, 0xc5, 0x10, 0xe1, 0x4f040d56, 0x4bc510e1);
    ZeroOut(0x23431b1c);
    PolyXor(0x46, 0x86, 0x36, 0x38, 0x42, 0x47, 0x2b, 0x8f, 0x46863638, 0x42472b8f);
    ZeroOut(0x2e003dc5);
    PolyXor(0x5c, 0x00, 0x7b, 0x8a, 0x58, 0xc1, 0x66, 0x3d, 0x5c007b8a, 0x58c1663d);
    ZeroOut(0x2ac12072);
    PolyXor(0x55, 0x82, 0x40, 0xe4, 0x51, 0x43, 0x5d, 0x53, 0x558240e4, 0x51435d53);
  }

  lemma Row18()
    ensures Follows(CRC_ROWS[9], CRC_ROWS[18], 0)
  {
    hide Xor32, Clock;
    ZeroOut(0x128e9dcf);
    PolyXor(0x25, 0x1d, 0x3b, 0x9e, 0x21, 0xdc, 0x26, 0x29, 0x251d3b9e, 0x21dc2629);
    ZeroOut(0x164f8078);
    PolyXor(0x2c, 0x9f, 0x00, 0xf0, 0x28, 0x5e, 0x1d, 0x47, 0x2c9f00f0, 0x285e1d47);
    ZeroOut(0x1b0ca6a1);
    PolyXor(0x36, 0x19, 0x4d, 0x42, 0x32, 0xd8, 0x50, 0xf5, 0x36194d42, 0x32d850f5);
    ZeroOut(0x1fcdbb16);
    PolyXor(0x3f, 0x9b, 0x76, 0x2c, 0x3b, 0x5a, 0x6b, 0x9b, 0x3f9b762c, 0x3b5a6b9b);
  }

  lemma Row19()
    ensures Follows(CRC_ROWS[9], CRC_ROWS[19], 4)
  {
    hide Xor32, Clock;
    ZeroOut(0x018aeb13);
    PolyXor(0x03, 0x15, 0xd6, 0x26, 0x07, 0xd4, 0xcb, 0x91, 0x0315d626, 0x07d4cb91);
    ZeroOut(0x054bf6a4);
    PolyXor(0x0a, 0x97, 0xed, 0x48, 0x0e, 0x56, 0xf0, 0xff, 0x0a97ed48, 0x0e56f0ff);
    ZeroOut(0x0808d07d);
    PolyXor(0x10, 0x11, 0xa0, 0xfa, 0x14, 0xd0, 0xbd, 0x4d, 0x1011a0fa, 0x14d0bd4d);
    ZeroOut(0x0cc9cdca);
    PolyXor(0x19, 0x93, 0x9b, 0x94, 0x1d, 0x52, 0x86, 0x23, 0x19939b94, 0x1d528623);
  }

  lemma Row20()
    ensures Follows(CRC_ROWS[10], CRC_ROWS[20], 0)
  {
    hide Xor32, Clock;
    ZeroOut(0x7897ab07);
    PolyXor(0xf1, 0x2f, 0x56, 0x0e, 0xf5, 0xee, 0x4b, 0xb9, 0xf12f560e, 0xf5ee4bb9);
    ZeroOut(0x7c56b6b0);
    PolyXor(0xf8, 0xad, 0x6d, 0x60, 0xfc, 0x6c, 0x70, 0xd7, 0xf8ad6d60, 0xfc6c70d7);
    ZeroOut(0x71159069);
    PolyXor(0xe2, 0x2b, 0x20, 0xd2, 0xe6, 0xea, 0x3d, 0x65, 0xe22b20d2, 0xe6ea3d65);
    ZeroOut(0x75d48dde);
    PolyXor(0xeb, 0xa9, 0x1b, 0xbc, 0xef, 0x68, 0x06, 0x0b, 0xeba91bbc, 0xef68060b);
  }

  lemma Row21()
    ensures Follows(CRC_ROWS[10], CRC_ROWS[21], 4)
  {
    hide Xor32, Clock;
    ZeroOut(0x6b93dddb);
    PolyXor(0xd7, 0x27, 0xbb, 0xb6, 0xd3, 0xe6, 0xa6, 0x01, 0xd727bbb6, 0xd3e6a601);
    ZeroOut(0x6f52c06c);
    PolyXor(0xde, 0xa5, 0x80, 0xd8, 0xda, 0x64, 0x9d, 0x6f, 0xdea580d8, 0xda649d6f);
    ZeroOut(0x6211e6b5);
    PolyXor(0xc4, 0x23, 0xcd, 0x6a, 0xc0, 0xe2, 0xd0, 0xdd, 0xc423cd6a, 0xc0e2d0dd);
    ZeroOut(0x66d0fb02);
    PolyXor(0xcd, 0xa1, 0xf6, 0x04, 0xc9, 0x60, 0xeb, 0xb3, 0xcda1f604, 0xc960ebb3);
  }

  lemma Row22()
    ensures Follows(CRC_ROWS[11], CRC_ROWS[22], 0)
  {
    hide Xor32, Clock;
    ZeroOut(0x5e9f46bf);
    PolyXor(0xbd, 0x3e, 0x8d, 0x7e, 0xb9, 0xff, 0x90, 0xc9, 0xbd3e8d7e, 0xb9ff90c9);
    ZeroOut(0x5a5e5b08);
    PolyXor(0xb4, 0xbc, 0xb6, 0x10, 0xb0, 0x7d, 0xab, 0xa7, 0xb4bcb610, 0xb07daba7);
    ZeroOut(0x571d7dd1);
    PolyXor(0xae, 0x3a, 0xfb, 0xa2, 0xaa, 0xfb, 0xe6, 0x15, 0xae3afba2, 0xaafbe615);
    ZeroOut(0x53dc6066);
    PolyXor(0xa7, 0xb8, 0xc0, 0xcc, 0xa3, 0x79, 0xdd, 0x7b, 0xa7b8c0cc, 0xa379dd7b);
  }

  lemma Row23()
    ensures Follows(CRC_ROWS[11], CRC_ROWS[23], 4)
  {
    hide Xor32, Clock;
    ZeroOut(0x4d9b3063);
    PolyXor(0x9b, 0x36, 0x60, 0xc6, 0x9f, 0xf7, 0x7d, 0x71, 0x9b3660c6, 0x9ff77d71);
    ZeroOut(0x495a2dd4);
    PolyXor(0x92, 0xb4, 0x5b, 0xa8, 0x96, 0x75, 0x46, 0x1f, 0x92b45ba8, 0x9675461f);
    ZeroOut(0x44190b0d);
    PolyXor(0x88, 0x32, 0x16, 0x1a, 0x8c, 0xf3, 0x0b, 0xad, 0x8832161a, 0x8cf30bad);
    ZeroOut(0x40d816ba);
    PolyXor(0x81, 0xb0, 0x2d, 0x74, 0x85, 0x71, 0x30, 0xc3, 0x81b02d74, 0x857130c3);
  }

  lemma Row24()
    ensures Follows(CRC_ROWS[12], CRC_ROWS[24], 0)
  {
    hide Xor32, Clock;
    PolyXor(0x59, 0x4b, 0x8d, 0x2e, 0x5d, 0x8a, 0x90, 0x99, 0x594b8d2e, 0x5d8a9099);
    OneOut(0xaca5c697, 0x594b8d2e, 0x5d8a9099);
    PolyXor(0x5d, 0x8a, 0x90, 0x99, 0x59, 0x4b, 0x8d, 0x2e, 0x5d8a9099, 0x594b8d2e);
    PolyXor(0x50, 0xc9, 0xb6, 0x40, 0x54, 0x08, 0xab, 0xf7, 0x50c9b640, 0x5408abf7);
    OneOut(0xa864db20, 0x50c9b640, 0x5408abf7);
    PolyXor(0x54, 0x08, 0xab, 0xf7, 0x50, 0xc9, 0xb6, 0x40, 0x5408abf7, 0x50c9b640);
    PolyXor(0x4a, 0x4f, 0xfb, 0xf2, 0x4e, 0x8e, 0xe6, 0x45, 0x4a4ffbf2, 0x4e8ee645);
    OneOut(0xa527fdf9, 0x4a4ffbf2, 0x4e8ee645);
    PolyXor(0x4e, 0x8e, 0xe6, 0x45, 0x4a, 0x4f, 0xfb, 0xf2, 0x4e8ee645, 0x4a4ffbf2);
    PolyXor(0x43, 0xcd, 0xc0, 0x9c, 0x47, 0x0c, 0xdd, 0x2b, 0x43cdc09c, 0x470cdd2b);
    OneOut(0xa1e6e04e, 0x43cdc09c, 0x470cdd2b);
    PolyXor(0x47, 0x0c, 0xdd, 0x2b, 0x43, 0xcd, 0xc0, 0x9c, 0x470cdd2b, 0x43cdc09c);
  }

  lemma Row25()
    ensures Follows(CRC_ROWS[12], CRC_ROWS[25], 4)
  {
    hide Xor32, Clock;
    PolyXor(0x7f, 0x43, 0x60, 0x96, 0x7b, 0x82, 0x7d, 0x21, 0x7f436096, 0x7b827d21);
    OneOut(0xbfa1b04b, 0x7f436096, 0x7b827d21);
    PolyXor(0x7b, 0x82, 0x7d, 0x21, 0x7f, 0x43, 0x60, 0x96, 0x7b827d21, 0x7f436096);
    PolyXor(0x76, 0xc1, 0x5b, 0xf8, 0x72, 0x00, 0x46, 0x4f, 0x76c15bf8, 0x7200464f);
    OneOut(0xbb60adfc, 0x76c15bf8, 0x7200464f);
    PolyXor(0x72, 0x00, 0x46, 0x4f, 0x76, 0xc1, 0x5b, 0xf8, 0x7200464f, 0x76c15bf8);
    PolyXor(0x6c, 0x47, 0x16, 0x4a, 0x68, 0x86, 0x0b, 0xfd, 0x6c47164a, 0x68860bfd);
    OneOut(0xb6238b25, 0x6c47164a, 0x68860bfd);
    PolyXor(0x68, 0x86, 0x0b, 0xfd, 0x6c, 0x47, 0x16, 0x4a, 0x68860bfd, 0x6c47164a);
    PolyXor(0x65, 0xc5, 0x2d, 0x24, 0x61, 0x04, 0x30, 0x93, 0x65c52d24, 0x61043093);
    OneOut(0xb2e29692, 0x65c52d24, 0x61043093);
    PolyXor(0x61, 0x04, 0x30, 0x93, 0x65, 0xc5, 0x2d, 0x24, 0x61043093, 0x65c52d24);
  }

  lemma Row26()
    ensures Follows(CRC_ROWS[13], CRC_ROWS[26], 0)
  {
    hide Xor32, Clock;
    PolyXor(0x15, 0x5a, 0x56, 0x5e, 0x11, 0x9b, 0x4b, 0xe9, 0x155a565e, 0x119b4be9);
    OneOut(0x8aad2b2f, 0x155a565e, 0x119b4be9);
    PolyXor(0x11, 0x9b, 0x4b, 0xe9, 0x15, 0x5a, 0x56, 0x5e, 0x119b4be9, 0x155a565e);
    PolyXor(0x1c, 0xd8, 0x6d, 0x30, 0x18, 0x19, 0x70, 0x87, 0x1cd86d30, 0x18197087);
    OneOut(0x8e6c3698, 0x1cd86d30, 0x18197087);
    PolyXor(0x18, 0x19, 0x70, 0x87, 0x1c, 0xd8, 0x6d, 0x30, 0x18197087, 0x1cd86d30);
    PolyXor(0x06, 0x5e, 0x20, 0x82, 0x02, 0x9f, 0x3d, 0x35, 0x065e2082, 0x029f3d35);
    OneOut(0x832f1041, 0x065e2082, 0x029f3d35);
    PolyXor(0x02, 0x9f, 0x3d, 0x35, 0x06, 0x5e, 0x20, 0x82, 0x029f3d35, 0x065e2082);
    PolyXor(0x0f, 0xdc, 0x1b, 0xec, 0x0b, 0x1d, 0x06, 0x5b, 0x0fdc1bec, 0x0b1d065b);
    OneOut(0x87ee0df6, 0x0fdc1bec, 0x0b1d065b);
    PolyXor(0x0b, 0x1d, 0x06, 0x5b, 0x0f, 0xdc, 0x1b, 0xec, 0x0b1d065b, 0x0fdc1bec);
  }

  lemma Row27()
    ensures Follows(CRC_ROWS[13], CRC_ROWS[27], 4)
  {
    hide Xor32, Clock;
    PolyXor(0x33, 0x52, 0xbb, 0xe6, 0x37, 0x93, 0xa6, 0x51, 0x3352bbe6, 0x3793a651);
    OneOut(0x99a95df3, 0x3352bbe6, 0x3793a651);
    PolyXor(0x37, 0x93, 0xa6, 0x51, 0x33, 0x52, 0xbb, 0xe6, 0x3793a651, 0x3352bbe6);
    PolyXor(0x3a, 0xd0, 0x80, 0x88, 0x3e, 0x11, 0x9d, 0x3f, 0x3ad08088, 0x3e119d3f);
    OneOut(0x9d684044, 0x3ad08088, 0x3e119d3f);
    PolyXor(0x3e, 0x11, 0x9d, 0x3f, 0x3a, 0xd0, 0x80, 0x88, 0x3e119d3f, 0x3ad08088);
    PolyXor(0x20, 0x56, 0xcd, 0x3a, 0x24, 0x97, 0xd0, 0x8d, 0x2056cd3a, 0x2497d08d);
    OneOut(0x902b669d, 0x2056cd3a, 0x2497d08d);
    PolyXor(0x24, 0x97, 0xd0, 0x8d, 0x20, 0x56, 0xcd, 0x3a, 0x2497d08d, 0x2056cd3a);
    PolyXor(0x29, 0xd4, 0xf6, 0x54, 0x2d, 0x15, 0xeb, 0xe3, 0x29d4f654, 0x2d15ebe3);
    OneOut(0x94ea7b2a, 0x29d4f654, 0x2d15ebe3);
    PolyXor(0x2d, 0x15, 0xeb, 0xe3, 0x29, 0xd4, 0xf6, 0x54, 0x2d15ebe3, 0x29d4f654);
  }

  lemma Row28()
    ensures Follows(CRC_ROWS[14], CRC_ROWS[28], 0)
  {
    hide Xor32, Clock;
    PolyXor(0xc1, 0x68, 0x3b, 0xce, 0xc5, 0xa9, 0x26, 0x79, 0xc1683bce, 0xc5a92679);
    OneOut(0xe0b41de7, 0xc1683bce, 0xc5a92679);
    PolyXor(0xc5, 0xa9, 0x26, 0x79, 0xc1, 0x68, 0x3b, 0xce, 0xc5a92679, 0xc1683bce);
    PolyXor(0xc8, 0xea, 0x00, 0xa0, 0xcc, 0x2b, 0x1d, 0x17, 0xc8ea00a0, 0xcc2b1d17);
    OneOut(0xe4750050, 0xc8ea00a0, 0xcc2b1d17);
    PolyXor(0xcc, 0x2b, 0x1d, 0x17, 0xc8, 0xea, 0x00, 0xa0, 0xcc2b1d17, 0xc8ea00a0);
    PolyXor(0xd2, 0x6c, 0x4d, 0x12, 0xd6, 0xad, 0x50, 0xa5, 0xd26c4d12, 0xd6ad50a5);
    OneOut(0xe9362689, 0xd26c4d12, 0xd6ad50a5);
    PolyXor(0xd6, 0xad, 0x50, 0xa5, 0xd2, 0x6c, 0x4d, 0x12, 0xd6ad50a5, 0xd26c4d12);
    PolyXor(0xdb, 0xee, 0x76, 0x7c, 0xdf, 0x2f, 0x6b, 0xcb, 0xdbee767c, 0xdf2f6bcb);
    OneOut(0xedf73b3e, 0xdbee767c, 0xdf2f6bcb);
    PolyXor(0xdf, 0x2f, 0x6b, 0xcb, 0xdb, 0xee, 0x76, 0x7c, 0xdf2f6bcb, 0xdbee767c);
  }

  lemma Row29()
    ensures Follows(CRC_ROWS[14], CRC_ROWS[29], 4)
  {
    hide Xor32, Clock;
    PolyXor(0xe7, 0x60, 0xd6, 0x76, 0xe3, 0xa1, 0xcb, 0xc1, 0xe760d676, 0xe3a1cbc1);
    OneOut(0xf3b06b3b, 0xe760d676, 0xe3a1cbc1);
    PolyXor(0xe3, 0xa1, 0xcb, 0xc1, 0xe7, 0x60, 0xd6, 0x76, 0xe3a1cbc1, 0xe760d676);
    PolyXor(0xee, 0xe2, 0xed, 0x18, 0xea, 0x23, 0xf0, 0xaf, 0xeee2ed18, 0xea23f0af);
    OneOut(0xf771768c, 0xeee2ed18, 0xea23f0af);
    PolyXor(0xea, 0x23, 0xf0, 0xaf, 0xee, 0xe2, 0xed, 0x18, 0xea23f0af, 0xeee2ed18);
    PolyXor(0xf4, 0x64, 0xa0, 0xaa, 0xf0, 0xa5, 0xbd, 0x1d, 0xf464a0aa, 0xf0a5bd1d);
    OneOut(0xfa325055, 0xf464a0aa, 0xf0a5bd1d);
    PolyXor(0xf0, 0xa5, 0xbd, 0x1d, 0xf4, 0x64, 0xa0, 0xaa, 0xf0a5bd1d, 0xf464a0aa);
    PolyXor(0xfd, 0xe6, 0x9b, 0xc4, 0xf9, 0x27, 0x86, 0x73, 0xfde69bc4, 0xf9278673);
    OneOut(0xfef34de2, 0xfde69bc4, 0xf9278673);
    PolyXor(0xf9, 0x27, 0x86, 0x73, 0xfd, 0xe6, 0x9b, 0xc4, 0xf9278673, 0xfde69bc4);
  }

  lemma Row30()
    ensures Follows(CRC_ROWS[15], CRC_ROWS[30], 0)
  {
    hide Xor32, Clock;
    PolyXor(0x8d, 0x79, 0xe0, 0xbe, 0x89, 0xb8, 0xfd, 0x09, 0x8d79e0be, 0x89b8fd09);
    OneOut(0xc6bcf05f, 0x8d79e0be, 0x89b8fd09);
    PolyXor(0x89, 0xb8, 0xfd, 0x09, 0x8d, 0x79, 0xe0, 0xbe, 0x89b8fd09, 0x8d79e0be);
    PolyXor(0x84, 0xfb, 0xdb, 0xd0, 0x80, 0x3a, 0xc6, 0x67, 0x84fbdbd0, 0x803ac667);
    OneOut(0xc27dede8, 0x84fbdbd0, 0x803ac667);
    PolyXor(0x80, 0x3a, 0xc6, 0x67, 0x84, 0xfb, 0xdb, 0xd0, 0x803ac667, 0x84fbdbd0);
    PolyXor(0x9e, 0x7d, 0x96, 0x62, 0x9a, 0xbc, 0x8b, 0xd5, 0x9e7d9662, 0x9abc8bd5);
    OneOut(0xcf3ecb31, 0x9e7d9662, 0x9abc8bd5);
    PolyXor(0x9a, 0xbc, 0x8b, 0xd5, 0x9e, 0x7d, 0x96, 0x62, 0x9abc8bd5, 0x9e7d9662);
    PolyXor(0x97, 0xff, 0xad, 0x0c, 0x93, 0x3e, 0xb0, 0xbb, 0x97ffad0c, 0x933eb0bb);
    OneOut(0xcbffd686, 0x97ffad0c, 0x933eb0bb);
    PolyXor(0x93, 0x3e, 0xb0, 0xbb, 0x97, 0xff, 0xad, 0x0c, 0x933eb0bb, 0x97ffad0c);
  }

  lemma Row31()
    ensures Follows(CRC_ROWS[15], CRC_ROWS[31], 4)
  {
    hide Xor32, Clock;
    PolyXor(0xab, 0x71, 0x0d, 0x06, 0xaf, 0xb0, 0x10, 0xb1, 0xab710d06, 0xafb010b1);
    OneOut(0xd5b88683, 0xab710d06, 0xafb010b1);
    PolyXor(0xaf, 0xb0, 0x10, 0xb1, 0xab, 0x71, 0x0d, 0x06, 0xafb010b1, 0xab710d06);
    PolyXor(0xa2, 0xf3, 0x36, 0x68, 0xa6, 0x32, 0x2b, 0xdf, 0xa2f33668, 0xa6322bdf);
    OneOut(0xd1799b34, 0xa2f33668, 0xa6322bdf);
    PolyXor(0xa6, 0x32, 0x2b, 0xdf, 0xa2, 0xf3, 0x36, 0x68, 0xa6322bdf, 0xa2f33668);
    PolyXor(0xb8, 0x75, 0x7b, 0xda, 0xbc, 0xb4, 0x66, 0x6d, 0xb8757bda, 0xbcb4666d);
    OneOut(0xdc3abded, 0xb8757bda, 0xbcb4666d);
    PolyXor(0xbc, 0xb4, 0x66, 0x6d, 0xb8, 0x75, 0x7b, 0xda, 0xbcb4666d, 0xb8757bda);
    PolyXor(0xb1, 0xf7, 0x40, 0xb4, 0xb5, 0x36, 0x5d, 0x03, 0xb1f740b4, 0xb5365d03);
    OneOut(0xd8fba05a, 0xb1f740b4, 0xb5365d03);
    PolyXor(0xb5, 0x36, 0x5d, 0x03, 0xb1, 0xf7, 0x40, 0xb4, 0xb5365d03, 0xb1f740b4);
  }

  // ----- The whole table -----

  lemma AllRows()
    ensures |CRC_ROWS| == 32 && forall k :: 0 <= k < 32 ==> Follows(CRC_ROWS[k / 2], CRC_ROWS[k], 4 * (k % 2))
  {
    hide Follows;
    Row0();
    Row1();
    Row2();
    Row3();
    Row4();
    Row5();
    Row6();
    Row7();
    Row8();
    Row9();
    Row10();
    Row11();
    Row12();
    Row13();
    Row14();
    Row15();
    Row16();
    Row17();
    Row18();
    Row19();
    Row20();
    Row21();
    Row22();
    Row23();
    Row24();
    Row25();
    Row26();
    Row27();
    Row28();
    Row29();
    Row30();
    Row31();
  }

  lemma RowsFollow(rows: seq<seq<u32>>, i: nat)
    requires i < 128 && |rows| == 32 && forall k :: 0 <= k < 32 ==> Follows(rows[k / 2], rows[k], 4 * (k % 2))
    ensures RowEntry(rows, 2 * i) == Clock(RowEntry(rows, i))
    ensures RowEntry(rows, 2 * i + 1) == Xor32(RowEntry(rows, 2 * i), POLY)
  {
    hide Clock, Xor32;
    var k, j := i / 4, i % 4;
    assert Follows(rows[k / 2], rows[k], 4 * (k % 2));
    assert i / 8 == k / 2 && i % 8 == 4 * (k % 2) + j;
    assert (2 * i) / 8 == k && (2 * i) % 8 == 2 * j && (2 * i + 1) / 8 == k && (2 * i + 1) % 8 == 2 * j + 1;
  }

  /** Entry 2 i is one clock from entry i, and entry 2 i + 1 has the polynomial mixed in. */
  lemma EntryFollows(i: nat)
    requires i < 128
    ensures CrcEntry(2 * i) == Clock(CrcEntry(i)) && CrcEntry(2 * i + 1) == Xor32(CrcEntry(2 * i), POLY)
  {
    AllRows();
    hide Clock, Xor32, Follows, RowEntry;
    RowsFollow(CRC_ROWS, i);
  }

  lemma Moved(i: nat, w: nat)
    requires 0 < i < 128 && w == 8
    ensures EightClocks(AtTop(2 * i)) == Clock(EightClocks(AtTop(i)))
  {
    hide Clock, EightClocks;
    EightIs(AtTop(2 * i), w);
    EightIs(AtTop(i), w);
    ZeroIn(AtTop(i));
    ClocksLater(AtTop(i), w);
  }

  lemma ZeroIn(c: u32)
    requires c < 0x8000_0000
    ensures Clock(c) == 2 * c
  {
    ZeroOut(c);
  }

  /** A clock more at the beginning or at the end. */
  lemma {:induction false} ClocksLater(c: u32, n: nat)
    ensures Clocks(Clock(c), n) == Clock(Clocks(c, n))
  {
    hide Clock;
    if n != 0 { ClocksLater(c, n - 1); }
  }

  /** The byte 1 reaches the end in the last clock. */
  lemma FirstEntry()
    ensures EightClocks(AtTop(1)) == POLY && EightClocks(AtTop(0)) == 0
  {
    hide Clock;
    ZeroOut(0x100_0000);
    ZeroOut(0x200_0000);
    ZeroOut(0x400_0000);
    ZeroOut(0x800_0000);
    ZeroOut(0x1000_0000);
    ZeroOut(0x2000_0000);
    ZeroOut(0x4000_0000);
    ZeroOut(0);
    TopClock();
    assert Clocks(0x100_0000, 4) == 0x1000_0000;
    assert Clocks(0, 4) == 0;
  }

  lemma TopClock()
    ensures Clock(0x8000_0000) == POLY
  {
    hide Xor32;
    XorWords(POLY, 0, 0);
  }

  lemma {:induction false} EntryIs(i: nat)
    requires i < 256
    ensures CrcEntry(i) == EightClocks(AtTop(i))
    decreases i
  {
    hide Clock, EightClocks, Xor32, CrcEntry;
    FirstEntry();
    if i < 2 {
      FirstEntries();
    } else {
      EntryIs(i / 2);
      EntryFollows(i / 2);
      Moved(i / 2, 8);
      if i % 2 == 1 { NextByte(i / 2); }
    }
  }

  lemma FirstEntries()
    ensures CrcEntry(0) == 0 && CrcEntry(1) == POLY
  { }

  lemma NextByte(i: nat)
    requires i < 128
    ensures EightClocks(AtTop(2 * i + 1)) == Xor32(EightClocks(AtTop(2 * i)), POLY)
  {
    hide Clock, EightClocks, Xor32;
    FirstEntry();
    EightClocksXor(AtTop(2 * i), AtTop(1), 8);
    OddTop(i);
  }

  lemma EightClocksXor(a: u32, b: u32, w: nat)
    requires w == 8
    ensures EightClocks(Xor32(a, b)) == Xor32(EightClocks(a), EightClocks(b))
  {
    hide EightClocks, Xor32, Clocks;
    EightIs(a, w);
    EightIs(b, w);
    EightIs(Xor32(a, b), w);
    ClocksXor(a, b, w);
  }

  lemma OddTop(i: nat)
    requires i < 128
    ensures Xor32(AtTop(2 * i), AtTop(1)) == AtTop(2 * i + 1)
  {
    hide Xor32, Xor8, Xor;
    WordParts(AtTop(2 * i), AtTop(1), 8, 24, 32);
    EmptyParts(AtTop(2 * i), AtTop(1), 8, 24, 32);
    EvenOne(i, 7);
  }

  lemma EvenOne(i: nat, n: nat)
    requires i < 128 && n == 7
    ensures Xor8(2 * i, 1) == 2 * i + 1
  {
    hide Xor8, Xor, Low;
    ByteIs(2 * i, 1, n + 1);
    XorStep(2 * i, 1, n);
    XorZero(i, n);
    LowOfByte(2 * i, n + 1);
    LowStep(2 * i, n);
  }

  /** crctable.c holds every byte clocked through an empty register. */
  lemma TableIs()
    ensures CrcTable() == ByteTable()
  {
    hide CrcEntry, EightClocks;
    forall i | 0 <= i < 256
      ensures CrcTable()[i] == ByteTable()[i]
    {
      EntryIs(i);
    }
  }

  // ----- What that means for blocks -----

  /** No byte of a block can change without changing the check value sent with it. */
  lemma ChangeDetected(s: seq<byte>, i: nat, c: byte)
    requires i < |s| && c != s[i]
    ensures BlockCrc(CrcTable(), s[i := c]) != BlockCrc(CrcTable(), s)
  {
    hide BlockCrc, CrcTable, LowBytesDiffer, ByteTable;
    TableIs();
    ByteTableDiffers();
    ByteDetected(CrcTable(), s, i, c);
  }

  /** The check value is the complement of a register that starts with all ones and is clocked bit by bit. */
  lemma CheckIsRegister(s: seq<byte>)
    ensures BlockCrc(CrcTable(), s) == 0xffff_ffff - BitRegister(0xffff_ffff, s)
  {
    TableIs();
    hide CrcTable, ByteTable, BlockCrc;
    BlockCrcIs(s);
  }

  // ----- A known value -----

  lemma EntryOfA()
    ensures CrcEntry(0x9e) == 0x19939b94
  { }

  /** Exclusive or of two words whose bytes are written out. */
  lemma BytesMixed(a3: bv8, a2: bv8, a1: bv8, a0: bv8, e3: bv8, e2: bv8, e1: bv8, e0: bv8,
                   c3: bv8, c2: bv8, c1: bv8, c0: bv8, a: u32, e: u32, c: u32)
    requires c3 == a3 ^ e3 && c2 == a2 ^ e2 && c1 == a1 ^ e1 && c0 == a0 ^ e0
    requires a == 256 * (256 * (256 * (a3 as nat) + a2 as nat) + a1 as nat) + a0 as nat
    requires e == 256 * (256 * (256 * (e3 as nat) + e2 as nat) + e1 as nat) + e0 as nat
    requires c == 256 * (256 * (256 * (c3 as nat) + c2 as nat) + c1 as nat) + c0 as nat
    ensures Xor32(a, e) == c
  {
    hide Xor32;
    WordXor(a3, a2, a1, a0, e3, e2, e1, e0, 8);
  }

  lemma IndexOfA(x: byte, y: byte, i: byte, w: nat)
    requires w == 8 && x == 0xff && y == 0x61 && i == 0x9e
    ensures Xor8(x, y) == i
  {
    hide Xor8, Xor;
    ByteValue(0xff, 0x61, w);
    ByteIs(x, y, w);
  }

  lemma UpdateIs(c: u32, ch: byte, a: u32, i: byte, e: u32, r: u32)
    requires a == (c * 256) % 0x1_0000_0000 && Xor8(c / 0x100_0000, ch) == i && CrcEntry(i) == e && Xor32(a, e) == r
    ensures UpdateCrc(CrcTable(), c, ch) == r
  {
    hide Xor32, Xor8, CrcEntry;
  }

  /** The check value of the one-byte block "a". */
  lemma CheckOfA()
    ensures BlockCrc(CrcTable(), [97]) == 0x19939b6b
  {
    hide UpdateCrc, CrcTable, CrcEntry, Xor32, Xor8;
    EntryOfA();
    IndexOfA(0xff, 97, 0x9e, 8);
    BytesMixed(0xff, 0xff, 0xff, 0x00, 0x19, 0x93, 0x9b, 0x94, 0xe6, 0x6c, 0x64, 0x94,
               0xffff_ff00, 0x1993_9b94, 0xe66c_6494);
    UpdateIs(0xffff_ffff, 97, 0xffff_ff00, 0x9e, 0x1993_9b94, 0xe66c_6494);
    assert [97][..0] == [];
  }
}
