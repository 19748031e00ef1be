/** What the check value of a bzip2 block is worth (bzlib_private.h, crctable.c): with the table of crctable.c
    it is the cyclic redundancy check of the polynomial 0x04c11db7, and no byte of a block can change unnoticed. */
module BlockCheckKnown {
  import opened Rotations
  import opened Power
  import opened Bits
  import opened BlockCheck
  import opened Decompress
  import opened BzDecompress

  // ----- Exclusive or -----

  lemma XorStep(a: nat, b: nat, n: nat)
    ensures Xor(a, b, n + 1) == 2 * Xor(a / 2, b / 2, n) + (a + b) % 2
    ensures Xor(a, b, n + 1) / 2 == Xor(a / 2, b / 2, n) && Xor(a, b, n + 1) % 2 == (a + b) % 2
    ensures Xor(a, b, 0) == 0
  { }

  lemma LowStep(x: nat, n: nat)
    ensures Low(x, n + 1) == 2 * Low(x / 2, n) + x % 2 && Low(x, 0) == 0
  { }

  lemma {:induction false} XorLow(a: nat, b: nat, m: nat, n: nat)
    ensures Low(Xor(a, b, m + n), m) == Xor(a, b, m)
    decreases m
  {
    hide Xor, Low;
    XorStep(a, b, 0);
    LowStep(Xor(a, b, m + n), 0);
    if m != 0 {
      XorStep(a, b, m - 1 + n);
      XorStep(a, b, m - 1);
      LowStep(Xor(a, b, m + n), m - 1);
      XorLow(a / 2, b / 2, m - 1, n);
    }
  }

  lemma {:induction false} XorShr(a: nat, b: nat, m: nat, n: nat)
    ensures Shr(Xor(a, b, m + n), m) == Xor(Shr(a, m), Shr(b, m), n)
    decreases m
  {
    if m != 0 {
      XorStep(a, b, m - 1 + n);
      hide Xor;
      XorShr(a / 2, b / 2, m - 1, n);
    }
  }

  lemma Halves(x: nat, p: nat, y: nat, q: nat)
    requires 2 * x + p == 2 * y + q && p < 2 && q < 2
    ensures x == y && p == q
  { }

  lemma ParityOf(a: nat, b: nat, c: nat)
    requires a % 2 == c % 2
    ensures (a + b) % 2 == (c + b) % 2
  { }

  /** Only the low bits count. */
  lemma {:induction false} XorOfLow(a: nat, b: nat, c: nat, n: nat)
    requires Low(a, n) == Low(c, n)
    ensures Xor(a, b, n) == Xor(c, b, n)
    decreases n
  {
    hide Xor, Low;
    XorStep(a, b, 0);
    XorStep(c, b, 0);
    if n != 0 {
      LowStep(a, n - 1);
      LowStep(c, n - 1);
      XorStep(a, b, n - 1);
      XorStep(c, b, n - 1);
      Halves(Low(a / 2, n - 1), a % 2, Low(c / 2, n - 1), c % 2);
      ParityOf(a, b, c);
      XorOfLow(a / 2, b / 2, c / 2, n - 1);
    }
  }

  lemma {:induction false} XorZero(a: nat, n: nat)
    ensures Xor(a, 0, n) == Low(a, n) && Xor(0, a, n) == Low(a, n)
    decreases n
  {
    if n != 0 { XorZero(a / 2, n - 1); }
  }

  lemma {:induction false} XorItself(a: nat, n: nat)
    ensures Xor(a, a, n) == 0
    decreases n
  {
    if n != 0 { XorItself(a / 2, n - 1); }
  }

  lemma {:induction false} XorCommutes(a: nat, b: nat, n: nat)
    ensures Xor(a, b, n) == Xor(b, a, n)
    decreases n
  {
    if n != 0 { XorCommutes(a / 2, b / 2, n - 1); }
  }

  lemma Parities(a: nat, b: nat, c: nat, x: nat, y: nat)
    requires x % 2 == (a + b) % 2 && y % 2 == (b + c) % 2
    ensures (x + c) % 2 == (a + y) % 2
  { }

  lemma {:induction false} XorAssociates(a: nat, b: nat, c: nat, n: nat)
    ensures Xor(Xor(a, b, n), c, n) == Xor(a, Xor(b, c, n), n)
    decreases n
  {
    hide Xor;
    XorStep(a, b, 0);
    XorStep(0, c, 0);
    XorStep(a, 0, 0);
    XorStep(b, c, 0);
    if n != 0 {
      XorAssociates(a / 2, b / 2, c / 2, n - 1);
      var x, y := Xor(a, b, n), Xor(b, c, n);
      XorStep(a, b, n - 1);
      XorStep(b, c, n - 1);
      XorStep(x, c, n - 1);
      XorStep(a, y, n - 1);
      Parities(a, b, c, x, y);
    }
  }

  lemma SameParity(a: nat, b: nat, c: nat)
    requires (a + c) % 2 == (b + c) % 2
    ensures a % 2 == b % 2
  { }

  lemma {:induction false} XorInjective(a: nat, b: nat, c: nat, n: nat)
    requires Xor(a, c, n) == Xor(b, c, n)
    ensures Low(a, n) == Low(b, n)
    decreases n
  {
    hide Xor, Low;
    LowStep(a, 0);
    LowStep(b, 0);
    if n != 0 {
      XorStep(a, c, n - 1);
      XorStep(b, c, n - 1);
      LowStep(a, n - 1);
      LowStep(b, n - 1);
      Halves(Xor(a / 2, c / 2, n - 1), (a + c) % 2, Xor(b / 2, c / 2, n - 1), (b + c) % 2);
      SameParity(a, b, c);
      XorInjective(a / 2, b / 2, c / 2, n - 1);
    }
  }

  // ----- Words and bytes: the widths are variables here, so that nothing is unrolled -----

  ghost predicate Widths3(w: nat, m: nat, n: nat) { w == 8 && m == 24 && n == 32 }

  lemma WordIs(a: u32, b: u32, n: nat)
    requires n == 32
    ensures Xor32(a, b) == Xor(a, b, n)
  { }

  lemma ByteIs(a: byte, b: byte, n: nat)
    requires n == 8
    ensures Xor8(a, b) == Xor(a, b, n)
  { }

  lemma ShlIs(x: nat, w: nat, m: nat, n: nat)
    requires Widths3(w, m, n)
    ensures Shl(x, w) == 256 * x && Shl(x, m) == 0x100_0000 * x && Shl(x, n) == 0x1_0000_0000 * x
  {
    hide Shl;
    ShlBytes(x);
    ShlBytes(Shl(x, w));
    ShlTwice(x, w, m);
  }

  lemma PowIs(w: nat, m: nat, n: nat)
    requires Widths3(w, m, n)
    ensures Pow2(w) == 256 && Pow2(m) == 0x100_0000 && Pow2(n) == 0x1_0000_0000
  {
    Widths();
    hide Pow2;
    Pow2Add(w, w);
    Pow2Add(w + w, w);
  }

  lemma LowIs(x: nat, w: nat, m: nat, n: nat)
    requires Widths3(w, m, n)
    ensures Low(x, w) == x % 256 && Low(x, m) == x % 0x100_0000 && Low(x, n) == x % 0x1_0000_0000
    ensures Shr(x, m) == x / 0x100_0000 && Shr(x, w) == x / 256
  {
    hide Low, Shr, Shl, Pow2;
    PowIs(w, m, n);
    ShrLow(x, w);
    ShrLow(x, m);
    ShrLow(x, n);
    ShlIs(Shr(x, w), w, m, n);
    ShlIs(Shr(x, m), w, m, n);
    ShlIs(Shr(x, n), w, m, n);
  }

  lemma XorWords(a: u32, b: u32, c: u32)
    ensures Xor32(a, b) == Xor32(b, a) && Xor32(Xor32(a, b), c) == Xor32(a, Xor32(b, c))
    ensures Xor32(a, 0) == a && Xor32(0, a) == a && Xor32(a, a) == 0 && (Xor32(a, c) == Xor32(b, c) ==> a == b)
  {
    hide Xor32, Xor, Low;
    var n: nat :| n == 32;
    WordLaws(a, b, c, n);
  }

  lemma WordLaws(a: u32, b: u32, c: u32, n: nat)
    requires n == 32
    ensures Xor32(a, b) == Xor32(b, a) && Xor32(Xor32(a, b), c) == Xor32(a, Xor32(b, c))
    ensures Xor32(a, 0) == a && Xor32(0, a) == a && Xor32(a, a) == 0 && (Xor32(a, c) == Xor32(b, c) ==> a == b)
  {
    hide Xor32, Xor, Low;
    WordIs(a, b, n);
    WordIs(b, a, n);
    XorCommutes(a, b, n);
    WordAssociates(a, b, c, n);
    WordZero(a, n);
    if Xor32(a, c) == Xor32(b, c) { WordInjective(a, b, c, n); }
  }

  lemma WordAssociates(a: u32, b: u32, c: u32, n: nat)
    requires n == 32
    ensures Xor32(Xor32(a, b), c) == Xor32(a, Xor32(b, c))
  {
    hide Xor32, Xor;
    WordIs(a, b, n);
    WordIs(b, c, n);
    WordIs(Xor32(a, b), c, n);
    WordIs(a, Xor32(b, c), n);
    XorAssociates(a, b, c, n);
  }

  lemma WordZero(a: u32, n: nat)
    requires n == 32
    ensures Xor32(a, 0) == a && Xor32(0, a) == a && Xor32(a, a) == 0
  {
    hide Xor32, Xor, Low, Shr;
    WordIs(a, a, n);
    WordIs(a, 0, n);
    WordIs(0, a, n);
    XorZero(a, n);
    XorItself(a, n);
    LowIs(a, n - 24, n - 8, n);
  }

  lemma WordInjective(a: u32, b: u32, c: u32, n: nat)
    requires n == 32 && Xor32(a, c) == Xor32(b, c)
    ensures a == b
  {
    hide Xor32, Xor, Low, Shr;
    WordIs(a, c, n);
    WordIs(b, c, n);
    LowIs(a, n - 24, n - 8, n);
    LowIs(b, n - 24, n - 8, n);
    XorInjective(a, b, c, n);
  }

  lemma ByteLaws(a: byte, b: byte, c: byte, w: nat)
    requires w == 8
    ensures Xor8(a, b) == Xor8(b, a) && Xor8(a, 0) == a && Xor8(a, a) == 0 && (Xor8(a, c) == Xor8(b, c) ==> a == b)
  {
    hide Xor8, Xor, Low, Shr;
    ByteIs(a, b, w);
    ByteIs(b, a, w);
    ByteIs(a, c, w);
    ByteIs(b, c, w);
    ByteIs(a, a, w);
    ByteIs(a, 0, w);
    XorCommutes(a, b, w);
    XorZero(a, w);
    XorItself(a, w);
    LowIs(a, w, w + 16, w + 24);
    LowIs(b, w, w + 16, w + 24);
    if Xor8(a, c) == Xor8(b, c) { XorInjective(a, b, c, w); }
  }

  /** A word as its highest byte and the rest. */
  lemma WordParts(a: u32, b: u32, w: nat, m: nat, n: nat)
    requires Widths3(w, m, n)
    ensures Xor32(a, b) / 0x100_0000 == Xor8(a / 0x100_0000, b / 0x100_0000)
    ensures Xor32(a, b) % 0x100_0000 == Xor(a, b, m)
    ensures Xor32(a, b) % 256 == Xor(a, b, w)
  {
    hide Xor32, Xor8, Xor, Low, Shr;
    WordIs(a, b, n);
    ByteIs(a / 0x100_0000, b / 0x100_0000, w);
    XorShr(a, b, m, w);
    XorLow(a, b, m, w);
    XorLow(a, b, w, m);
    LowIs(a, w, m, n);
    LowIs(b, w, m, n);
    LowIs(Xor32(a, b), w, m, n);
  }

  /** Where one word is empty the other shows. */
  lemma EmptyParts(a: u32, b: u32, w: nat, m: nat, n: nat)
    requires Widths3(w, m, n)
    ensures a % 0x100_0000 == 0 ==> Xor(a, b, m) == b % 0x100_0000
    ensures b % 0x100_0000 == 0 ==> Xor(a, b, m) == a % 0x100_0000
    ensures a % 256 == 0 ==> Xor(a, b, w) == b % 256
    ensures a % 256 == b % 256 ==> Xor(a, b, w) == 0
  {
    hide Xor, Low, Shr;
    LowIs(a, w, m, n);
    LowIs(b, w, m, n);
    LowIs(0, w, m, n);
    XorZero(a, m);
    XorZero(b, m);
    XorZero(b, w);
    XorItself(b, w);
    XorCommutes(a, b, m);
    if a % 0x100_0000 == 0 { XorOfLow(a, b, 0, m); }
    if b % 0x100_0000 == 0 {
      XorOfLow(b, a, 0, m);
      XorZero(a, m);
    }
    if a % 256 == 0 { XorOfLow(a, b, 0, w); }
    if a % 256 == b % 256 { XorOfLow(a, b, b, w); }
  }

  // ----- Any table whose low bytes differ -----

  /** The low bytes of the table are pairwise different. */
  ghost predicate LowBytesDiffer(table: seq<u32>) {
    forall i, j :: 0 <= i < j < |table| ==> table[i] % 256 != table[j] % 256
  }

  lemma LowByteLeft(table: seq<u32>, c: u32, ch: byte)
    requires |table| == 256
    ensures UpdateCrc(table, c, ch) % 256 == table[Xor8(c / 0x100_0000, ch)] % 256
  {
    hide Xor32, Xor8, Xor;
    var a, b := (c * 256) % 0x1_0000_0000, table[Xor8(c / 0x100_0000, ch)];
    WordParts(a, b, 8, 24, 32);
    EmptyParts(a, b, 8, 24, 32);
  }

  lemma SameIndex(table: seq<u32>, i: nat, j: nat)
    requires LowBytesDiffer(table) && i < |table| && j < |table| && table[i] % 256 == table[j] % 256
    ensures i == j
  { }

  /** One step loses nothing of the register... */
  lemma UpdateInjective(table: seq<u32>, c: u32, d: u32, ch: byte)
    requires |table| == 256 && LowBytesDiffer(table) && UpdateCrc(table, c, ch) == UpdateCrc(table, d, ch)
    ensures c == d
  {
    hide LowBytesDiffer, Xor32, Xor8;
    var i, j := Xor8(c / 0x100_0000, ch), Xor8(d / 0x100_0000, ch);
    LowByteLeft(table, c, ch);
    LowByteLeft(table, d, ch);
    SameIndex(table, i, j);
    ByteLaws(c / 0x100_0000, d / 0x100_0000, ch, 8);
    XorWords((c * 256) % 0x1_0000_0000, (d * 256) % 0x1_0000_0000, table[i]);
  }

  /** ...nor of the byte. */
  lemma ByteInjective(table: seq<u32>, c: u32, x: byte, y: byte)
    requires |table| == 256 && LowBytesDiffer(table) && UpdateCrc(table, c, x) == UpdateCrc(table, c, y)
    ensures x == y
  {
    hide LowBytesDiffer, Xor32, Xor8;
    LowByteLeft(table, c, x);
    LowByteLeft(table, c, y);
    SameIndex(table, Xor8(c / 0x100_0000, x), Xor8(c / 0x100_0000, y));
    ByteLaws(c / 0x100_0000, x, 0, 8);
    ByteLaws(c / 0x100_0000, y, 0, 8);
    ByteLaws(x, y, c / 0x100_0000, 8);
  }

  lemma {:induction false} RegisterDetects(table: seq<u32>, crc: u32, s: seq<byte>, i: nat, c: byte)
    requires |table| == 256 && LowBytesDiffer(table) && i < |s| && c != s[i]
    ensures CrcOf(table, crc, s[i := c]) != CrcOf(table, crc, s)
    decreases |s|
  {
    hide LowBytesDiffer, UpdateCrc;
    var t, n := s[i := c], |s| - 1;
    if i == n {
      assert t[..n] == s[..n];
      if UpdateCrc(table, CrcOf(table, crc, s[..n]), c) == UpdateCrc(table, CrcOf(table, crc, s[..n]), s[n]) {
        ByteInjective(table, CrcOf(table, crc, s[..n]), c, s[n]);
      }
    } else {
      assert t[..n] == s[..n][i := c];
      RegisterDetects(table, crc, s[..n], i, c);
      if UpdateCrc(table, CrcOf(table, crc, t[..n]), s[n]) == UpdateCrc(table, CrcOf(table, crc, s[..n]), s[n]) {
        UpdateInjective(table, CrcOf(table, crc, t[..n]), CrcOf(table, crc, s[..n]), s[n]);
      }
    }
  }

  /** No byte of a block can change without changing its check value. */
  lemma ByteDetected(table: seq<u32>, s: seq<byte>, i: nat, c: byte)
    requires |table| == 256 && LowBytesDiffer(table) && i < |s| && c != s[i]
    ensures BlockCrc(table, s[i := c]) != BlockCrc(table, s)
  {
    RegisterDetects(table, CRC_INIT, s, i, c);
  }

  // ----- The shift register -----

  /** x^32 + x^26 + x^23 + x^22 + x^16 + x^12 + x^11 + x^10 + x^8 + x^7 + x^5 + x^4 + x^2 + x + 1, the highest
      power first. */
  const POLY: u32 := 0x04c11db7

  /** Shifting up drops the highest bit. */
  function Doubled(a: u32): u32 { (2 * a) % 0x1_0000_0000 }

  /** One clock: the highest bit is shifted out. */
  function Clock(c: u32): u32 {
    Xor32(Doubled(c), if c >= 0x8000_0000 then POLY else 0)
  }

  function Clocks(c: u32, n: nat): u32 {
    if n == 0 then c else Clock(Clocks(c, n - 1))
  }

  /** A whole byte of clocks. */
  function EightClocks(c: u32): u32 {
    var n := 8;
    Clocks(c, n)
  }

  lemma EightIs(c: u32, w: nat)
    requires w == 8
    ensures EightClocks(c) == Clocks(c, w)
  { }

  /** The register after the bytes of `s`, each fed into its highest bits and clocked through. */
  ghost function BitRegister(c: u32, s: seq<byte>): u32 {
    if s == [] then c else EightClocks(Xor32(BitRegister(c, s[..|s| - 1]), AtTop(s[|s| - 1])))
  }

  /** A byte in the highest place. */
  function AtTop(ch: byte): u32 { ch as int * 0x100_0000 }

  /** A byte clocked through an empty register, for all bytes. */
  ghost function ByteTable(): (t: seq<u32>)
    ensures |t| == 256
  {
    seq(256, i requires 0 <= i < 256 => EightClocks(AtTop(i)))
  }

  lemma OneBitXor(a: nat, b: nat, n: nat)
    requires a < 2 && b < 2 && n == 1
    ensures Xor(a, b, n) == if a == b then 0 else 1
  {
    XorStep(a, b, 0);
  }

  lemma TopShr(a: u32, n: nat)
    requires n == 31
    ensures Shr(a, n) == a / 0x8000_0000
  {
    PowIs(8, 24, n + 1);
    assert Pow2(n + 1) == 2 * Pow2(n);
    hide Pow2, Low, Shr;
    ShrLow(a, n);
    ShlPow(Shr(a, n), n);
  }

  lemma {:induction false} ShlPow(x: nat, n: nat)
    ensures Shl(x, n) == x * Pow2(n)
  {
    if n != 0 { ShlPow(x, n - 1); }
  }

  lemma XorTop(a: u32, b: u32, n: nat, one: nat)
    requires n == 31 && one == 1
    ensures Xor32(a, b) >= 0x8000_0000 <==> (a >= 0x8000_0000) != (b >= 0x8000_0000)
  {
    hide Xor32, Xor, Low, Shr;
    WordIs(a, b, n + one);
    XorShr(a, b, n, one);
    TopShr(a, n);
    TopShr(b, n);
    TopShr(Xor32(a, b), n);
    OneBitXor(a / 0x8000_0000, b / 0x8000_0000, one);
  }

  lemma XorDoubled(a: u32, b: u32, n: nat, one: nat)
    requires n == 32 && one == 1
    ensures Doubled(Xor32(a, b)) == Xor32(Doubled(a), Doubled(b))
  {
    hide Xor32, Xor, Low, Doubled;
    WordIs(a, b, n);
    WordIs(Doubled(a), Doubled(b), n);
    LowDoubled(Xor32(a, b), n);
    XorTwice(a, b, n);
    XorLow(2 * a, 2 * b, n, one);
    XorOfDoubled(a, b, n);
  }

  lemma XorTwice(a: nat, b: nat, n: nat)
    ensures Xor(2 * a, 2 * b, n + 1) == 2 * Xor(a, b, n)
  {
    XorStep(2 * a, 2 * b, n);
  }

  lemma XorOfDoubled(a: u32, b: u32, n: nat)
    requires n == 32
    ensures Xor(2 * a, 2 * b, n) == Xor(Doubled(a), Doubled(b), n)
  {
    hide Xor, Low, Doubled;
    LowDoubled(a, n);
    LowDoubled(b, n);
    XorOfLow(2 * a, 2 * b, Doubled(a), n);
    XorCommutes(Doubled(a), 2 * b, n);
    XorOfLow(2 * b, Doubled(a), Doubled(b), n);
    XorCommutes(Doubled(b), Doubled(a), n);
  }

  lemma LowDoubled(a: u32, n: nat)
    requires n == 32
    ensures Low(2 * a, n) == Doubled(a) == Low(Doubled(a), n)
  {
    hide Low, Shr;
    LowIs(2 * a, n - 24, n - 8, n);
    LowIs(Doubled(a), n - 24, n - 8, n);
  }

  lemma ClockXor(a: u32, b: u32)
    ensures Clock(Xor32(a, b)) == Xor32(Clock(a), Clock(b))
  {
    hide Xor32, Doubled;
    XorTop(a, b, 31, 1);
    XorDoubled(a, b, 32, 1);
    var x, y := Doubled(a), Doubled(b);
    var p, q := if a >= 0x8000_0000 then POLY else 0, if b >= 0x8000_0000 then POLY else 0;
    FourXor(x, p, y, q);
    XorWords(POLY, 0, 0);
    XorWords(0, 0, 0);
  }

  lemma FourXor(x: u32, p: u32, y: u32, q: u32)
    ensures Xor32(Xor32(x, p), Xor32(y, q)) == Xor32(Xor32(x, y), Xor32(p, q))
  {
    hide Xor32;
    XorWords(x, p, Xor32(y, q));
    XorWords(p, y, q);
    XorWords(y, p, q);
    XorWords(x, y, Xor32(p, q));
  }

  lemma {:induction false} ClocksXor(a: u32, b: u32, n: nat)
    ensures Clocks(Xor32(a, b), n) == Xor32(Clocks(a, n), Clocks(b, n))
  {
    hide Xor32, Clock;
    if n != 0 {
      ClocksXor(a, b, n - 1);
      ClockXor(Clocks(a, n - 1), Clocks(b, n - 1));
    }
  }

  /** A clock that shifts out a zero. */
  lemma ZeroOut(c: u32)
    requires c < 0x8000_0000
    ensures Clock(c) == 2 * c
  {
    hide Xor32;
    XorWords(2 * c, 0, 0);
  }

  /** Clocks of a register whose highest bits are empty. */
  lemma {:induction false} ClocksShift(c: u32, n: nat)
    requires n <= 8 && c < 0x100_0000
    ensures Clocks(c, n) == Pow2(n) * c && Pow2(n) <= 256
  {
    hide Clock;
    if n != 0 {
      ClocksShift(c, n - 1);
      SmallPow(n - 1);
      Below(Pow2(n - 1), c);
      ZeroOut(Clocks(c, n - 1));
      Twice(Pow2(n - 1), c);
    }
  }

  lemma Twice(x: nat, c: nat)
    ensures 2 * (x * c) == (2 * x) * c
  { }

  lemma SmallPow(n: nat)
    requires n < 8
    ensures Pow2(n) <= 128
  {
    Pow2Monotone(n, 7);
    assert Pow2(7) == 128;
  }

  lemma Below(x: nat, c: nat)
    requires x <= 128 && c < 0x100_0000
    ensures x * c < 0x8000_0000
  {
    assert x * c <= 128 * c;
  }

  lemma ClocksByte(c: u32, w: nat)
    requires c < 0x100_0000 && w == 8
    ensures Clocks(c, w) == 256 * c
  {
    hide Clocks, Pow2;
    ClocksShift(c, w);
    PowIs(w, 24, 32);
  }

  /** A byte mixed into the highest bits, and the rest of the register. */
  lemma SplitTop(c: u32, ch: byte)
    ensures Xor32(c, AtTop(ch)) == Xor32(AtTop(Xor8(c / 0x100_0000, ch)), c % 0x100_0000)
  {
    hide Xor32, Xor8, Xor;
    var k, lo := Xor8(c / 0x100_0000, ch), c % 0x100_0000;
    ByteLaws(k, 0, 0, 8);
    WordParts(c, AtTop(ch), 8, 24, 32);
    EmptyParts(c, AtTop(ch), 8, 24, 32);
    WordParts(AtTop(k), lo, 8, 24, 32);
    EmptyParts(AtTop(k), lo, 8, 24, 32);
  }

  /** The table step is eight clocks. */
  lemma UpdateIsClocks(c: u32, ch: byte, w: nat)
    requires w == 8
    ensures UpdateCrc(ByteTable(), c, ch) == EightClocks(Xor32(c, AtTop(ch)))
  {
    hide Xor32, Xor8, Clocks, EightClocks;
    EightIs(AtTop(Xor8(c / 0x100_0000, ch)), w);
    EightIs(Xor32(c, AtTop(ch)), w);
    var k, lo := Xor8(c / 0x100_0000, ch), c % 0x100_0000;
    SplitTop(c, ch);
    ClocksXor(AtTop(k), lo, w);
    ClocksByte(lo, w);
    assert (c * 256) % 0x1_0000_0000 == 256 * lo;
    XorWords(Clocks(AtTop(k), w), 256 * lo, 0);
  }

  /** The check value is that of the bit-by-bit register, complemented before and after. */
  lemma {:induction false} CrcIsRegister(c: u32, s: seq<byte>)
    ensures CrcOf(ByteTable(), c, s) == BitRegister(c, s)
  {
    hide UpdateCrc, EightClocks, Xor32, ByteTable;
    if s != [] {
      CrcIsRegister(c, s[..|s| - 1]);
      UpdateIsClocks(BitRegister(c, s[..|s| - 1]), s[|s| - 1], 8);
    }
  }

  lemma BlockCrcIs(s: seq<byte>)
    ensures BlockCrc(ByteTable(), s) == 0xffff_ffff - BitRegister(0xffff_ffff, s)
  {
    CrcIsRegister(0xffff_ffff, s);
  }

  /** No clock loses anything: the polynomial is odd. */
  lemma ClockInjective(a: u32, b: u32)
    requires Clock(a) == Clock(b)
    ensures a == b
  {
    hide Xor32;
    ClockParity(a, 31);
    ClockParity(b, 31);
    XorWords(Doubled(a), Doubled(b), POLY);
    XorWords(Doubled(a), Doubled(b), 0);
  }

  lemma ClockParity(a: u32, n: nat)
    requires n == 31
    ensures Clock(a) % 2 == 1 <==> a >= 0x8000_0000
  {
    hide Xor32, Xor;
    var p := if a >= 0x8000_0000 then POLY else 0;
    WordIs(Doubled(a), p, n + 1);
    XorStep(Doubled(a), p, n);
  }

  lemma {:induction false} ClocksInjective(a: u32, b: u32, n: nat)
    requires Clocks(a, n) == Clocks(b, n)
    ensures a == b
  {
    hide Clock;
    if n != 0 {
      ClockInjective(Clocks(a, n - 1), Clocks(b, n - 1));
      ClocksInjective(a, b, n - 1);
    }
  }

  /** That table's low bytes differ: were two the same, the difference of their bytes would be a shifted word. */
  lemma ByteTableDiffers()
    ensures LowBytesDiffer(ByteTable())
  {
    hide EightClocks, Xor32;
    forall i, j | 0 <= i < j < 256
      ensures ByteTable()[i] % 256 != ByteTable()[j] % 256
    {
      if ByteTable()[i] % 256 == ByteTable()[j] % 256 { SameLowByte(i, j, 8); }
    }
  }

  lemma SameLowByte(i: byte, j: byte, w: nat)
    requires w == 8 && EightClocks(AtTop(i)) % 256 == EightClocks(AtTop(j)) % 256
    ensures i == j
  {
    hide Clocks, EightClocks, Xor32, Xor8, Xor;
    EightIs(AtTop(i), w);
    EightIs(AtTop(j), w);
    var a, b := Clocks(AtTop(i), w), Clocks(AtTop(j), w);
    var x := Xor32(a, b);
    WordParts(a, b, w, 24, 32);
    EmptyParts(a, b, w, 24, 32);
    ClocksXor(AtTop(i), AtTop(j), w);
    ClocksByte(x / 256, w);
    ClocksInjective(Xor32(AtTop(i), AtTop(j)), x / 256, w);
    WordParts(AtTop(i), AtTop(j), w, 24, 32);
    ByteLaws(j, j, j, w);
    ByteLaws(i, j, j, w);
  }

  // ----- The check value of all blocks -----

  /** The value so far is rotated by one bit, the highest to the lowest place, and the next one mixed in. */
  lemma CombineIs(c: u32, x: u32)
    ensures c < 0x8000_0000 ==> Combine(c, x) == Xor32(2 * c, x)
    ensures c >= 0x8000_0000 ==> Combine(c, x) == Xor32(2 * c - 0xffff_ffff, x)
    ensures Combine(0, x) == x && Combine(0x8000_0000, 0) == 1
  {
    hide Xor32;
    XorWords(x, 0, 0);
    XorWords(1, 0, 0);
  }

  /** Neither part can change alone without changing the result. */
  lemma CombineInjective(c: u32, d: u32, x: u32, y: u32)
    ensures Combine(c, x) == Combine(d, x) ==> c == d
    ensures Combine(c, x) == Combine(c, y) ==> x == y
  {
    hide Xor32, Rotated;
    var a, b := Rotated(c), Rotated(d);
    RotatedIs(c, x);
    RotatedIs(c, y);
    RotatedIs(d, x);
    RotatedInjective(c, d);
    XorWords(a, b, x);
    XorWords(a, x, 0);
    XorWords(a, y, 0);
    XorWords(x, y, a);
  }

  function Rotated(c: u32): u32 { (c * 2) % 0x1_0000_0000 + c / 0x8000_0000 }

  lemma RotatedIs(c: u32, x: u32)
    ensures Combine(c, x) == Xor32(Rotated(c), x)
  {
    hide Xor32;
  }

  lemma RotatedInjective(c: u32, d: u32)
    ensures Rotated(c) == Rotated(d) ==> c == d
  {
    RotatedParts(c);
    RotatedParts(d);
    hide Rotated;
  }

  lemma RotatedParts(c: u32)
    ensures c < 0x8000_0000 ==> Rotated(c) == 2 * c
    ensures c >= 0x8000_0000 ==> Rotated(c) == 2 * (c - 0x8000_0000) + 1
  { }

  /** If the check value of one block changes, so does that of the stream. */
  lemma {:induction false} StreamDetects(table: seq<u32>, bl: seq<Sent>, bl': seq<Sent>, i: nat, n: nat)
    requires |table| == 256 && i < n <= |bl| == |bl'| && (forall j :: 0 <= j < n && j != i ==> bl'[j] == bl[j])
    requires BlockCrc(table, PlainOf(bl'[i])) != BlockCrc(table, PlainOf(bl[i]))
    ensures Combined(table, bl', n) != Combined(table, bl, n)
    decreases n
  {
    hide BlockCrc, PlainOf, Combine;
    var c, d := Combined(table, bl, n - 1), Combined(table, bl', n - 1);
    var x, y := BlockCrc(table, PlainOf(bl[n - 1])), BlockCrc(table, PlainOf(bl'[n - 1]));
    CombineInjective(c, d, x, y);
    if i < n - 1 {
      StreamDetects(table, bl, bl', i, n - 1);
    } else {
      SameFront(table, bl, bl', n - 1);
    }
  }

  lemma {:induction false} SameFront(table: seq<u32>, bl: seq<Sent>, bl': seq<Sent>, n: nat)
    requires |table| == 256 && n <= |bl| == |bl'| && forall j :: 0 <= j < n ==> bl'[j] == bl[j]
    ensures Combined(table, bl', n) == Combined(table, bl, n)
  {
    hide BlockCrc, PlainOf, Combine;
    if n > 0 { SameFront(table, bl, bl', n - 1); }
  }
}
