/** What the checksum of zlib's crc32.c is worth, and values of it that are known from elsewhere. */
module Crc32Known {
  import opened Words
  import opened Crc32

  // ----- The complement -----

  /** The register is complemented before and after. */
  lemma NotIs(a: Word)
    ensures Xor(a, Not(a)) == 0xffffffff && Not(a) != a && Not(0) == 0xffffffff
  { }

  // ----- No clock loses anything -----

  lemma StepNotZero(c: Word)
    ensures Step(c) == 0 ==> c == 0
  { }

  lemma {:induction false} StepsNotZero(c: Word, n: nat)
    ensures Steps(c, n) == 0 ==> c == 0
    decreases n
  {
    hide Step;
    if n > 0 {
      StepsNotZero(Step(c), n - 1);
      StepNotZero(c);
    }
  }

  lemma XorZero(a: Word, b: Word)
    ensures Xor(a, b) == 0 <==> a == b
  { }

  lemma StepsInjective(a: Word, b: Word, n: nat)
    requires Steps(a, n) == Steps(b, n)
    ensures a == b
  {
    hide Steps, Xor;
    StepsXor(a, b, n);
    XorZero(Steps(a, n), Steps(b, n));
    StepsNotZero(Xor(a, b), n);
    XorZero(a, b);
  }

  /** From different registers the same bytes lead to different registers. */
  lemma {:induction false} RegisterInjective(a: Word, b: Word, s: seq<bv8>)
    requires Register(a, s) == Register(b, s)
    ensures a == b
    decreases |s|
  {
    hide Steps, Xor, FromByte;
    if s != [] {
      var x := FromByte(s[0]);
      RegisterInjective(Steps(Xor(a, x), 8), Steps(Xor(b, x), 8), s[1..]);
      StepsInjective(Xor(a, x), Xor(b, x), 8);
      XorCancel(a, x);
      XorCancel(b, x);
    }
  }

  lemma NotInjective(a: Word, b: Word)
    ensures Not(a) == Not(b) ==> a == b
  { }

  // ----- What it detects -----

  /** Four neighbouring bytes cannot change without changing the checksum, whatever they change to. */
  lemma FourDetected(crc: Word, s: seq<bv8>, x: seq<bv8>, y: seq<bv8>, t: seq<bv8>)
    requires |x| == |y| == 4 && x != y
    ensures Crc(crc, s + x + t) != Crc(crc, s + y + t)
  {
    hide Steps, Xor, FromByte, Not, Register, LoadLittle;
    var c := Register(Not(crc), s);
    RegisterConcat(Not(crc), s + x, t);
    RegisterConcat(Not(crc), s + y, t);
    RegisterConcat(Not(crc), s, x);
    RegisterConcat(Not(crc), s, y);
    assert x == [x[0], x[1], x[2], x[3]] && y == [y[0], y[1], y[2], y[3]];
    RegisterFour(c, x[0], x[1], x[2], x[3]);
    RegisterFour(c, y[0], y[1], y[2], y[3]);
    if Crc(crc, s + x + t) == Crc(crc, s + y + t) {
      NotInjective(Register(Not(crc), s + x + t), Register(Not(crc), s + y + t));
      RegisterInjective(Register(c, x), Register(c, y), t);
      var u, v := LoadLittle(x[0], x[1], x[2], x[3]), LoadLittle(y[0], y[1], y[2], y[3]);
      StepsInjective(Xor(c, u), Xor(c, v), 32);
      XorCancel(c, u);
      XorCancel(c, v);
      LoadInjective(x[0], x[1], x[2], x[3], y[0], y[1], y[2], y[3]);
    }
  }

  lemma LoadInjective(a0: bv8, a1: bv8, a2: bv8, a3: bv8, b0: bv8, b1: bv8, b2: bv8, b3: bv8)
    requires LoadLittle(a0, a1, a2, a3) == LoadLittle(b0, b1, b2, b3)
    ensures a0 == b0 && a1 == b1 && a2 == b2 && a3 == b3
  { }

  /** Nor can a single byte. */
  lemma ByteDetected(crc: Word, s: seq<bv8>, x: bv8, y: bv8, t: seq<bv8>)
    requires x != y
    ensures Crc(crc, s + [x] + t) != Crc(crc, s + [y] + t)
  {
    hide Steps, Xor, FromByte, Not, Register;
    var c := Register(Not(crc), s);
    RegisterConcat(Not(crc), s + [x], t);
    RegisterConcat(Not(crc), s + [y], t);
    RegisterConcat(Not(crc), s, [x]);
    RegisterConcat(Not(crc), s, [y]);
    RegisterByte(c, x);
    RegisterByte(c, y);
    if Crc(crc, s + [x] + t) == Crc(crc, s + [y] + t) {
      NotInjective(Register(Not(crc), s + [x] + t), Register(Not(crc), s + [y] + t));
      RegisterInjective(Register(c, [x]), Register(c, [y]), t);
      StepsInjective(Xor(c, FromByte(x)), Xor(c, FromByte(y)), 8);
      XorCancel(c, FromByte(x));
      XorCancel(c, FromByte(y));
      FromByteInjective(x, y);
    }
  }

  lemma FromByteInjective(x: bv8, y: bv8)
    ensures FromByte(x) == FromByte(y) ==> x == y
  { }

  /** A zero byte in front does not go unnoticed: that is what the complement before the first byte is for. */
  lemma ZeroDetected(s: seq<bv8>)
    ensures Crc(0, [0] + s) != Crc(0, s)
  {
    NotIs(0);
    OnesAndZeros();
    hide Steps, Xor, FromByte, Not, Register;
    assert Register(0xffffffff, [0]) == Steps(0xffffffff, 8) by {
      RegisterByte(0xffffffff, 0);
      assert Xor(0xffffffff, FromByte(0)) == 0xffffffff by { OnesKept(); }
    }
    RegisterConcat(0xffffffff, [0], s);
    if Crc(0, [0] + s) == Crc(0, s) {
      NotInjective(Register(0xffffffff, [0] + s), Register(0xffffffff, s));
      RegisterInjective(Steps(0xffffffff, 8), 0xffffffff, s);
    }
  }

  lemma OnesKept()
    ensures Xor(0xffffffff, FromByte(0)) == 0xffffffff
  { }

  lemma OnesAndZeros()
    ensures Steps(0xffffffff, 8) == 0x2dfd1072 && Steps(0x2dfd1072, 8) == 0xbe26ed00
    ensures Steps(0xbe26ed00, 8) == 0xbe26ed && Steps(0xbe26ed, 8) == 0xdebb20e3
  { }

  // ----- Known values -----

  /** The bytes of a checksum, lowest first. */
  ghost predicate BytesOf(w: Word, b: seq<bv8>) {
    |b| == 4 && LoadLittle(b[0], b[1], b[2], b[3]) == w
  }

  /** Behind a checksum of its own the checksum of anything is the same. */
  lemma Residue(s: seq<bv8>, b: seq<bv8>)
    requires BytesOf(Crc(0, s), b)
    ensures Crc(0, s + b) == 0x2144df1c
  {
    var c := Register(Not(0), s);
    NotIs(0);
    NotIs(c);
    OnesAndZeros();
    LastNot();
    hide Steps, Xor, Not, Register, LoadLittle;
    RegisterConcat(Not(0), s, b);
    assert b == [b[0], b[1], b[2], b[3]];
    RegisterFour(c, b[0], b[1], b[2], b[3]);
    StepsSum(0xffffffff, 8, 24);
    StepsSum(0x2dfd1072, 8, 16);
    StepsSum(0xbe26ed00, 8, 8);
  }

  lemma LastNot()
    ensures Not(0xdebb20e3) == 0x2144df1c
  { }

  /** The nine bytes "123456789". */
  const DIGITS: seq<bv8> := [0x31, 0x32, 0x33, 0x34, 0x35, 0x36, 0x37, 0x38, 0x39]

  lemma Feed(c: Word, s: seq<bv8>, k: nat, d: Word)
    requires k < |s| && Steps(Xor(c, FromByte(s[k])), 8) == d
    ensures Register(c, s[k..]) == Register(d, s[k + 1..])
  {
    hide Steps, Xor, FromByte;
    assert s[k..][0] == s[k] && s[k..][1..] == s[k + 1..];
  }

  lemma DigitSteps()
    ensures Steps(Xor(0xffffffff, FromByte(0x31)), 8) == 0x7c231048
    ensures Steps(Xor(0x7c231048, FromByte(0x32)), 8) == 0xb0acbb32
    ensures Steps(Xor(0xb0acbb32, FromByte(0x33)), 8) == 0x77b79c2d
    ensures Steps(Xor(0x77b79c2d, FromByte(0x34)), 8) == 0x641c1f5c
    ensures Steps(Xor(0x641c1f5c, FromByte(0x35)), 8) == 0x340ac5e3
    ensures Steps(Xor(0x340ac5e3, FromByte(0x36)), 8) == 0xf68d2c9e
    ensures Steps(Xor(0xf68d2c9e, FromByte(0x37)), 8) == 0xaffc9660
    ensures Steps(Xor(0xaffc9660, FromByte(0x38)), 8) == 0x651f2550
    ensures Steps(Xor(0x651f2550, FromByte(0x39)), 8) == 0x340bc6d9
    ensures Not(0x340bc6d9) == 0xcbf43926
  { }

  lemma CheckValue()
    ensures Crc(0, DIGITS) == 0xcbf43926
  {
    NotIs(0);
    DigitSteps();
    hide Steps, Xor, FromByte, Not;
    Feed(0xffffffff, DIGITS, 0, 0x7c231048);
    Feed(0x7c231048, DIGITS, 1, 0xb0acbb32);
    Feed(0xb0acbb32, DIGITS, 2, 0x77b79c2d);
    Feed(0x77b79c2d, DIGITS, 3, 0x641c1f5c);
    Feed(0x641c1f5c, DIGITS, 4, 0x340ac5e3);
    Feed(0x340ac5e3, DIGITS, 5, 0xf68d2c9e);
    Feed(0xf68d2c9e, DIGITS, 6, 0xaffc9660);
    Feed(0xaffc9660, DIGITS, 7, 0x651f2550);
    Feed(0x651f2550, DIGITS, 8, 0x340bc6d9);
    assert DIGITS[0..] == DIGITS && DIGITS[9..] == [];
  }

  lemma ZeroByte()
    ensures Crc(0, [0]) == 0xd202ef8d
  {
    NotIs(0);
    OnesAndZeros();
    OnesKept();
    RegisterByte(Not(0), 0);
  }
}
