/** zlib's crc32.c. */
module Crc32 {
  import opened Words

  /** The polynomial of section 8 of RFC 1952, lowest power in the highest bit. */
  const POLY: Word := 0xedb88320

  /** One clock of the shift register. */
  function Step(c: Word): Word { if Odd(c) then Xor(POLY, Half(c)) else Half(c) }

  function Steps(c: Word, n: nat): Word
    decreases n
  {
    if n == 0 then c else Steps(Step(c), n - 1)
  }

  /** The register after the bytes of `s`, fed one bit at a time: what every loop below computes. */
  function Register(c: Word, s: seq<bv8>): Word
    decreases |s|
  {
    if s == [] then c else Register(Steps(Xor(c, FromByte(s[0])), 8), s[1..])
  }

  /** The checksum of `s` carried on from the checksum `crc`. */
  function Crc(crc: Word, s: seq<bv8>): Word { Not(Register(Not(crc), s)) }

  // ---- the register is linear

  lemma StepXor(a: Word, b: Word)
    ensures Step(Xor(a, b)) == Xor(Step(a), Step(b))
  {
    hide Xor, Half, Odd;
    HalfXor(a, b);
    var x, y := Half(a), Half(b);
    XorLaws(POLY, x, y);
    XorLaws(x, POLY, y);
    XorLaws(POLY, x, Xor(POLY, y));
    XorCancel(POLY, y);
    XorLaws(POLY, x, POLY);
    XorLaws(x, POLY, Xor(POLY, y));
  }

  lemma {:induction false} StepsXor(a: Word, b: Word, n: nat)
    ensures Steps(Xor(a, b), n) == Xor(Steps(a, n), Steps(b, n))
    decreases n
  {
    hide Xor, Step;
    if n > 0 {
      StepXor(a, b);
      StepsXor(Step(a), Step(b), n - 1);
    }
  }

  lemma {:induction false} StepsSum(c: Word, m: nat, n: nat)
    ensures Steps(c, m + n) == Steps(Steps(c, m), n)
    decreases m
  {
    hide Step;
    if m > 0 { StepsSum(Step(c), m - 1, n); }
  }

  lemma {:induction false} RegisterConcat(c: Word, s: seq<bv8>, t: seq<bv8>)
    ensures Register(c, s + t) == Register(Register(c, s), t)
    decreases |s|
  {
    hide Steps, Xor, FromByte;
    if s == [] {
      assert s + t == t;
    } else {
      assert (s + t)[1..] == s[1..] + t;
      RegisterConcat(Steps(Xor(c, FromByte(s[0])), 8), s[1..], t);
    }
  }

  /** The register is affine in the value it starts from. */
  lemma {:induction false} RegisterAffine(c: Word, d: Word, s: seq<bv8>)
    ensures Register(Xor(c, d), s) == Xor(Register(c, s), Steps(d, 8 * |s|))
    decreases |s|
  {
    hide Steps, Xor, FromByte;
    if s == [] {
      StepsNone(d);
    } else {
      var b := FromByte(s[0]);
      XorLaws(c, d, b);
      XorLaws(d, b, b);
      XorLaws(c, b, d);
      StepsXor(Xor(c, b), d, 8);
      RegisterAffine(Steps(Xor(c, b), 8), Steps(d, 8), s[1..]);
      StepsSum(d, 8, 8 * |s[1..]|);
    }
  }

  lemma StepsNone(c: Word)
    ensures Steps(c, 0) == c
  { }

  // ---- a byte at a time

  lemma StepEven(c: Word)
    requires !Odd(c)
    ensures Step(c) == Half(c)
  { }

  lemma StepsEight(c: Word)
    ensures Steps(c, 8) == Step(Step(Step(Step(Step(Step(Step(Step(c))))))))
  {
    hide Step;
  }

  /** Eight clocks shift out a byte of zeros. */
  lemma ShiftByte(c: Word)
    requires LowByte(c) == 0
    ensures Steps(c, 8) == DropByte(c)
  {
    hide Step, Steps;
    StepsEight(c);
    EightHalves(c);
    hide Odd, Half, LowByte, DropByte;
    var c2 := Half(Half(c));
    var c4 := Half(Half(c2));
    var c6 := Half(Half(c4));
    StepEven(c);
    StepEven(Half(c));
    StepEven(c2);
    StepEven(Half(c2));
    StepEven(c4);
    StepEven(Half(c4));
    StepEven(c6);
    StepEven(Half(c6));
  }

  /** The table step: a byte looked up, the rest of the register shifted. */
  lemma ByteStep(c: Word)
    ensures Steps(c, 8) == Xor(Steps(LowByte(c), 8), DropByte(c))
  {
    hide Steps, Step;
    SplitByte(c);
    hide Xor, LowByte, DropByte, HighBytes;
    ShiftByte(HighBytes(c));
    StepsXor(LowByte(c), HighBytes(c), 8);
  }

  // ---- four bytes at a time

  /** Four bytes fed one by one, or as one word before 32 clocks. */
  lemma RegisterFour(c: Word, b0: bv8, b1: bv8, b2: bv8, b3: bv8)
    ensures Register(c, [b0, b1, b2, b3]) == Steps(Xor(c, LoadLittle(b0, b1, b2, b3)), 32)
  {
    Places(b0, b1, b2, b3);
    hide Xor, FromByte, RaiseByte, LowByte, DropByte, LoadLittle, Steps;
    var w3 := FromByte(b3);
    var w2 := Xor(FromByte(b2), RaiseByte(w3));
    var w1 := Xor(FromByte(b1), RaiseByte(w2));
    FeedLater(c, FromByte(b0), w1, 3);
    var c1 := Steps(Xor(c, FromByte(b0)), 8);
    FeedLater(c1, FromByte(b1), w2, 2);
    var c2 := Steps(Xor(c1, FromByte(b1)), 8);
    FeedLater(c2, FromByte(b2), w3, 1);
    var c3 := Steps(Xor(c2, FromByte(b2)), 8);
    var c4 := Steps(Xor(c3, FromByte(b3)), 8);
    assert [b0, b1, b2, b3][1..] == [b1, b2, b3] && [b1, b2, b3][1..] == [b2, b3];
    assert [b2, b3][1..] == [b3] && [b3][1..] == [];
    assert Register(c3, [b3]) == c4;
    assert Register(c2, [b2, b3]) == Register(c3, [b3]);
    assert Register(c1, [b1, b2, b3]) == Register(c2, [b2, b3]);
  }

  /** The bytes above the lowest can wait until its eight clocks are done. */
  lemma FeedLater(c: Word, b: Word, w: Word, n: nat)
    requires LowByte(RaiseByte(w)) == 0 && DropByte(RaiseByte(w)) == w
    ensures Steps(Xor(c, Xor(b, RaiseByte(w))), 8 + 8 * n) == Steps(Xor(Steps(Xor(c, b), 8), w), 8 * n)
  {
    hide Xor, RaiseByte, LowByte, DropByte, Steps;
    XorLaws(c, b, RaiseByte(w));
    StepsSum(Xor(c, Xor(b, RaiseByte(w))), 8, 8 * n);
    StepsXor(Xor(c, b), RaiseByte(w), 8);
    ShiftByte(RaiseByte(w));
  }

  /** The four table columns of a word-at-a-time step. */
  function Columns(x: Word): Word {
    Xor(Xor(Xor(Steps(LowByte(x), 32), Steps(LowByte(DropByte(x)), 24)),
            Steps(LowByte(DropByte(DropByte(x))), 16)),
        Steps(TopByte(x), 8))
  }

  lemma WordStep(x: Word)
    ensures Steps(x, 32) == Columns(x)
  {
    TopIsThirdDrop(x);
    hide Xor, LowByte, DropByte, TopByte, Steps;
    var x1 := DropByte(x);
    var x2 := DropByte(x1);
    var x3 := DropByte(x2);
    PeelByte(x, 24);
    PeelByte(x1, 16);
    PeelByte(x2, 8);
    var a, b, c := Steps(LowByte(x), 32), Steps(LowByte(x1), 24), Steps(LowByte(x2), 16);
    XorLaws(b, c, Steps(x3, 8));
    XorLaws(a, b, Xor(c, Steps(x3, 8)));
    XorLaws(Xor(a, b), c, Steps(x3, 8));
  }

  lemma PeelByte(x: Word, n: nat)
    ensures Steps(x, n + 8) == Xor(Steps(LowByte(x), n + 8), Steps(DropByte(x), n))
  {
    hide Xor, LowByte, DropByte, Steps;
    ByteStep(x);
    StepsSum(x, 8, n);
    StepsSum(LowByte(x), 8, n);
    StepsXor(Steps(LowByte(x), 8), DropByte(x), n);
  }

  /** What one table step of `DO1` leaves: the eight clocks of one byte. */
  lemma LookUp(c: Word, b: bv8)
    ensures Xor(Steps(LowByte(Xor(c, FromByte(b))), 8), DropByte(c)) == Steps(Xor(c, FromByte(b)), 8)
  {
    ByteXor(c, b);
    hide Xor, FromByte, LowByte, DropByte, Steps;
    ByteStep(Xor(c, FromByte(b)));
  }

  /** The same step on a register held in the other byte order. */
  lemma LookUpSwapped(x: Word, b: bv8)
    ensures Xor(Swap(Steps(LowByte(Xor(TopByte(Swap(x)), FromByte(b))), 8)), RaiseByte(Swap(x)))
            == Swap(Steps(Xor(x, FromByte(b)), 8))
  {
    ByteXor(x, b);
    SwapBytes(x);
    hide Xor, FromByte, LowByte, DropByte, Steps, Swap, TopByte, RaiseByte;
    LookUp(x, b);
    SwapLaws(Steps(LowByte(Xor(x, FromByte(b))), 8), DropByte(x));
  }

  /** The columns of a big-endian step, on a swapped register. */
  function SwappedColumns(c: Word): Word {
    Xor(Xor(Xor(Swap(Steps(LowByte(c), 8)), Swap(Steps(LowByte(DropByte(c)), 16))),
            Swap(Steps(LowByte(DropByte(DropByte(c))), 24))),
        Swap(Steps(LowByte(TopByte(c)), 32)))
  }

  lemma WordStepSwapped(x: Word)
    ensures SwappedColumns(Swap(x)) == Swap(Steps(x, 32))
  {
    SwapBytes(x);
    TopIsThirdDrop(x);
    TopIsThirdDrop(Swap(x));
    hide Xor, LowByte, DropByte, TopByte, Steps, Swap;
    WordStep(x);
    var a, b := Steps(LowByte(x), 32), Steps(LowByte(DropByte(x)), 24);
    var c, d := Steps(LowByte(DropByte(DropByte(x))), 16), Steps(TopByte(x), 8);
    SwapLaws(Xor(Xor(a, b), c), d);
    SwapLaws(Xor(a, b), c);
    SwapLaws(a, b);
    ReverseFour(Swap(a), Swap(b), Swap(c), Swap(d));
  }

  lemma ReverseFour(a: Word, b: Word, c: Word, d: Word)
    ensures Xor(Xor(Xor(a, b), c), d) == Xor(Xor(Xor(d, c), b), a)
  {
    hide Xor;
    XorLaws(a, b, b);
    XorLaws(Xor(a, b), c, c);
    XorLaws(c, b, a);
    XorLaws(Xor(Xor(a, b), c), d, d);
    XorLaws(d, Xor(c, b), a);
    XorLaws(d, c, b);
  }

  // ---- the tables

  /** The exponents of the polynomial except 32. */
  const TERMS: seq<nat> := [0, 1, 2, 4, 5, 7, 8, 10, 11, 12, 16, 22, 23, 26]

  function Term(p: nat): Word
    requires p < 32
  { 1 << (31 - p) }

  function Or(a: Word, b: Word): Word { a | b }

  /** The pattern of the first `n` terms. */
  function PolyOf(n: nat): Word
    requires n <= |TERMS|
  {
    if n == 0 then 0 else Or(PolyOf(n - 1), Term(TERMS[n - 1]))
  }

  lemma TermValues()
    ensures Term(0) == 0x80000000 && Term(1) == 0x40000000 && Term(2) == 0x20000000 && Term(4) == 0x8000000 &&
        Term(5) == 0x4000000 && Term(7) == 0x1000000 && Term(8) == 0x800000
    ensures Term(10) == 0x200000 && Term(11) == 0x100000 && Term(12) == 0x80000 && Term(16) == 0x8000 &&
        Term(22) == 0x200 && Term(23) == 0x100 && Term(26) == 0x20
  { }

  lemma OrValues()
    ensures Or(0, 0x80000000) == 0x80000000
    ensures Or(0x80000000, 0x40000000) == 0xc0000000
    ensures Or(0xc0000000, 0x20000000) == 0xe0000000
    ensures Or(0xe0000000, 0x8000000) == 0xe8000000
    ensures Or(0xe8000000, 0x4000000) == 0xec000000
    ensures Or(0xec000000, 0x1000000) == 0xed000000
    ensures Or(0xed000000, 0x800000) == 0xed800000
    ensures Or(0xed800000, 0x200000) == 0xeda00000
    ensures Or(0xeda00000, 0x100000) == 0xedb00000
    ensures Or(0xedb00000, 0x80000) == 0xedb80000
    ensures Or(0xedb80000, 0x8000) == 0xedb88000
    ensures Or(0xedb88000, 0x200) == 0xedb88200
    ensures Or(0xedb88200, 0x100) == 0xedb88300
    ensures Or(0xedb88300, 0x20) == 0xedb88320
  { }

  lemma PolyIs()
    ensures PolyOf(|TERMS|) == POLY
  {
    TermValues();
    OrValues();
    hide Or, Term;
    assert PolyOf(4) == 0xe8000000;
    assert PolyOf(8) == 0xeda00000;
    assert PolyOf(12) == 0xedb88200;
  }

  lemma OneStep(c: Word, n: nat)
    ensures Steps(c, n + 1) == Step(Steps(c, n))
  {
    hide Step;
    StepsSum(c, n, 1);
  }

  /** Eight clocks by one look-up in the first row. */
  lemma NextRow(n: nat, k: nat)
    requires n < 256
    ensures var c := Steps(ByteWord(n), 8 * k); Steps(ByteWord(n), 8 * k + 8) == Xor(Steps(LowByte(c), 8), DropByte(c))
  {
    hide Steps, Xor, LowByte, DropByte, ByteWord;
    StepsSum(ByteWord(n), 8 * k, 8);
    ByteStep(Steps(ByteWord(n), 8 * k));
  }

  /** Rows 0..3: a byte followed by up to three zero bytes; rows 4..7: the same, byte-reversed. */
  function Entry(j: nat, n: nat): Word
    requires j < 8 && n < 256
  {
    if j < 4 then Steps(ByteWord(n), 8 * j + 8) else Swap(Steps(ByteWord(n), 8 * j - 24))
  }

  /** Whether a word may be loaded from this address. */
  predicate Aligned(address: nat) { address % 4 == 0 }

  lemma AlignedWords(address: nat, k: nat)
    ensures Aligned(address) ==> Aligned(address + 4 * k) && (address + 4 * k) % 4 == 0
  { }

  class Tables {
    const crcTable: array2<Word>

    ghost predicate Made()
      reads crcTable
    {
      crcTable.Length0 == 8 && crcTable.Length1 == 256 && Filled(256)
    }

    ghost predicate Filled(n: nat)
      requires crcTable.Length0 == 8 && crcTable.Length1 == 256 && n <= 256
      reads crcTable
    {
      forall j, m :: 0 <= j < 8 && 0 <= m < n ==> crcTable[j, m] == Entry(j, m)
    }

    ghost predicate FirstRow()
      requires crcTable.Length0 == 8 && crcTable.Length1 == 256
      reads crcTable
    {
      forall m :: 0 <= m < 256 ==> crcTable[0, m] == Steps(ByteWord(m), 8)
    }

    constructor ()
      ensures fresh(crcTable) && Made()
    {
      crcTable := new Word[8, 256];
      new;
      MakeCrcTable();
    }

    method MakeCrcTable()
      requires crcTable.Length0 == 8 && crcTable.Length1 == 256
      modifies crcTable
      ensures Made()
    {
      hide Step, Steps, Xor, Swap, ByteWord, LowByte, DropByte, Or, Term, Odd, Half;
      MakeFirstRow();
      for n := 0 to 256
        invariant FirstRow() && Filled(n)
      {
        MakeColumn(n);
      }
    }

    /** The bitwise loop over the 256 byte values. */
    method MakeFirstRow()
      requires crcTable.Length0 == 8 && crcTable.Length1 == 256
      modifies crcTable
      ensures FirstRow()
    {
      hide Step, Steps, Xor, Swap, ByteWord, LowByte, DropByte, Or, Term, Odd, Half;
      var poly: Word := 0;
      for n := 0 to |TERMS|
        invariant poly == PolyOf(n)
      {
        poly := Or(poly, Term(TERMS[n]));
      }
      PolyIs();
      hide PolyOf;
      for n := 0 to 256
        invariant forall m :: 0 <= m < n ==> crcTable[0, m] == Steps(ByteWord(m), 8)
      {
        var c := ByteWord(n);
        StepsNone(c);
        for k := 0 to 8
          invariant c == Steps(ByteWord(n), k)
          invariant forall m :: 0 <= m < n ==> crcTable[0, m] == Steps(ByteWord(m), 8)
        {
          OneStep(ByteWord(n), k);
          StepIs(c);
          c := if Odd(c) then Xor(poly, Half(c)) else Half(c);
        }
        crcTable[0, n] := c;
      }
    }

    /** A column of the other rows, each from the one before it. */
    method MakeColumn(n: nat)
      requires crcTable.Length0 == 8 && crcTable.Length1 == 256
      requires n < 256 && FirstRow() && Filled(n)
      modifies crcTable
      ensures FirstRow() && Filled(n + 1)
    {
      hide Step, Steps, Xor, Swap, ByteWord, LowByte, DropByte, Or, Term, Odd, Half, Entry;
      EntryIs(n, 0);
      var c := crcTable[0, n];
      crcTable[4, n] := Swap(c);
      for k := 1 to 4
        invariant c == Entry(k - 1, n)
        invariant FirstRow() && Filled(n)
        invariant forall j :: 0 <= j < k ==> crcTable[j, n] == Entry(j, n)
        invariant forall j :: 4 <= j < k + 4 ==> crcTable[j, n] == Entry(j, n)
      {
        EntryIs(n, k);
        FirstRowAt(c);
        c := Xor(crcTable[0, Index(c)], DropByte(c));
        SetPair(k, n, c);
      }
    }

    /** A word in both byte orders. */
    method SetPair(k: nat, n: nat, c: Word)
      requires crcTable.Length0 == 8 && crcTable.Length1 == 256 && k < 4 && n < 256
      modifies crcTable
      ensures crcTable[k, n] == c && crcTable[k + 4, n] == Swap(c)
      ensures forall j, m :: 0 <= j < 8 && 0 <= m < 256 && (m != n || (j != k && j != k + 4)) ==>
          crcTable[j, m] == old(crcTable[j, m])
    {
      hide Swap;
      crcTable[k, n] := c;
      crcTable[k + 4, n] := Swap(c);
    }

    /** The look-up of the low byte of a word in the first row. */
    lemma FirstRowAt(c: Word)
      requires crcTable.Length0 == 8 && crcTable.Length1 == 256 && FirstRow()
      ensures crcTable[0, Index(c)] == Steps(LowByte(c), 8)
    {
      hide Steps, LowByte, ByteWord;
    }

    /** A look-up in any row. */
    lemma RowAt(j: nat, c: Word)
      requires Made() && j < 8
      ensures crcTable[j, Index(c)] == if j < 4 then Steps(LowByte(c), 8 * j + 8)
          else Swap(Steps(LowByte(c), 8 * j - 24))
    {
      hide Steps, LowByte, ByteWord, Swap;
    }

    /** `DO1`. */
    method Do1(crc: Word, b: bv8) returns (c: Word)
      requires Made()
      ensures c == Steps(Xor(crc, FromByte(b)), 8)
    {
      hide Steps, LowByte, ByteWord, Swap, Xor, DropByte, FromByte, Filled;
      RowAt(0, Xor(crc, FromByte(b)));
      LookUp(crc, b);
      c := Xor(crcTable[0, Index(Xor(crc, FromByte(b)))], DropByte(crc));
    }

    /** `DOLIT4` on a little-endian machine. */
    method DoLit4(crc: Word, b0: bv8, b1: bv8, b2: bv8, b3: bv8, ghost address: nat) returns (c: Word)
      requires Made() && address % 4 == 0
      ensures c == Steps(Xor(crc, LoadLittle(b0, b1, b2, b3)), 32)
    {
      hide Steps, LowByte, ByteWord, Swap, Xor, DropByte, TopByte, LoadLittle, Filled;
      c := Xor(crc, LoadLittle(b0, b1, b2, b3));
      WordStep(c);
      RowAt(3, c);
      RowAt(2, DropByte(c));
      RowAt(1, DropByte(DropByte(c)));
      RowAt(0, TopByte(c));
      TopIsByte(c);
      c := Xor(Xor(Xor(crcTable[3, Index(c)], crcTable[2, Index(DropByte(c))]),
                   crcTable[1, Index(DropByte(DropByte(c)))]), crcTable[0, Index(TopByte(c))]);
    }

    /** The one-byte step of `crc32_big`, on the swapped register. */
    method Do1Swapped(crc: Word, b: bv8, ghost x: Word) returns (c: Word)
      requires Made() && crc == Swap(x)
      ensures c == Swap(Steps(Xor(x, FromByte(b)), 8))
    {
      hide Steps, LowByte, ByteWord, Swap, Xor, RaiseByte, TopByte, FromByte, Filled;
      RowAt(4, Xor(TopByte(crc), FromByte(b)));
      LookUpSwapped(x, b);
      c := Xor(crcTable[4, Index(Xor(TopByte(crc), FromByte(b)))], RaiseByte(crc));
    }

    /** `DOBIG4` on a big-endian machine. */
    method DoBig4(crc: Word, b0: bv8, b1: bv8, b2: bv8, b3: bv8, ghost address: nat, ghost x: Word) returns (c: Word)
      requires Made() && address % 4 == 0 && crc == Swap(x)
      ensures c == Swap(Steps(Xor(x, LoadLittle(b0, b1, b2, b3)), 32))
    {
      hide Steps, LowByte, ByteWord, Swap, Xor, DropByte, TopByte, LoadLittle, LoadBig, Filled;
      LoadSwapped(b0, b1, b2, b3);
      SwapLaws(x, LoadLittle(b0, b1, b2, b3));
      c := Xor(crc, LoadBig(b0, b1, b2, b3));
      WordStepSwapped(Xor(x, LoadLittle(b0, b1, b2, b3)));
      RowAt(4, c);
      RowAt(5, DropByte(c));
      RowAt(6, DropByte(DropByte(c)));
      RowAt(7, TopByte(c));
      c := Xor(Xor(Xor(crcTable[4, Index(c)], crcTable[5, Index(DropByte(c))]),
                   crcTable[6, Index(DropByte(DropByte(c)))]), crcTable[7, Index(TopByte(c))]);
    }

    /** The bytewise loop of `crc32`. */
    method Crc32Bytes(crc: Word, buf: seq<bv8>) returns (r: Word)
      requires Made()
      ensures r == Crc(crc, buf)
    {
      hide Steps, Xor, FromByte, Not, Register, Filled;
      var c := Not(crc);
      var at := 0;
      RegisterNone(c, buf);
      while |buf| - at >= 8
        invariant at <= |buf| && c == Register(Not(crc), buf[..at])
      {
        for k := 0 to 8
          invariant c == Register(Not(crc), buf[..at + k])
        {
          FeedOne(Not(crc), buf, at + k);
          c := Do1(c, buf[at + k]);
        }
        at := at + 8;
      }
      while at < |buf|
        invariant at <= |buf| && c == Register(Not(crc), buf[..at])
      {
        FeedOne(Not(crc), buf, at);
        c := Do1(c, buf[at]);
        at := at + 1;
      }
      assert buf[..at] == buf;
      r := Not(c);
    }

    /** `crc32_little`: bytes up to the next word boundary, then words, then the bytes left. */
    method Crc32Little(crc: Word, buf: seq<bv8>, address: nat) returns (r: Word)
      requires Made()
      ensures r == Crc(crc, buf)
    {
      hide Steps, Xor, FromByte, Not, Register, LoadLittle, Filled, Aligned;
      var c := Not(crc);
      var at := 0;
      RegisterNone(c, buf);
      while at < |buf| && !Aligned(address + at)
        invariant at <= |buf| && c == Register(Not(crc), buf[..at])
      {
        FeedOne(Not(crc), buf, at);
        c := Do1(c, buf[at]);
        at := at + 1;
      }
      while |buf| - at >= 32
        invariant at == |buf| || Aligned(address + at)
        invariant at <= |buf| && c == Register(Not(crc), buf[..at])
      {
        for k := 0 to 8
          invariant c == Register(Not(crc), buf[..at + 4 * k])
        {
          var i := at + 4 * k;
          AlignedWords(address + at, k);
          FeedFour(Not(crc), buf, i);
          c := DoLit4(c, buf[i], buf[i + 1], buf[i + 2], buf[i + 3], address + i);
        }
        AlignedWords(address + at, 8);
        at := at + 32;
      }
      while |buf| - at >= 4
        invariant at == |buf| || Aligned(address + at)
        invariant at <= |buf| && c == Register(Not(crc), buf[..at])
      {
        AlignedWords(address + at, 1);
        FeedFour(Not(crc), buf, at);
        c := DoLit4(c, buf[at], buf[at + 1], buf[at + 2], buf[at + 3], address + at);
        at := at + 4;
      }
      while at < |buf|
        invariant at <= |buf| && c == Register(Not(crc), buf[..at])
      {
        FeedOne(Not(crc), buf, at);
        c := Do1(c, buf[at]);
        at := at + 1;
      }
      assert buf[..at] == buf;
      r := Not(c);
    }

    /** `crc32_big`: the register is kept byte-reversed throughout. */
    method Crc32Big(crc: Word, buf: seq<bv8>, address: nat) returns (r: Word)
      requires Made()
      ensures r == Crc(crc, buf)
    {
      hide Steps, Xor, FromByte, Not, Register, LoadLittle, Swap, Filled, Aligned;
      var c := Not(Swap(crc));
      ghost var x := Not(crc);
      SwapLaws(crc, crc);
      var at := 0;
      RegisterNone(x, buf);
      while at < |buf| && !Aligned(address + at)
        invariant at <= |buf| && c == Swap(x) && x == Register(Not(crc), buf[..at])
      {
        FeedOne(Not(crc), buf, at);
        c := Do1Swapped(c, buf[at], x);
        x := Steps(Xor(x, FromByte(buf[at])), 8);
        at := at + 1;
      }
      while |buf| - at >= 32
        invariant at == |buf| || Aligned(address + at)
        invariant at <= |buf| && c == Swap(x) && x == Register(Not(crc), buf[..at])
      {
        for k := 0 to 8
          invariant c == Swap(x) && x == Register(Not(crc), buf[..at + 4 * k])
        {
          var i := at + 4 * k;
          AlignedWords(address + at, k);
          FeedFour(Not(crc), buf, i);
          c := DoBig4(c, buf[i], buf[i + 1], buf[i + 2], buf[i + 3], address + i, x);
          x := Steps(Xor(x, LoadLittle(buf[i], buf[i + 1], buf[i + 2], buf[i + 3])), 32);
        }
        AlignedWords(address + at, 8);
        at := at + 32;
      }
      while |buf| - at >= 4
        invariant at == |buf| || Aligned(address + at)
        invariant at <= |buf| && c == Swap(x) && x == Register(Not(crc), buf[..at])
      {
        AlignedWords(address + at, 1);
        FeedFour(Not(crc), buf, at);
        c := DoBig4(c, buf[at], buf[at + 1], buf[at + 2], buf[at + 3], address + at, x);
        x := Steps(Xor(x, LoadLittle(buf[at], buf[at + 1], buf[at + 2], buf[at + 3])), 32);
        at := at + 4;
      }
      while at < |buf|
        invariant at <= |buf| && c == Swap(x) && x == Register(Not(crc), buf[..at])
      {
        FeedOne(Not(crc), buf, at);
        c := Do1Swapped(c, buf[at], x);
        x := Steps(Xor(x, FromByte(buf[at])), 8);
        at := at + 1;
      }
      assert buf[..at] == buf;
      SwapLaws(x, x);
      SwapLaws(Not(x), x);
      c := Not(c);
      r := Swap(c);
    }

    /** `crc32`: the word forms on machines that can use them, the bytewise form elsewhere; 0 without a buffer. */
    method Crc32(crc: Word, buf: array?<bv8>, len: nat, address: nat, byFour: bool, littleEndian: bool)
      returns (r: Word)
      requires Made() && (buf != null ==> len <= buf.Length)
      ensures buf == null ==> r == 0
      ensures buf != null ==> r == Crc(crc, buf[..len])
    {
      hide Crc, Filled;
      if buf == null { return 0; }
      if byFour {
        if littleEndian {
          r := Crc32Little(crc, buf[..len], address);
        } else {
          r := Crc32Big(crc, buf[..len], address);
        }
      } else {
        r := Crc32Bytes(crc, buf[..len]);
      }
    }
  }

  lemma TopIsByte(c: Word)
    ensures LowByte(TopByte(c)) == TopByte(c)
  {
    TopIsThirdDrop(c);
  }

  lemma RegisterNone(c: Word, s: seq<bv8>)
    ensures Register(c, s[..0]) == c
  { }

  lemma FeedOne(c: Word, s: seq<bv8>, at: nat)
    requires at < |s|
    ensures Register(c, s[..at + 1]) == Steps(Xor(Register(c, s[..at]), FromByte(s[at])), 8)
  {
    assert s[..at + 1] == s[..at] + [s[at]];
    RegisterConcat(c, s[..at], [s[at]]);
    RegisterByte(Register(c, s[..at]), s[at]);
    hide Register, Steps, Xor, FromByte;
  }

  lemma RegisterByte(c: Word, b: bv8)
    ensures Register(c, [b]) == Steps(Xor(c, FromByte(b)), 8)
  {
    hide Steps, Xor, FromByte;
    assert [b][1..] == [];
  }

  lemma FeedFour(c: Word, s: seq<bv8>, at: nat)
    requires at + 4 <= |s|
    ensures Register(c, s[..at + 4])
            == Steps(Xor(Register(c, s[..at]), LoadLittle(s[at], s[at + 1], s[at + 2], s[at + 3])), 32)
  {
    hide Register, Steps, Xor, LoadLittle;
    assert s[..at + 4] == s[..at] + [s[at], s[at + 1], s[at + 2], s[at + 3]];
    RegisterConcat(c, s[..at], [s[at], s[at + 1], s[at + 2], s[at + 3]]);
    RegisterFour(Register(c, s[..at]), s[at], s[at + 1], s[at + 2], s[at + 3]);
  }

  lemma EntryIs(n: nat, k: nat)
    requires n < 256 && k < 4
    ensures Entry(k + 4, n) == Swap(Entry(k, n))
    ensures Entry(0, n) == Steps(ByteWord(n), 8)
    ensures k > 0 ==> var c := Entry(k - 1, n); Entry(k, n) == Xor(Steps(LowByte(c), 8), DropByte(c))
  {
    hide Steps, LowByte, ByteWord, Swap, Xor, DropByte;
    if k > 0 { NextRow(n, k); }
  }

  lemma StepIs(c: Word)
    ensures Step(c) == if Odd(c) then Xor(POLY, Half(c)) else Half(c)
  { }

  // ---- crc32_combine: the operator of many zero bits, by repeated squaring

  const GF2_DIM := 32

  /** The word with only bit `i` set. */
  function Unit(i: nat): Word { Raise(1, i) }

  /** `w` shifted up by `i` places. */
  function Raise(w: Word, i: nat): Word
    decreases i
  {
    if i == 0 then w else Raise(Twice(w), i - 1)
  }

  /** The rows of `mat` are the images of the unit words under `n` clocks. */
  ghost predicate IsOperator(mat: seq<Word>, n: nat) {
    |mat| == GF2_DIM && forall i :: 0 <= i < GF2_DIM ==> mat[i] == Steps(Unit(i), n)
  }

  lemma {:induction false} RaiseXor(a: Word, b: Word, i: nat)
    ensures Raise(Xor(a, b), i) == Xor(Raise(a, i), Raise(b, i))
    decreases i
  {
    if i > 0 {
      TwiceXor(a, b);
      hide Xor, Twice;
      RaiseXor(Twice(a), Twice(b), i - 1);
    }
  }

  /** The lowest bit of `v` split off from the bits above it. */
  lemma RaiseSplit(v: Word, i: nat)
    ensures Raise(v, i) == if Odd(v) then Xor(Raise(Half(v), i + 1), Unit(i)) else Raise(Half(v), i + 1)
  {
    LowBit(v);
    hide Xor, Twice, Half, Odd;
    if Odd(v) { RaiseXor(Twice(Half(v)), 1, i); }
  }

  /** `v` without its lowest `i` bits. */
  function Lower(v: Word, i: nat): Word
    decreases i
  {
    if i == 0 then v else Half(Lower(v, i - 1))
  }

  lemma {:induction false} LowerSum(v: Word, i: nat, j: nat)
    ensures Lower(v, i + j) == Lower(Lower(v, i), j)
    decreases j
  {
    hide Half;
    if j > 0 { LowerSum(v, i, j - 1); }
  }

  lemma LowerByte(v: Word)
    ensures Lower(v, 8) == DropByte(v)
  {
    EightDrops(v);
    hide Half, DropByte;
    LowerFour(v);
    LowerFour(Lower(v, 4));
    LowerSum(v, 4, 4);
  }

  lemma LowerFour(v: Word)
    ensures Lower(v, 4) == Half(Half(Half(Half(v))))
  {
    hide Half;
  }

  /** No bit is left after 32 places. */
  lemma LowerAll(v: Word)
    ensures Lower(v, GF2_DIM) == 0
  {
    FourDrops(v);
    hide DropByte, Lower;
    LowerByte(v);
    LowerByte(DropByte(v));
    LowerByte(DropByte(DropByte(v)));
    LowerByte(DropByte(DropByte(DropByte(v))));
    LowerSum(v, 8, 8);
    LowerSum(v, 16, 8);
    LowerSum(v, 24, 8);
  }

  /** `gf2_matrix_times`: the product is what `n` clocks make of `vec`. */
  method MatrixTimes(mat: array<Word>, vec: Word, ghost n: nat) returns (sum: Word)
    requires IsOperator(mat[..], n)
    ensures sum == Steps(vec, n)
  {
    hide Xor, Half, Odd, Steps, Raise, Unit, Lower;
    sum := 0;
    var v := vec;
    var i := 0;
    LowerNone(vec);
    RaiseNone(vec);
    XorCancel(Steps(vec, n), 0);
    while v != 0
      invariant i <= GF2_DIM && v == Lower(vec, i)
      invariant Steps(vec, n) == Xor(sum, Steps(Raise(v, i), n))
      decreases GF2_DIM - i
    {
      LowerAll(vec);
      assert i < GF2_DIM;
      assert mat[..][i] == mat[i];
      RaiseSplit(v, i);
      LowerNext(vec, i);
      if Odd(v) {
        AddRow(sum, mat[i], Raise(Half(v), i + 1), i, n);
        sum := Xor(sum, mat[i]);
      }
      v := Half(v);
      i := i + 1;
    }
    RaiseZero(i);
    StepsZero(n);
    XorCancel(sum, 0);
  }

  lemma AddRow(sum: Word, row: Word, rest: Word, i: nat, n: nat)
    requires row == Steps(Unit(i), n)
    ensures Xor(sum, Steps(Xor(rest, Unit(i)), n)) == Xor(Xor(sum, row), Steps(rest, n))
  {
    hide Xor, Steps, Unit;
    StepsXor(rest, Unit(i), n);
    XorLaws(Steps(rest, n), row, 0);
    XorLaws(sum, row, Steps(rest, n));
  }

  lemma LowerNone(v: Word)
    ensures Lower(v, 0) == v
  { }

  lemma LowerNext(v: Word, i: nat)
    ensures Lower(v, i + 1) == Half(Lower(v, i))
  { }

  lemma RaiseNone(v: Word)
    ensures Raise(v, 0) == v
  { }

  lemma {:induction false} RaiseZero(i: nat)
    ensures Raise(0, i) == 0
    decreases i
  {
    assert Twice(0) == 0;
    if i > 0 { RaiseZero(i - 1); }
  }

  lemma {:induction false} StepsZero(n: nat)
    ensures Steps(0, n) == 0
    decreases n
  {
    assert Step(0) == 0;
    hide Step;
    if n > 0 { StepsZero(n - 1); }
  }

  /** `gf2_matrix_square`: twice as many clocks. */
  method MatrixSquare(square: array<Word>, mat: array<Word>, ghost n: nat)
    requires square != mat && square.Length == GF2_DIM
    requires IsOperator(mat[..], n)
    modifies square
    ensures IsOperator(square[..], 2 * n)
  {
    hide Steps, Unit;
    for i := 0 to GF2_DIM
      invariant IsOperator(mat[..], n)
      invariant forall k :: 0 <= k < i ==> square[k] == Steps(Unit(k), 2 * n)
    {
      assert mat[..][i] == mat[i];
      square[i] := MatrixTimes(mat, mat[i], n);
      StepsSum(Unit(i), n, n);
    }
  }

  /** Half of the remaining length at twice the operator, an odd length paid for first. */
  lemma HalveLength(crc: Word, m: nat, len: nat)
    ensures Steps(crc, m * len) == Steps(if len % 2 == 1 then Steps(crc, m) else crc, (2 * m) * (len / 2))
  {
    hide Steps;
    HalfProduct(m, len);
    if len % 2 == 1 { StepsSum(crc, m, (2 * m) * (len / 2)); }
  }

  lemma HalfProduct(m: nat, len: nat)
    ensures m * len == (2 * m) * (len / 2) + (if len % 2 == 1 then m else 0)
    ensures (2 * m) * (len / 2) >= 0
  {
    var q, r := len / 2, len % 2;
    assert len == 2 * q + r;
    assert m * (2 * q + r) == (2 * m) * q + m * r;
  }

  /** One squaring and, for an odd length, one application. */
  method CombineRound(next: array<Word>, op: array<Word>, crc: Word, len: nat, ghost m: nat) returns (r: Word)
    requires next != op && next.Length == GF2_DIM && IsOperator(op[..], m)
    modifies next
    ensures IsOperator(next[..], 2 * m)
    ensures r == if len % 2 == 1 then Steps(crc, 2 * m) else crc
  {
    hide Steps, Unit, IsOperator;
    MatrixSquare(next, op, m);
    r := crc;
    if len % 2 == 1 { r := MatrixTimes(next, crc, 2 * m); }
  }

  /** `crc32_combine_`. */
  method Crc32Combine(crc1: Word, crc2: Word, len2: int) returns (r: Word)
    ensures len2 <= 0 ==> r == crc1
    ensures len2 > 0 ==> r == Xor(Steps(crc1, 8 * len2), crc2)
    ensures forall a, b :: crc1 == Crc(0, a) && crc2 == Crc(0, b) && len2 == |b| ==> r == Crc(0, a + b)
  {
    hide Steps, Unit, Raise, IsOperator, Xor, Twice, Crc;
    forall a, b | crc1 == Crc(0, a) && crc2 == Crc(0, b) && len2 == |b|
      ensures Crc(0, a + b) == Xor(Steps(crc1, 8 * |b|), crc2)
      ensures |b| == 0 ==> Crc(0, a + b) == crc1
    {
      CombineJoins(0, a, b);
      if |b| == 0 { assert a + b == a; }
    }
    if len2 <= 0 { return crc1; }
    var even, odd := new Word[GF2_DIM], new Word[GF2_DIM];
    FirstOperator(odd);
    MatrixSquare(even, odd, 1);
    MatrixSquare(odd, even, 2);
    var len: nat := len2;
    var crc := crc1;
    ghost var m := 4;
    while true
      invariant len > 0 && m >= 0
      invariant IsOperator(odd[..], m)
      invariant even.Length == GF2_DIM
      invariant Steps(crc1, 8 * len2) == Steps(crc, (2 * m) * len)
      decreases len
    {
      HalveLength(crc, 2 * m, len);
      crc := CombineRound(even, odd, crc, len, m);
      len := len / 2;
      m := 2 * m;
      if len == 0 { break; }
      HalveLength(crc, 2 * m, len);
      OperatorRows(even[..], m);
      crc := CombineRound(odd, even, crc, len, m);
      len := len / 2;
      m := 2 * m;
      if len == 0 { break; }
      OperatorRows(odd[..], m);
    }
    assert (2 * m) * 0 == 0;
    StepsNone(crc);
    r := Xor(crc, crc2);
  }

  lemma OperatorRows(mat: seq<Word>, n: nat)
    requires IsOperator(mat, n)
    ensures |mat| == GF2_DIM
  { }

  /** The operator of one zero bit. */
  method FirstOperator(odd: array<Word>)
    requires odd.Length == GF2_DIM
    modifies odd
    ensures IsOperator(odd[..], 1)
  {
    hide Step, Steps, Raise, Lower, Twice, Half, Odd, Within;
    FirstUnit();
    odd[0] := POLY;
    var row: Word := 1;
    for n := 1 to GF2_DIM
      invariant row == Unit(n - 1) && Within(row, Lower(0xffffffff, GF2_DIM - n))
      invariant forall k :: 0 <= k < n ==> odd[k] == Steps(Unit(k), 1)
    {
      odd[n] := row;
      LowerNext(0xffffffff, 31 - n);
      TwiceWithin(row, Lower(0xffffffff, 31 - n));
      RaiseNext(1, n - 1);
      OneStep(Unit(n), 0);
      StepsNone(Unit(n));
      StepEven(Unit(n));
      row := Twice(row);
    }
  }

  lemma FirstUnit()
    ensures Unit(0) == 1 && Steps(Unit(0), 1) == POLY && Within(1, Lower(0xffffffff, 31))
  {
    RaiseNone(1);
    OneStep(1, 0);
    StepsNone(1);
    assert Step(1) == POLY;
    hide Step, Steps, Raise, Lower, Twice, Half, Odd, Within;
    TopOnes();
    LowerByte(0xffffffff);
    LowerByte(0xffffff);
    LowerByte(0xffff);
    LowerSum(0xffffffff, 8, 8);
    LowerSum(0xffffffff, 16, 8);
    LowerSum(0xffffffff, 24, 7);
    LastOne();
  }

  lemma TopOnes()
    ensures DropByte(0xffffffff) == 0xffffff && DropByte(0xffffff) == 0xffff && DropByte(0xffff) == 0xff
  { }

  lemma LastOne()
    ensures Lower(0xff, 7) == 1 && Within(1, 1)
  {
    assert Lower(0xff, 4) == 0xf;
  }

  lemma {:induction false} RaiseNext(w: Word, i: nat)
    ensures Raise(w, i + 1) == Twice(Raise(w, i))
    decreases i
  {
    hide Twice;
    if i > 0 { RaiseNext(Twice(w), i - 1); }
  }

  // ---- what the combination is worth

  /** Zero bytes behind `a` make room for `b`. */
  lemma CombineJoins(crc: Word, a: seq<bv8>, b: seq<bv8>)
    ensures Crc(crc, a + b) == Xor(Steps(Crc(crc, a), 8 * |b|), Crc(0, b))
    ensures Crc(crc, a + b) == Crc(Crc(crc, a), b)
  {
    var r := Register(Not(crc), a);
    RegisterConcat(Not(crc), a, b);
    NotXor(r);
    NotXor(Register(r, b));
    NotXor(Register(Not(0), b));
    hide Register, Steps, Xor, Not;
    var ones := Not(0);
    // r == Not(r) ^ ones, and the register of Not(r) ^ ones splits
    RegisterAffine(ones, Not(r), b);
    XorLaws(ones, Not(r), 0);
    XorLaws(Register(ones, b), Steps(Not(r), 8 * |b|), ones);
    XorLaws(Register(ones, b), ones, Steps(Not(r), 8 * |b|));
    XorLaws(Steps(Not(r), 8 * |b|), ones, Register(ones, b));
    XorLaws(Steps(Not(r), 8 * |b|), Register(ones, b), ones);
  }
}
