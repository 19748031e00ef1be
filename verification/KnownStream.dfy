/** A stream known from elsewhere: the 37 bytes bzip2 makes of the one byte "a" at block size 9. They are a stream
    for it in the sense of all other modules, with every field where it stands in the file. */
module KnownStream {
  import opened Rotations
  import opened Power
  import opened Permutations
  import opened Bwt
  import opened RunLength
  import opened Bits
  import opened BitIO
  import opened Canonical
  import opened MoveToFront
  import opened ByteMaps
  import opened GenerateMtf
  import opened BlockFormat
  import opened BlockCheck
  import opened BlockCheckKnown
  import opened BlockCheckTable
  import opened Decompress
  import opened BzDecompress
  import opened CompressBlock
  import opened BuffToBuff

  /** The 37 bytes, read as one number. */
  const STREAM_OF_A: nat := 0x425a683931415926535919939b6b00000001002000200021184682ee48a70a120332736d60

  // ----- The block -----

  ghost function UsedA(): (u: seq<bool>)
    ensures |u| == 256
  {
    seq(256, i => i == 97)
  }

  /** Two equal tables, one selector, a run of one and the end of the block. */
  ghost function ImageA(): Image {
    Image(0x19939b6b, 0, UsedA(), 2, [0], [[2, 2, 1], [2, 2, 1]], [0, 2])
  }

  ghost function SentA(): Sent { Sent(ImageA(), [97], [0]) }

  lemma {:induction false} UsedIs(k: nat)
    requires k <= 256
    ensures Used(UsedA(), k) == if k <= 97 then [] else [97]
  {
    if k > 0 { UsedIs(k - 1); }
  }

  lemma TableA()
    ensures Decodable([2, 2, 1]) && ValidTable([2, 2, 1], 3)
  {
    var len, top := [2, 2, 1], 20;
    Pow2Add(10, 10);
    assert Pow2(10) == 1024;
    Quarters(top);
    hide Pow2;
    KraftOfA(len, top);
  }

  lemma Quarters(top: nat)
    requires top == 20
    ensures Pow2(top) == 2 * Pow2(top - 1) == 4 * Pow2(top - 2)
  { }

  lemma KraftOfA(len: seq<int>, top: nat)
    requires len == [2, 2, 1] && top == 20
    ensures LengthsWithin(len, 1, top) && KraftSum(len, top, 3) == 2 * Pow2(top - 2) + Pow2(top - 1)
  {
    hide Pow2;
    assert KraftSum(len, top, 1) == Pow2(top - 2);
    assert KraftSum(len, top, 2) == 2 * Pow2(top - 2);
  }

  lemma ImageValid()
    ensures ValidImage(ImageA())
  {
    UsedIs(256);
    TableA();
    hide Decodable, Used;
  }

  lemma OnlyRotation(b: seq<int>)
    requires |b| == 1
    ensures SortedRotations(b, [0]) && LastColumn(b, [0]) == b
  {
    CmpReflexive(b, 0, 1);
  }

  /** The one symbol before the end: a run of one of the byte in front. */
  lemma CodeOfA(s: seq<int>, n: nat)
    requires s == [0] && n == 1
    ensures IsPerm(Identity(n), n) && Over(s, n) && Code(Identity(n), n, s, 0) == [0, 2]
  {
    IdentityPerm(n);
    assert s[1..] == [];
    RunOfOne(1);
    assert Identity(n)[0] == 0;
    assert Code(Identity(n), n, [], 1) == RunSymbols(1) + [2];
  }

  lemma RunOfOne(n: nat)
    requires n == 1
    ensures RunSymbols(n) == [0]
  {
    assert RunSymbols(0) == [];
  }

  lemma ColumnOfA()
    ensures MappedColumn(UsedA(), [97], [0]) == [0]
  {
    OnlyRotation([97]);
    UsedIs(97);
    hide Used;
  }

  lemma SentFrom(s: Sent, n: nat, col: seq<int>)
    requires ValidImage(s.im) && |s.block| == 1 && SortedRotations(s.block, s.order) && WellFormed(s.block, 0)
    requires s.im.origPtr == 0 && 0 < |s.order| && s.order[0] == 0 && Marked(s.im.inUse, s.block)
    requires |s.im.inUse| == 256 && |Used(s.im.inUse, 256)| == n && 0 < n && IsPerm(Identity(n), n) && Over(col, n)
    requires IsPerm(s.order, 1) && (forall i :: 0 <= i < |s.block| ==> 0 <= s.block[i] < 256)
    requires MappedColumn(s.im.inUse, s.block, s.order) == col && s.im.syms == Code(Identity(n), n, col, 0)
    ensures ValidSent(s, 9)
  {
    hide ValidImage, Used, Code, SortedRotations, MappedColumn, WellFormed, Identity, Over, IsPerm;
  }

  lemma SentValid(n: nat)
    requires n == 1
    ensures ValidSent(SentA(), 9) && PlainOf(SentA()) == [97]
  {
    hide ValidImage, Used, Code, SortedRotations, MappedColumn, UnRle, WellFormed, Identity, Over, IsPerm;
    ImageValid();
    UsedIs(256);
    OnlyRotation([97]);
    ColumnOfA();
    CodeOfA([0], n);
    PlainOfA([97]);
    OrderOfA();
    SentFrom(SentA(), n, [0]);
  }

  lemma OrderOfA()
    ensures IsPerm([0], 1) && Marked(UsedA(), [97])
  { }

  lemma PlainOfA(b: seq<int>)
    requires b == [97]
    ensures WellFormed(b, 0) && UnRle(b, 0) == [97] && AllBytes(UnRle(b, 0)) && AsBytes(UnRle(b, 0)) == [97]
  {
    assert UnRle(b, 1) == [];
    assert UnRle(b, 0) == [b[0]] + UnRle(b, 1);
  }

  // ----- The bits -----

  /** The bits so far are those of `v`, `rest` is to come. */
  ghost predicate At(all: seq<bool>, v: nat, m: nat, rest: seq<bool>) {
    all == BitsOf(v, m) + rest
  }

  /** One field more. */
  lemma Emit(all: seq<bool>, v: nat, m: nat, c: nat, n: nat, p: nat, rest: seq<bool>, r: nat)
    requires At(all, v, m, BitsOf(c, n) + rest) && p == Pow2(n) && c < p && r == v * p + c
    ensures At(all, r, m + n, rest)
  {
    hide BitsOf, Pow2;
    BitsConcat(v, m, c, n);
    LowSmall(c, n);
    ShlPow(v, n);
    assert BitsOf(v, m) + (BitsOf(c, n) + rest) == BitsOf(v, m) + BitsOf(c, n) + rest;
  }

  lemma LeadingZero(w: nat, n: nat)
    requires w < Pow2(n)
    ensures BitsOf(w, n + 1) == [false] + BitsOf(w, n)
  {
    OneBitIs(false);
    ShlZero(n);
    LowSmall(w, n);
    hide BitsOf, Pow2;
    BitsConcat(0, 1, w, n);
    assert 1 + n == n + 1;
  }

  lemma LeadingOne(n: nat)
    ensures BitsOf(Pow2(n), n + 1) == [true] + BitsOf(0, n)
  {
    OneBitIs(true);
    ShlPow(1, n);
    PositivePow2(n);
    LowSmall(0, n);
    hide BitsOf, Pow2;
    BitsConcat(1, 1, 0, n);
    assert 1 + n == n + 1;
  }

  lemma OnlyGroupSix(i: nat)
    requires i < 16
    ensures AnyOf(UsedA(), i) <==> i == 6
  {
    if i == 6 { assert UsedA()[97]; }
  }

  lemma Powers(n: nat)
    ensures Pow2(1) == 2 && Pow2(2) == 4 && Pow2(3) == 8 && Pow2(5) == 32 && Pow2(9) == 0x200 && Pow2(14) == 0x4000
    ensures Pow2(15) == 0x8000 && Pow2(16) == 0x1_0000 && Pow2(24) == 0x100_0000 && Pow2(32) == 0x1_0000_0000
    ensures Pow2(48) == 0x1_0000_0000_0000
  {
    assert Pow2(8) == 256;
    assert Pow2(5) == 32 && Pow2(4) == 16;
    Pow2Add(8, 8);
    Pow2Add(16, 8);
    Pow2Add(16, 16);
    Pow2Add(32, 16);
    Pow2Add(5, 4);
    Pow2Add(9, 5);
    Pow2Add(9, 1);
    Pow2Add(14, 1);
  }

  /** A field with one bit set: `one` bits behind it. */
  ghost function SetBit(one: nat, n: nat): nat { if n > one then Pow2(one) else 0 }

  lemma NextBit(one: nat, n: nat)
    ensures BitsOf(SetBit(one, n + 1), n + 1) == [n == one] + BitsOf(SetBit(one, n), n)
  {
    hide BitsOf, Pow2;
    PositivePow2(n);
    if n == one {
      LeadingOne(n);
    } else if n < one {
      LeadingZero(0, n);
    } else {
      Pow2Monotone(one + 1, n);
      TwicePow(one);
      LeadingZero(Pow2(one), n);
    }
  }

  lemma TwicePow(n: nat)
    ensures Pow2(n) < Pow2(n + 1)
  { }

  lemma {:induction false} Map16OfA(i: nat, k: seq<bool>)
    requires i <= 16
    ensures Map16From(UsedA(), i, k) == BitsOf(SetBit(9, 16 - i), 16 - i) + k
    decreases 16 - i
  {
    hide BitsOf, SetBit, AnyOf;
    if i == 16 {
      BitIO.NoBits(SetBit(9, 0));
      assert [] + k == k;
    } else {
      Map16OfA(i + 1, k);
      OnlyGroupSix(i);
      var n := 15 - i;
      NextBit(9, n);
      assert [n == 9] + (BitsOf(SetBit(9, n), n) + k) == [n == 9] + BitsOf(SetBit(9, n), n) + k;
    }
  }

  lemma GroupStep(g: nat, j: nat, k: seq<bool>)
    requires g == 6 && j < 16
    ensures MapFrom(UsedA(), g, j, k) == [j == 1] + MapFrom(UsedA(), g, j + 1, k)
  {
    hide AnyOf;
    OnlyGroupSix(g);
    assert UsedA()[16 * g + j] == (j == 1);
  }

  lemma GroupEnd(g: nat, j: nat, k: seq<bool>)
    requires g == 6 && j == 16
    ensures MapFrom(UsedA(), g, j, k) == MapFrom(UsedA(), g + 1, 0, k)
  {
    hide AnyOf;
  }

  lemma {:induction false} MapOfA(g: nat, j: nat, k: seq<bool>)
    requires g == 6 && j <= 16
    ensures MapFrom(UsedA(), g, j, k) == BitsOf(SetBit(14, 16 - j), 16 - j) + k
    decreases 16 - j
  {
    hide BitsOf, SetBit, AnyOf, MapFrom, UsedA;
    if j == 16 {
      BitIO.NoBits(SetBit(14, 0));
      GroupEnd(g, j, k);
      AfterSix(g + 1, k);
      assert [] + k == k;
    } else {
      MapOfA(g, j + 1, k);
      GroupStep(g, j, k);
      var n := 15 - j;
      NextBit(14, n);
      assert [n == 14] + (BitsOf(SetBit(14, n), n) + k) == [n == 14] + BitsOf(SetBit(14, n), n) + k;
    }
  }

  lemma {:induction false} AfterSix(i: nat, k: seq<bool>)
    requires 6 < i <= 16
    ensures MapFrom(UsedA(), i, 0, k) == k
    decreases 16 - i
  {
    hide AnyOf;
    if i < 16 {
      OnlyGroupSix(i);
      AfterSix(i + 1, k);
    }
  }

  lemma {:induction false} BeforeSix(i: nat, g: nat, k: seq<bool>)
    requires i <= g == 6
    ensures MapFrom(UsedA(), i, 0, k) == MapFrom(UsedA(), g, 0, k)
    decreases g - i
  {
    hide AnyOf;
    if i < g {
      OnlyGroupSix(i);
      BeforeSix(i + 1, g, k);
    }
  }

  // ----- The parts of the block behind the map -----

  lemma SelectorOfA(m: seq<int>, i: nat, k: seq<bool>)
    requires m == [0] && i == 0
    ensures SelectorsFrom(m, i, k) == [false] + k
  { }

  lemma {:induction false} FirstPosition(n: nat, sel: seq<int>)
    requires n == 2 && sel == [0]
    ensures SelectorPositions(Identity(n), sel) == [0]
  {
    assert Identity(n)[0] == 0;
    assert sel[1..] == [];
    assert Where(Identity(n), 0) == 0;
  }

  lemma LengthsOfA(len: seq<int>, i: nat, k: seq<bool>)
    requires len == [2, 2, 1] && i == 0
    ensures LensFrom(len, i, 2, k) == [false] + ([false] + ([true, true] + ([false] + k)))
  {
    assert LensFrom(len, i + 3, 1, k) == k;
    assert DeltaThen(2, 1, k) == [true, true] + DeltaThen(1, 1, k);
    assert LensFrom(len, i + 2, 2, k) == DeltaThen(2, 1, k);
    assert LensFrom(len, i + 1, 2, k) == DeltaThen(2, 2, LensFrom(len, i + 2, 2, k));
  }

  lemma CodesOfA(len: seq<int>)
    requires len == [2, 2, 1]
    ensures CodeBits(len, 0) == BitsOf(2, 2) && CodeBits(len, 2) == BitsOf(0, 1)
  {
    hide BitsOf;
    assert Cnt(len, 1, 1) == 0 && Cnt(len, 1, 2) == 0 && Cnt(len, 1, 3) == 1;
    assert Cnt(len, 0, 1) == 0 && Cnt(len, 0, 2) == 0 && Cnt(len, 0, 3) == 0;
    assert FirstCode(len, 0) == 0 && FirstCode(len, 1) == 0 && FirstCode(len, 2) == 2;
    assert Cnt(len, 2, 0) == 0;
  }

  lemma SymbolsOfA(im: Image, k: seq<bool>, x: nat)
    requires im.selectors == [0] && im.lens == [[2, 2, 1], [2, 2, 1]] && im.syms == [0, 2] && SymsCoded(im) && x == 0
    ensures SymsFrom(im, x, k) == BitsOf(2, 2) + (BitsOf(0, 1) + k)
  {
    hide BitsOf, CodeBits, Decodable, SymsCoded;
    CodesOfA([2, 2, 1]);
    SymCoded(im, x);
    SymCoded(im, x + 1);
    assert TableOf(im, x) == TableOf(im, x + 1) == [2, 2, 1];
    assert SymsFrom(im, x + 2, k) == k;
    assert SymsFrom(im, x + 1, k) == CodeBits([2, 2, 1], 2) + k;
  }

  // ----- The whole stream -----

  lemma LastByteOf(v: nat, n: nat, w: nat, c: byte)
    requires n > 0 && v == 256 * w + c
    ensures BigEndian(v, n) == BigEndian(w, n - 1) + [c]
  { }

  lemma NoBytes(v: nat)
    ensures BigEndian(v, 0) == []
  { }

  /** The block mark is pi, the end mark its square root, in decimal digits. */
  lemma Marks()
    ensures BLOCK_MAGIC == BigEndian(0x314159265359, 6) && END_MAGIC == BigEndian(0x177245385090, 6)
    ensures 177245385090 * 177245385090 <= 314159265359 * 100000000000 < 177245385091 * 177245385091
  {
    hide BigEndian;
    LastByteOf(0x314159265359, 6, 0x3141592653, 0x59);
    LastByteOf(0x3141592653, 5, 0x31415926, 0x53);
    LastByteOf(0x31415926, 4, 0x314159, 0x26);
    LastByteOf(0x314159, 3, 0x3141, 0x59);
    LastByteOf(0x3141, 2, 0x31, 0x41);
    LastByteOf(0x31, 1, 0, 0x31);
    LastByteOf(0x177245385090, 6, 0x1772453850, 0x90);
    LastByteOf(0x1772453850, 5, 0x17724538, 0x50);
    LastByteOf(0x17724538, 4, 0x177245, 0x38);
    LastByteOf(0x177245, 3, 0x1772, 0x45);
    LastByteOf(0x1772, 2, 0x17, 0x72);
    LastByteOf(0x17, 1, 0, 0x17);
    NoBytes(0);
  }

  /** "BZh" and the digit 9. */
  lemma HeaderOf9()
    ensures StreamHeader(9) == BigEndian(0x425a6839, 4)
  {
    hide BigEndian;
    LastByteOf(0x425a6839, 4, 0x425a68, 0x39);
    LastByteOf(0x425a68, 3, 0x425a, 0x68);
    LastByteOf(0x425a, 2, 0x42, 0x5a);
    LastByteOf(0x42, 1, 0, 0x42);
    NoBytes(0);
  }

  lemma {:induction false} ThenConcat(s: seq<byte>, t: seq<byte>, k: seq<bool>)
    ensures BytesThen(s + t, k) == BytesThen(s, BytesThen(t, k))
  {
    hide BitsOf;
    if s == [] {
      assert s + t == t;
    } else {
      assert (s + t)[1..] == s[1..] + t;
      ThenConcat(s[1..], t, k);
    }
  }

  lemma {:induction false} ThenNothing(s: seq<byte>)
    ensures BytesThen(s, []) == BytesBits(s)
  {
    hide BitsOf;
    if s != [] {
      ThenNothing(s[1..]);
      BytesBitsFront(s);
    }
  }

  lemma SmallBits()
    ensures BitsOf(0, 1) == [false] && BitsOf(3, 2) == [true, true]
  {
    OneBitIs(false);
    OneBitIs(true);
    assert BitsOf(3, 2) == BitsOf(1, 1) + [true];
  }

  lemma TwoTables(im: Image, t: nat, k: seq<bool>)
    requires im.lens == [[2, 2, 1], [2, 2, 1]] && t < 2 && forall x :: 0 <= x < 2 ==>
        |im.lens[x]| > 0 && im.lens[x][0] >= 0
    ensures TablesFrom(im.lens, 2, k) == k
    ensures TablesFrom(im.lens, t, k) ==
        BitsOf(2, 5) + (BitsOf(0, 1) + (BitsOf(0, 1) + (BitsOf(3, 2) + (BitsOf(0, 1) + TablesFrom(im.lens, t + 1, k)))))
  {
    SmallBits();
    hide BitsOf, LensFrom;
    LengthsOfA([2, 2, 1], 0, TablesFrom(im.lens, t + 1, k));
  }

  lemma MapOfBlock(k: seq<bool>)
    requires ValidImage(ImageA())
    ensures MapBits(ImageA(), k) == BitsOf(0x200, 16) + (BitsOf(0x4000, 16) + SelectorBits(ImageA(), k))
  {
    Powers(0);
    assert SetBit(9, 16) == 0x200 && SetBit(14, 16) == 0x4000;
    hide ValidImage, BitsOf, Pow2, SetBit, AnyOf, Map16From, MapFrom, SelectorBits, UsedA;
    var r := SelectorBits(ImageA(), k);
    BeforeSix(0, 6, r);
    MapOfA(6, 0, r);
    Map16OfA(0, MapFrom(UsedA(), 0, 0, r));
  }

  lemma SelectorsOfBlock(k: seq<bool>)
    requires ValidImage(ImageA())
    ensures SelectorBits(ImageA(), k) == BitsOf(2, 3) + (BitsOf(1, 15) + (BitsOf(0, 1) + TableBits(ImageA(), k)))
  {
    SmallBits();
    FirstPosition(2, [0]);
    hide ValidImage, BitsOf, SelectorPositions, TableBits, UsedA;
    assert Positions(ImageA()) == [0];
    SelectorOfA([0], 0, TableBits(ImageA(), k));
  }

  /** The first table and what is behind it: the second, and the symbols. */
  lemma TablesOfBlock(k: seq<bool>) returns (r: seq<bool>)
    requires ValidImage(ImageA())
    ensures TableBits(ImageA(), k) ==
        BitsOf(2, 5) + (BitsOf(0, 1) + (BitsOf(0, 1) + (BitsOf(3, 2) + (BitsOf(0, 1) + r))))
    ensures r == BitsOf(2, 5) + (BitsOf(0, 1) + (BitsOf(0, 1) + (BitsOf(3, 2) + (BitsOf(0, 1) + (
        BitsOf(2, 2) + (BitsOf(0, 1) + k))))))
  {
    hide BitsOf, SymsFrom, TablesFrom, ValidImage, SymsCoded, UsedA;
    ValidTables(ImageA());
    SymbolsOfA(ImageA(), k, 0);
    var y := BitsOf(2, 2) + (BitsOf(0, 1) + k);
    assert SymbolBits(ImageA(), k) == y;
    TwoTables(ImageA(), 0, y);
    TwoTables(ImageA(), 1, y);
    r := TablesFrom(ImageA().lens, 1, y);
  }

  lemma FrontOfBlock(k: seq<bool>)
    requires ValidImage(ImageA())
    ensures BlockBits(ImageA(), k) == BitsOf(0x314159265359, 48) + (BitsOf(0x19939b6b, 32) + (
        BitsOf(0, 1) + (BitsOf(0, 24) + MapBits(ImageA(), k))))
  {
    SmallBits();
    Marks();
    hide BitsOf, BytesThen, BigEndian, MapBits, ValidImage, UsedA;
    var m := MapBits(ImageA(), k);
    NumberBits(0, 3, m);
    var y := BitsOf(0, 1) + (BitsOf(0, 24) + m);
    NumberBits(0x19939b6b, 4, y);
    NumberBits(0x314159265359, 6, BitsOf(0x19939b6b, 32) + y);
    ThenConcat(BLOCK_MAGIC, BigEndian(0x19939b6b, 4), y);
  }

  lemma Fields0(all: seq<bool>, k: seq<bool>)
    requires At(all, 0, 0,
        BitsOf(0x425a6839, 32) + (BitsOf(0x314159265359, 48) + (BitsOf(0x19939b6b, 32) + (
        BitsOf(0, 1) + (BitsOf(0, 24) + k)))))
    ensures At(all, 0x84b4d0726282b24ca6b2332736d6000000, 137, k)
  {
    Powers(0);
    hide BitsOf, Pow2, At;
    var k4 := BitsOf(0, 24) + k;
    var k3 := BitsOf(0, 1) + k4;
    var k2 := BitsOf(0x19939b6b, 32) + k3;
    var k1 := BitsOf(0x314159265359, 48) + k2;
    Emit(all, 0, 0, 0x425a6839, 32, 0x100000000, k1, 0x425a6839);
    Emit(all, 0x425a6839, 32, 0x314159265359, 48, 0x1000000000000, k2, 0x425a6839314159265359);
    Emit(all, 0x425a6839314159265359, 80, 0x19939b6b, 32, 0x100000000, k3, 0x425a683931415926535919939b6b);
    Emit(all, 0x425a683931415926535919939b6b, 112, 0, 1, 2, k4, 0x84b4d0726282b24ca6b2332736d6);
    Emit(all, 0x84b4d0726282b24ca6b2332736d6, 113, 0, 24, 0x1000000, k, 0x84b4d0726282b24ca6b2332736d6000000);
  }

  lemma Fields1(all: seq<bool>, k: seq<bool>)
    requires At(all, 0x84b4d0726282b24ca6b2332736d6000000, 137,
        BitsOf(0x200, 16) + (BitsOf(0x4000, 16) + (BitsOf(2, 3) + (BitsOf(1, 15) + (BitsOf(0, 1) + k)))))
    ensures At(all, 0x425a683931415926535919939b6b0000000100200020002, 188, k)
  {
    Powers(0);
    hide BitsOf, Pow2, At;
    var k9 := BitsOf(0, 1) + k;
    var k8 := BitsOf(1, 15) + k9;
    var k7 := BitsOf(2, 3) + k8;
    var k6 := BitsOf(0x4000, 16) + k7;
    Emit(all, 0x84b4d0726282b24ca6b2332736d6000000, 137, 0x200, 16, 0x10000, k6,
         0x84b4d0726282b24ca6b2332736d60000000200);
    Emit(all, 0x84b4d0726282b24ca6b2332736d60000000200, 153, 0x4000, 16, 0x10000, k7,
         0x84b4d0726282b24ca6b2332736d600000002004000);
    Emit(all, 0x84b4d0726282b24ca6b2332736d600000002004000, 169, 2, 3, 8, k8,
         0x425a683931415926535919939b6b000000010020002);
    Emit(all, 0x425a683931415926535919939b6b000000010020002, 172, 1, 15, 0x8000, k9,
         0x212d341c98a0ac9329ac8cc9cdb58000000080100010001);
    Emit(all, 0x212d341c98a0ac9329ac8cc9cdb58000000080100010001, 187, 0, 1, 2, k,
         0x425a683931415926535919939b6b0000000100200020002);
  }

  lemma Fields2(all: seq<bool>, k: seq<bool>)
    requires At(all, 0x425a683931415926535919939b6b0000000100200020002, 188,
        BitsOf(2, 5) + (BitsOf(0, 1) + (BitsOf(0, 1) + (BitsOf(3, 2) + (BitsOf(0, 1) + k)))))
    ensures At(all, 0x10969a0e4c50564994d64664e6dac000000040080008000846, 198, k)
  {
    Powers(0);
    hide BitsOf, Pow2, At;
    var k14 := BitsOf(0, 1) + k;
    var k13 := BitsOf(3, 2) + k14;
    var k12 := BitsOf(0, 1) + k13;
    var k11 := BitsOf(0, 1) + k12;
    Emit(all, 0x425a683931415926535919939b6b0000000100200020002, 188, 2, 5, 0x20, k11,
         0x84b4d0726282b24ca6b2332736d600000002004000400042);
    Emit(all, 0x84b4d0726282b24ca6b2332736d600000002004000400042, 193, 0, 1, 2, k12,
         0x10969a0e4c50564994d64664e6dac00000004008000800084);
    Emit(all, 0x10969a0e4c50564994d64664e6dac00000004008000800084, 194, 0, 1, 2, k13,
         0x212d341c98a0ac9329ac8cc9cdb5800000008010001000108);
    Emit(all, 0x212d341c98a0ac9329ac8cc9cdb5800000008010001000108, 195, 3, 2, 4, k14,
         0x84b4d0726282b24ca6b2332736d6000000020040004000423);
    Emit(all, 0x84b4d0726282b24ca6b2332736d6000000020040004000423, 197, 0, 1, 2, k,
         0x10969a0e4c50564994d64664e6dac000000040080008000846);
  }

  lemma Fields3(all: seq<bool>, k: seq<bool>)
    requires At(all, 0x10969a0e4c50564994d64664e6dac000000040080008000846, 198,
        BitsOf(2, 5) + (BitsOf(0, 1) + (BitsOf(0, 1) + (BitsOf(3, 2) + (BitsOf(0, 1) + k)))))
    ensures At(all, 0x425a683931415926535919939b6b000000010020002000211846, 208, k)
  {
    Powers(0);
    hide BitsOf, Pow2, At;
    var k19 := BitsOf(0, 1) + k;
    var k18 := BitsOf(3, 2) + k19;
    var k17 := BitsOf(0, 1) + k18;
    var k16 := BitsOf(0, 1) + k17;
    Emit(all, 0x10969a0e4c50564994d64664e6dac000000040080008000846, 198, 2, 5, 0x20, k16,
         0x212d341c98a0ac9329ac8cc9cdb5800000008010001000108c2);
    Emit(all, 0x212d341c98a0ac9329ac8cc9cdb5800000008010001000108c2, 203, 0, 1, 2, k17,
         0x425a683931415926535919939b6b00000001002000200021184);
    Emit(all, 0x425a683931415926535919939b6b00000001002000200021184, 204, 0, 1, 2, k18,
         0x84b4d0726282b24ca6b2332736d600000002004000400042308);
    Emit(all, 0x84b4d0726282b24ca6b2332736d600000002004000400042308, 205, 3, 2, 4, k19,
         0x212d341c98a0ac9329ac8cc9cdb5800000008010001000108c23);
    Emit(all, 0x212d341c98a0ac9329ac8cc9cdb5800000008010001000108c23, 207, 0, 1, 2, k,
         0x425a683931415926535919939b6b000000010020002000211846);
  }

  lemma Fields4(all: seq<bool>, k: seq<bool>)
    requires At(all, 0x425a683931415926535919939b6b000000010020002000211846, 208,
        BitsOf(2, 2) + (BitsOf(0, 1) + (BitsOf(0x177245385090, 48) + (BitsOf(0x19939b6b, 32) + k))))
    ensures At(all, 0x212d341c98a0ac9329ac8cc9cdb5800000008010001000108c23417724538509019939b6b, 291, k)
  {
    Powers(0);
    hide BitsOf, Pow2, At;
    var k23 := BitsOf(0x19939b6b, 32) + k;
    var k22 := BitsOf(0x177245385090, 48) + k23;
    var k21 := BitsOf(0, 1) + k22;
    Emit(all, 0x425a683931415926535919939b6b000000010020002000211846, 208, 2, 2, 4, k21,
         0x10969a0e4c50564994d64664e6dac00000004008000800084611a);
    Emit(all, 0x10969a0e4c50564994d64664e6dac00000004008000800084611a, 210, 0, 1, 2, k22,
         0x212d341c98a0ac9329ac8cc9cdb5800000008010001000108c234);
    Emit(all, 0x212d341c98a0ac9329ac8cc9cdb5800000008010001000108c234, 211, 0x177245385090, 48, 0x1000000000000, k23,
         0x212d341c98a0ac9329ac8cc9cdb5800000008010001000108c234177245385090);
    Emit(all, 0x212d341c98a0ac9329ac8cc9cdb5800000008010001000108c234177245385090, 259, 0x19939b6b, 32, 0x100000000, k,
         0x212d341c98a0ac9329ac8cc9cdb5800000008010001000108c23417724538509019939b6b);
  }

  lemma TrailerOfA(crc: u32, pad: seq<bool>)
    requires crc == 0x19939b6b
    ensures TrailerBits(crc, pad) == BitsOf(0x177245385090, 48) + (BitsOf(0x19939b6b, 32) + pad)
  {
    Marks();
    hide BitsOf, BytesThen, BigEndian;
    NumberBits(crc, 4, pad);
    NumberBits(0x177245385090, 6, BitsOf(0x19939b6b, 32) + pad);
    ThenConcat(END_MAGIC, BigEndian(crc, 4), pad);
  }

  lemma HeadOfA(k: seq<bool>)
    requires ValidImages([SentA()])
    ensures ValidImage(ImageA()) && StreamSoFar(9, [SentA()], k) == BitsOf(0x425a6839, 32) + BlockBits(ImageA(), k)
  {
    HeaderOf9();
    hide BitsOf, BytesThen, BigEndian, BlockBits, ValidImage, StreamHeader, UsedA;
    assert ValidImage([SentA()][0].im);
    assert BlocksFrom([SentA()], 1, k) == k;
    NumberBits(0x425a6839, 4, BlockBits(ImageA(), k));
  }

  lemma Begin(all: seq<bool>)
    ensures At(all, 0, 0, all)
  {
    NoBits(0);
    assert [] + all == all;
  }

  lemma End(all: seq<bool>, v: nat, m: nat, k: seq<bool>, n: nat, r: nat)
    requires At(all, v, m, k) && k == BitsOf(0, n) && n == 5 && r == 32 * v
    ensures all == BitsOf(r, m + n)
  {
    Powers(0);
    hide BitsOf, Pow2;
    assert BitsOf(0, n) + [] == BitsOf(0, n);
    Emit(all, v, m, 0, n, 32, [], r);
    assert BitsOf(r, m + n) + [] == BitsOf(r, m + n);
  }

  /** All fields together. */
  lemma BitsOfA(crc: u32, pad: seq<bool>)
    requires crc == 0x19939b6b && pad == BitsOf(0, 5) && ValidImages([SentA()])
    ensures StreamSoFar(9, [SentA()], TrailerBits(crc, pad)) == BitsOf(STREAM_OF_A, 296)
  {
    hide BitsOf, BlockBits, ValidImage, ValidImages, StreamSoFar, TrailerBits, MapBits, SelectorBits, TableBits;
    hide At, ImageA, SentA;
    var t := TrailerBits(crc, pad);
    var all := StreamSoFar(9, [SentA()], t);
    HeadOfA(t);
    FrontOfBlock(t);
    MapOfBlock(t);
    SelectorsOfBlock(t);
    var r := TablesOfBlock(t);
    TrailerOfA(crc, pad);
    Begin(all);
    Fields0(all, MapBits(ImageA(), t));
    Fields1(all, TableBits(ImageA(), t));
    Fields2(all, r);
    Fields3(all, BitsOf(2, 2) + (BitsOf(0, 1) + t));
    Fields4(all, pad);
    End(all, STREAM_OF_A / 32, 291, pad, 5, STREAM_OF_A);
  }

  lemma BytesOfA(pad: seq<bool>)
    requires pad == BitsOf(0, 5) && ValidImages([SentA()])
    ensures BytesBits(BigEndian(STREAM_OF_A, 37)) == StreamSoFar(9, [SentA()], TrailerBits(0x19939b6b, pad))
  {
    hide BitsOf, BigEndian, StreamSoFar, TrailerBits, SentA, ValidImages, BytesThen, BytesBits;
    BitsOfA(0x19939b6b, pad);
    NumberBits(STREAM_OF_A, 37, []);
    ThenNothing(BigEndian(STREAM_OF_A, 37));
    assert BitsOf(STREAM_OF_A, 296) + [] == BitsOf(STREAM_OF_A, 296);
  }

  lemma StreamFrom(z: seq<byte>, table: seq<u32>, k: nat, bl: seq<Sent>, crc: u32, pad: seq<bool>, source: seq<byte>)
    requires 1 <= k <= 9 && GoodBlocks(table, k, bl) && ValidImages(bl) && crc == Combined(table, bl, |bl|)
    requires BytesBits(z) == StreamSoFar(k, bl, TrailerBits(crc, pad)) && Plain(bl, |bl|) == source
    ensures IsStream(z, table, source, k, bl, crc, pad)
  {
    hide BytesBits, GoodBlocks, ValidImages, Combined, StreamSoFar, TrailerBits, Plain;
  }

  lemma GoodOfA(table: seq<u32>, bl: seq<Sent>)
    requires |table| == 256 && bl == [SentA()] && ValidSent(SentA(), 9) &&
        SentA().im.crc == BlockCrc(table, PlainOf(SentA()))
    ensures GoodBlocks(table, 9, bl) && ValidImages(bl)
  {
    hide ValidSent, BlockCrc, PlainOf, SentA;
    GoodImages(table, 9, bl);
  }

  /** The 37 bytes are a stream for "a": one block at block size 9, and five bits to fill the last byte. */
  lemma KnownIsStream()
    ensures IsStream(BigEndian(STREAM_OF_A, 37), CrcTable(), [97], 9, [SentA()], 0x19939b6b, BitsOf(0, 5))
  {
    hide BitsOf, BigEndian, StreamSoFar, TrailerBits, CrcTable, BlockCrc, ValidSent, PlainOf, Combined, SentA, IsStream;
    hide BytesBits, GoodBlocks, ValidImages, Plain;
    SentValid(1);
    CheckOfA();
    ChecksOfA();
    var bl, pad := [SentA()], BitsOf(0, 5);
    GoodOfA(CrcTable(), bl);
    BytesOfA(pad);
    PlainOfOne(bl);
    StreamFrom(BigEndian(STREAM_OF_A, 37), CrcTable(), 9, bl, 0x19939b6b, pad, [97]);
  }

  lemma PlainOfOne(bl: seq<Sent>)
    requires |bl| == 1
    ensures Plain(bl, 1) == PlainOf(bl[0])
  {
    hide PlainOf;
    assert Plain(bl, 0) == [];
    assert [] + PlainOf(bl[0]) == PlainOf(bl[0]);
  }

  lemma ChecksOfA()
    requires PlainOf(SentA()) == [97] && BlockCrc(CrcTable(), [97]) == 0x19939b6b
    ensures Combined(CrcTable(), [SentA()], 1) == 0x19939b6b && SentA().im.crc == 0x19939b6b
  {
    hide BlockCrc, CrcTable, PlainOf, Xor32, UsedA;
    var x: u32 := 0x19939b6b;
    XorWords(x, 0, 0);
    assert Combined(CrcTable(), [SentA()], 0) == 0;
    assert Combine(0, x) == x;
  }

  /** Decompressing the known stream, whole, gives the byte, in the FAST and in the SMALL form. */
  method DecompressKnown(small: bool) returns (plain: seq<byte>)
    ensures plain == [97]
  {
    hide IsStream, BigEndian, CrcTable;
    KnownIsStream();
    var table := seq(256, i requires 0 <= i < 256 => CrcEntry(i));
    assert table == CrcTable() by { SameTable(table); }
    var ret;
    ret, plain := BuffToBuffDecompress(BigEndian(STREAM_OF_A, 37), 1, small, table, [97]);
  }

  lemma SameTable(table: seq<u32>)
    requires table == seq(256, i requires 0 <= i < 256 => CrcEntry(i))
    ensures table == CrcTable()
  { }
}
