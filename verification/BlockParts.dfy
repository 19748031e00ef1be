/** Where a reader is within a block: for every point at which BZ2_decompress (decompress.c) may run out
    of input, what it has so far and what the rest of the stream looks like. Every read moves from one such
    point to the next. */
module BlockParts {
  import opened Rotations
  import opened Power
  import opened Permutations
  import opened Bits
  import opened BitIO
  import opened Canonical
  import opened MoveToFront
  import opened ByteMaps
  import opened BlockFormat

  /** `v` is what the first `n` bits of the stream say. */
  ghost predicate Got(todo: seq<bool>, v: nat, n: nat, rest: seq<bool>) {
    v < Pow2(n) && todo == BitsOf(v, n) + rest
  }

  lemma GotField(todo: seq<bool>, v: nat, n: nat, rest: seq<bool>, u: nat, after: seq<bool>)
    requires Got(todo, v, n, rest) && u < Pow2(n) && todo == BitsOf(u, n) + after
    ensures v == u && rest == after
  {
    SameValue(u, v, n, after, rest);
  }

  lemma GotBit(todo: seq<bool>, v: nat, rest: seq<bool>, b: bool, after: seq<bool>)
    requires Got(todo, v, 1, rest) && todo == [b] + after
    ensures v == (if b then 1 else 0) && rest == after
  {
    OneBitIs(b);
    assert Pow2(1) == 2;
    hide BitsOf, Pow2;
    GotField(todo, v, 1, rest, if b then 1 else 0, after);
  }

  // ----- Fixed bytes -----

  lemma GotByte(todo: seq<bool>, v: nat, rest: seq<bool>, s: seq<byte>, k: seq<bool>)
    requires Got(todo, v, 8, rest) && s != [] && todo == BytesThen(s, k)
    ensures v == s[0] && rest == BytesThen(s[1..], k)
  {
    Pow2Values();
    hide BitsOf, Pow2;
    GotField(todo, v, 8, rest, s[0], BytesThen(s[1..], k));
  }

  /** A number from its bytes, most significant first. */
  ghost function FromBytes(s: seq<byte>): nat {
    if s == [] then 0 else FromBytes(s[..|s| - 1]) * 256 + s[|s| - 1]
  }

  lemma FromBytesMore(s: seq<byte>, c: byte)
    ensures FromBytes(s + [c]) == FromBytes(s) * 256 + c
  {
    assert (s + [c])[..|s|] == s;
  }

  lemma {:induction false} FromBigEndian(v: nat, n: nat)
    requires v < Pow2(8 * n)
    ensures FromBytes(BigEndian(v, n)) == v
  {
    if n != 0 {
      assert Pow2(8 * n) == 256 * Pow2(8 * (n - 1)) by {
        Pow2Add(8 * (n - 1), 8);
        Pow2Values();
        assert 8 * (n - 1) + 8 == 8 * n;
      }
      FromBigEndian(v / 256, n - 1);
      FromBytesMore(BigEndian(v / 256, n - 1), v % 256);
    }
  }

  // ----- The map -----

  ghost predicate AtMap16(im: Image, tail: seq<bool>, inUse16: seq<bool>, i: nat, todo: seq<bool>) {
    && ValidImage(im) && i <= 16 == |inUse16| && (forall x :: 0 <= x < i ==> inUse16[x] == AnyOf(im.inUse, x))
    && todo == Map16From(im.inUse, i, MapFrom(im.inUse, 0, 0, SelectorBits(im, tail)))
  }

  lemma Map16Start(im: Image, tail: seq<bool>, inUse16: seq<bool>)
    requires ValidImage(im) && |inUse16| == 16
    ensures AtMap16(im, tail, inUse16, 0, MapBits(im, tail))
  {
  }

  lemma Map16Step(im: Image, tail: seq<bool>, inUse16: seq<bool>, i: nat, todo: seq<bool>, v: nat, rest: seq<bool>)
    requires AtMap16(im, tail, inUse16, i, todo) && i < 16 && Got(todo, v, 1, rest)
    ensures AtMap16(im, tail, inUse16[i := v == 1], i + 1, rest)
  {
    hide Got, AnyOf, ValidImage, SelectorBits, MapFrom;
    assert |im.inUse| == 256 by { ImageShape(im); }
    GotBit(todo, v, rest, AnyOf(im.inUse, i),
        Map16From(im.inUse, i + 1, MapFrom(im.inUse, 0, 0, SelectorBits(im, tail))));
  }

  lemma ImageShape(im: Image)
    requires ValidImage(im)
    ensures |im.inUse| == 256 && 2 <= im.nGroups <= N_GROUPS && |im.lens| == im.nGroups &&
        1 <= |im.selectors| <= MAX_SELECTORS
    ensures 0 < |Used(im.inUse, 256)| <= 256 && im.crc < 0x1_0000_0000 && im.origPtr < 900000
    ensures forall i :: 0 <= i < |im.selectors| ==> 0 <= im.selectors[i] < im.nGroups
    ensures |im.syms| > 0 && |im.selectors| == (|im.syms| + G_SIZE - 1) / G_SIZE
  {
  }

  /** Bit `j` of group `i` is next, or the position just behind a group. */
  ghost predicate AtMap(im: Image, tail: seq<bool>, inUse16: seq<bool>, inUse: seq<bool>, i: nat, j: nat,
                        todo: seq<bool>) {
    && ValidImage(im) && i <= 16 == |inUse16| && j <= 16 && |inUse| == 256
    && (forall x :: 0 <= x < 16 ==> inUse16[x] == AnyOf(im.inUse, x))
    && (forall x :: 0 <= x < 256 ==> inUse[x] == (x < 16 * i + j && im.inUse[x]))
    && todo == MapFrom(im.inUse, i, j, SelectorBits(im, tail))
  }

  lemma MapStart(im: Image, tail: seq<bool>, inUse16: seq<bool>, todo: seq<bool>)
    requires AtMap16(im, tail, inUse16, 16, todo)
    ensures AtMap(im, tail, inUse16, seq(256, x => false), 0, 0, todo)
  {
    hide AnyOf, ValidImage, SelectorBits, MapFrom;
  }

  /** Past the end of a group, or past a group that was not sent. */
  lemma MapSkip(im: Image, tail: seq<bool>, inUse16: seq<bool>, inUse: seq<bool>, i: nat, j: nat, todo: seq<bool>)
    requires AtMap(im, tail, inUse16, inUse, i, j, todo) && i < 16 && (j == 16 || (j == 0 && !inUse16[i]))
    ensures AtMap(im, tail, inUse16, inUse, i + 1, 0, todo)
  {
    hide ValidImage, SelectorBits;
    ImageShape(im);
    forall x | 0 <= x < 256
      ensures inUse[x] == (x < 16 * (i + 1) && im.inUse[x])
    {
      if 16 * i <= x < 16 * i + 16 && j == 0 {
        assert !AnyOf(im.inUse, i);
      }
    }
  }

  lemma MapStep(im: Image, tail: seq<bool>, inUse16: seq<bool>, inUse: seq<bool>, i: nat, j: nat, todo: seq<bool>,
                v: nat, rest: seq<bool>)
    requires AtMap(im, tail, inUse16, inUse, i, j, todo) && i < 16 && j < 16 && inUse16[i] && Got(todo, v, 1, rest)
    ensures AtMap(im, tail, inUse16, if v == 1 then inUse[i * 16 + j := true] else inUse, i, j + 1, rest)
  {
    hide Got, AnyOf, ValidImage, SelectorBits;
    ImageShape(im);
    GotBit(todo, v, rest, im.inUse[16 * i + j], MapFrom(im.inUse, i, j + 1, SelectorBits(im, tail)));
  }

  lemma MapDone(im: Image, tail: seq<bool>, inUse16: seq<bool>, inUse: seq<bool>, i: nat, j: nat, todo: seq<bool>)
    requires AtMap(im, tail, inUse16, inUse, i, j, todo) && i == 16
    ensures inUse == im.inUse && todo == SelectorBits(im, tail)
  {
    hide AnyOf, ValidImage, SelectorBits;
    ImageShape(im);
  }

  // ----- The selectors -----

  lemma SelectorFields(im: Image, tail: seq<bool>)
    requires ValidImage(im)
    ensures im.nGroups < Pow2(3) && |im.selectors| < Pow2(15)
    ensures SelectorBits(im, tail) ==
            BitsOf(im.nGroups, 3) + (BitsOf(|im.selectors|, 15) + SelectorsFrom(Positions(im), 0, TableBits(im, tail)))
  {
    ImageShape(im);
    assert Pow2(5) == 32 && Pow2(3) == 8;
    Pow2Add(5, 5);
    Pow2Add(10, 5);
  }

  /** `m` are the positions read so far, and `j` ones of the next. */
  ghost predicate AtSelector(im: Image, tail: seq<bool>, m: seq<int>, j: nat, todo: seq<bool>) {
    && ValidImage(im) && |m| < |im.selectors| && m == Positions(im)[..|m|] && j <= Positions(im)[|m|] < im.nGroups
    && todo == UnaryThen(Positions(im)[|m|] - j, SelectorsFrom(Positions(im), |m| + 1, TableBits(im, tail)))
  }

  lemma PositionsBelow(im: Image)
    requires 0 < im.nGroups
    ensures forall x :: 0 <= x < |im.selectors| ==> Positions(im)[x] < im.nGroups
  {
    PositionsInRange(Identity(im.nGroups), im.selectors);
  }

  lemma SelectorStart(im: Image, tail: seq<bool>, m: seq<int>, todo: seq<bool>)
    requires ValidImage(im) && |m| <= |im.selectors| && m == Positions(im)[..|m|]
    requires todo == SelectorsFrom(Positions(im), |m|, TableBits(im, tail))
    ensures |m| < |im.selectors| ==> AtSelector(im, tail, m, 0, todo)
    ensures |m| == |im.selectors| ==> m == Positions(im) && todo == TableBits(im, tail)
  {
    hide ValidImage, TableBits, UnaryThen, Positions;
    ImageShape(im);
    PositionsBelow(im);
    assert Positions(im)[..|im.selectors|] == Positions(im);
  }

  lemma SelectorOne(im: Image, tail: seq<bool>, m: seq<int>, j: nat, todo: seq<bool>, v: nat, rest: seq<bool>)
    requires AtSelector(im, tail, m, j, todo) && Got(todo, v, 1, rest) && v != 0
    ensures j + 1 < im.nGroups && AtSelector(im, tail, m, j + 1, rest)
  {
    hide Got, ValidImage, TableBits, Positions, SelectorsFrom;
    var n := Positions(im)[|m|] - j;
    var k := SelectorsFrom(Positions(im), |m| + 1, TableBits(im, tail));
    if n == 0 {
      GotBit(todo, v, rest, false, k);
    } else {
      GotBit(todo, v, rest, true, UnaryThen(n - 1, k));
    }
  }

  lemma SelectorZero(im: Image, tail: seq<bool>, m: seq<int>, j: nat, todo: seq<bool>, v: nat, rest: seq<bool>)
    requires AtSelector(im, tail, m, j, todo) && Got(todo, v, 1, rest) && v == 0
    ensures m + [j] == Positions(im)[..|m| + 1]
    ensures rest == SelectorsFrom(Positions(im), |m| + 1, TableBits(im, tail))
  {
    hide Got, ValidImage, TableBits, Positions, SelectorsFrom;
    var n := Positions(im)[|m|] - j;
    var k := SelectorsFrom(Positions(im), |m| + 1, TableBits(im, tail));
    if n == 0 {
      GotBit(todo, v, rest, false, k);
    } else {
      GotBit(todo, v, rest, true, UnaryThen(n - 1, k));
    }
  }

  /** Undoing the selectors' move-to-front, one step. */
  lemma SelectorUndone(p: seq<int>, n: nat, sel: seq<int>, i: nat, m: seq<int>)
    requires IsPerm(p, n) && i < |sel| == |m| && 0 <= sel[i] < n && m[i..] == SelectorPositions(p, sel[i..])
    ensures 0 <= m[i] < n && p[m[i]] == sel[i] && IsPerm(ToFront(p, m[i]), n)
    ensures m[i + 1..] == SelectorPositions(ToFront(p, m[i]), sel[i + 1..])
  {
    PermOnto(p, n, sel[i]);
    assert m[i..][0] == m[i] && sel[i..][0] == sel[i];
    assert m[i] == Where(p, sel[i]);
    ToFrontPerm(p, n, m[i]);
    assert sel[i..][1..] == sel[i + 1..] && m[i..][1..] == m[i + 1..];
  }

  /** decompress.c:302-314. */
  method UndoSelectors(m: seq<int>, nGroups: nat, ghost sel: seq<int>) returns (selector: seq<int>)
    requires 0 < nGroups <= N_GROUPS && (forall i :: 0 <= i < |sel| ==> 0 <= sel[i] < nGroups)
    requires m == SelectorPositions(Identity(nGroups), sel)
    ensures selector == sel
  {
    hide SelectorPositions, IsPerm, ToFront;
    var pos := IdentityArray(nGroups);
    IdentityPerm(nGroups);
    selector := [];
    assert m[0..] == m && sel[0..] == sel;
    for i := 0 to |m|
      invariant selector == sel[..i] && |m| == |sel| && IsPerm(pos[..nGroups], nGroups)
      invariant m[i..] == SelectorPositions(pos[..nGroups], sel[i..])
    {
      SelectorUndone(pos[..nGroups], nGroups, sel, i, m);
      var tmp := TakeFront(pos, nGroups, m[i]);
      selector := selector + [tmp];
    }
  }

  method IdentityArray(nGroups: nat) returns (pos: array<int>)
    requires nGroups <= N_GROUPS
    ensures fresh(pos) && pos.Length == N_GROUPS && pos[..nGroups] == Identity(nGroups)
  {
    pos := new int[N_GROUPS](_ => 0);
    for v := 0 to nGroups
      invariant forall k :: 0 <= k < v ==> pos[k] == k
    {
      pos[v] := v;
    }
  }

  method TakeFront(pos: array<int>, ghost n: nat, v0: nat) returns (tmp: int)
    requires v0 < n <= pos.Length
    modifies pos
    ensures tmp == old(pos[..n])[v0] && pos[..n] == ToFront(old(pos[..n]), v0)
  {
    ghost var y: seq<int> := pos[..];
    assert pos[..n] == y[..n];
    var v := v0;
    tmp := pos[v];
    while v > 0
      invariant 0 <= v <= v0
      invariant forall x :: v < x <= v0 ==> pos[x] == y[x - 1]
      invariant forall x :: 0 <= x < pos.Length && !(v < x <= v0) ==> pos[x] == y[x]
    {
      pos[v] := pos[v - 1];
      v := v - 1;
    }
    pos[0] := tmp;
    assert pos[..n] == ToFront(y[..n], v0);
  }

  // ----- The coding tables -----

  /** In table `t` the lengths `len` are known, and the next one is being approached from `curr`. */
  ghost predicate AtLength(im: Image, tail: seq<bool>, t: nat, len: seq<int>, curr: int, todo: seq<bool>) {
    && ValidImage(im) && t < im.nGroups && |len| < |im.lens[t]| && len == im.lens[t][..|len|] && 1 <= curr <= 20
    && todo == (ValidTables(im); LensFrom(im.lens[t], |len|, curr, TablesFrom(im.lens, t + 1, SymbolBits(im, tail))))
  }

  /** The length differs from `curr`; whether it is less is next. */
  ghost predicate AtDirection(im: Image, tail: seq<bool>, t: nat, len: seq<int>, curr: int, todo: seq<bool>) {
    && ValidImage(im) && t < im.nGroups && |len| < |im.lens[t]| && len == im.lens[t][..|len|] && 1 <= curr <= 20
    && 1 <= im.lens[t][|len|] <= 20 && curr != im.lens[t][|len|]
    && todo == (ValidTables(im); [curr > im.lens[t][|len|]] +
                LensFrom(im.lens[t], |len|, if curr > im.lens[t][|len|] then curr - 1 else curr + 1,
                         TablesFrom(im.lens, t + 1, SymbolBits(im, tail))))
  }

  lemma TableStart(im: Image, tail: seq<bool>, t: nat, todo: seq<bool>, v: nat, rest: seq<bool>)
    requires ValidImage(im) && t < im.nGroups && Got(todo, v, 5, rest)
    requires todo == (ValidTables(im); TablesFrom(im.lens, t, SymbolBits(im, tail)))
    ensures AtLength(im, tail, t, [], v, rest)
  {
    ValidTables(im);
    TableLength(im, t, 0);
    assert Pow2(5) == 32;
    hide ValidImage, SymbolBits, LensFrom, Got, BitsOf, Pow2;
    var after := TablesFrom(im.lens, t + 1, SymbolBits(im, tail));
    GotField(todo, v, 5, rest, im.lens[t][0], LensFrom(im.lens[t], 0, im.lens[t][0], after));
  }

  lemma TableLength(im: Image, t: nat, i: nat)
    requires ValidImage(im) && t < im.nGroups
    ensures |im.lens| == im.nGroups && |im.lens[t]| == |Used(im.inUse, 256)| + 2
    ensures i < |im.lens[t]| ==> 1 <= im.lens[t][i] <= 20
  {
    assert ValidTable(im.lens[t], |Used(im.inUse, 256)| + 2);
  }

  /** How one length is approached. */
  lemma LengthBits(len: seq<int>, i: nat, curr: int, k: seq<bool>)
    requires i < |len|
    ensures curr == len[i] ==> LensFrom(len, i, curr, k) == [false] + LensFrom(len, i + 1, curr, k)
    ensures curr < len[i] ==> LensFrom(len, i, curr, k) == [true] + ([false] + LensFrom(len, i, curr + 1, k))
    ensures curr > len[i] ==> LensFrom(len, i, curr, k) == [true] + ([true] + LensFrom(len, i, curr - 1, k))
  {
    var x := LensFrom(len, i + 1, len[i], k);
    if curr < len[i] {
      assert DeltaThen(curr, len[i], x) == [true, false] + DeltaThen(curr + 1, len[i], x);
      assert [true, false] + DeltaThen(curr + 1, len[i], x) == [true] + ([false] + DeltaThen(curr + 1, len[i], x));
    } else if curr > len[i] {
      assert DeltaThen(curr, len[i], x) == [true, true] + DeltaThen(curr - 1, len[i], x);
      assert [true, true] + DeltaThen(curr - 1, len[i], x) == [true] + ([true] + DeltaThen(curr - 1, len[i], x));
    }
  }

  /** A zero: the length is `curr`. */
  lemma LengthReached(im: Image, tail: seq<bool>, t: nat, len: seq<int>, curr: int, todo: seq<bool>, v: nat,
                      rest: seq<bool>)
    requires AtLength(im, tail, t, len, curr, todo) && Got(todo, v, 1, rest) && v == 0
    ensures |len| + 1 < |im.lens[t]| ==> AtLength(im, tail, t, len + [curr], curr, rest)
    ensures |len| + 1 == |im.lens[t]| ==>
              len + [curr] == im.lens[t] && rest == (ValidTables(im); TablesFrom(im.lens, t + 1, SymbolBits(im, tail)))
  {
    hide ValidImage, SymbolBits, Got, TablesFrom, DeltaThen;
    ValidTables(im);
    TableLength(im, t, |len|);
    var l, after := im.lens[t], TablesFrom(im.lens, t + 1, SymbolBits(im, tail));
    LengthBits(l, |len|, curr, after);
    if curr == l[|len|] {
      GotBit(todo, v, rest, false, LensFrom(l, |len| + 1, curr, after));
    } else if curr < l[|len|] {
      GotBit(todo, v, rest, true, [false] + LensFrom(l, |len|, curr + 1, after));
    } else {
      GotBit(todo, v, rest, true, [true] + LensFrom(l, |len|, curr - 1, after));
    }
  }

  /** A one: it is not. */
  lemma LengthDiffers(im: Image, tail: seq<bool>, t: nat, len: seq<int>, curr: int, todo: seq<bool>, v: nat,
                      rest: seq<bool>)
    requires AtLength(im, tail, t, len, curr, todo) && Got(todo, v, 1, rest) && v != 0
    ensures AtDirection(im, tail, t, len, curr, rest)
  {
    hide ValidImage, SymbolBits, Got, TablesFrom, DeltaThen, LensFrom;
    ValidTables(im);
    TableLength(im, t, |len|);
    var l, after := im.lens[t], TablesFrom(im.lens, t + 1, SymbolBits(im, tail));
    LengthBits(l, |len|, curr, after);
    if curr == l[|len|] {
      GotBit(todo, v, rest, false, LensFrom(l, |len| + 1, curr, after));
    } else if curr < l[|len|] {
      GotBit(todo, v, rest, true, [false] + LensFrom(l, |len|, curr + 1, after));
    } else {
      GotBit(todo, v, rest, true, [true] + LensFrom(l, |len|, curr - 1, after));
    }
  }

  lemma DirectionStep(im: Image, tail: seq<bool>, t: nat, len: seq<int>, curr: int, todo: seq<bool>, v: nat,
                      rest: seq<bool>)
    requires AtDirection(im, tail, t, len, curr, todo) && Got(todo, v, 1, rest)
    ensures AtLength(im, tail, t, len, if v == 0 then curr + 1 else curr - 1, rest)
  {
    hide ValidImage, SymbolBits, Got, TablesFrom, LensFrom;
    ValidTables(im);
    TableLength(im, t, |len|);
    var l, after := im.lens[t], TablesFrom(im.lens, t + 1, SymbolBits(im, tail));
    var b := curr > l[|len|];
    GotBit(todo, v, rest, b, LensFrom(l, |len|, if b then curr - 1 else curr + 1, after));
  }

  // ----- The symbols -----

  /** Symbol `x` is next. */
  ghost predicate AtSymbol(im: Image, tail: seq<bool>, x: nat, todo: seq<bool>) {
    ValidImage(im) && x < |im.syms| && todo == (ValidTables(im); SymsFrom(im, x, tail))
  }

  /** `n` bits of symbol `x` are in. */
  ghost predicate AtCodeBits(im: Image, tail: seq<bool>, x: nat, n: nat, zvec: int, todo: seq<bool>) {
    && ValidImage(im) && x < |im.syms|
    && (ValidTables(im); SymCoded(im, x);
        var len, sym := TableOf(im, x), im.syms[x];
        n <= len[sym] && zvec == Shr(CodeOf(len, sym), len[sym] - n)
        && todo == BitsOf(CodeOf(len, sym), len[sym] - n) + SymsFrom(im, x + 1, tail))
  }

  lemma SymbolsStart(im: Image, tail: seq<bool>)
    requires ValidImage(im)
    ensures AtSymbol(im, tail, 0, SymbolBits(im, tail))
  {
  }

  /** The first `n` bits of a code that is at least that long. */
  lemma CodeFirst(im: Image, tail: seq<bool>, x: nat, todo: seq<bool>, n: nat, v: nat, rest: seq<bool>)
    requires AtSymbol(im, tail, x, todo) && Got(todo, v, n, rest)
    requires forall i :: 0 <= i < |TableOf(im, x)| ==> n <= TableOf(im, x)[i]
    ensures AtCodeBits(im, tail, x, n, v, rest)
  {
    hide ValidImage, TableOf, BitsOf, Pow2, Decodable, Shr, CodeOf;
    ValidTables(im);
    SymCoded(im, x);
    var len, sym := TableOf(im, x), im.syms[x];
    CodeFits(len, sym);
    FirstBits(CodeOf(len, sym), len[sym], n, v, rest, SymsFrom(im, x + 1, tail));
  }

  /** One more bit of a code that is not complete. */
  lemma CodeNext(im: Image, tail: seq<bool>, x: nat, n: nat, zvec: int, todo: seq<bool>, v: nat, rest: seq<bool>)
    requires AtCodeBits(im, tail, x, n, zvec, todo) && Got(todo, v, 1, rest)
    requires (ValidTables(im); SymCoded(im, x); n < TableOf(im, x)[im.syms[x]])
    ensures AtCodeBits(im, tail, x, n + 1, 2 * zvec + v, rest)
  {
    hide ValidImage, TableOf, BitsOf, Pow2, Decodable, Shr, CodeOf, SymsFrom;
    ValidTables(im);
    SymCoded(im, x);
    var len, sym := TableOf(im, x), im.syms[x];
    var c, l := CodeOf(len, sym), len[sym];
    NextBit(c, l, n);
    assert l - (n + 1) == l - n - 1;
    OneBit(Shr(c, l - n - 1) % 2, v, BitsOf(c, l - n - 1) + SymsFrom(im, x + 1, tail), rest, BitsOf(c, l - n - 1),
        SymsFrom(im, x + 1, tail));
  }

  /** The limit test tells whether the code is complete, and then which symbol it is. */
  lemma CodeTest(im: Image, tail: seq<bool>, x: nat, n: nat, zvec: int, todo: seq<bool>,
                 minLen: nat, maxLen: nat, limit: seq<int>, base: seq<int>, perm: seq<int>)
    requires AtCodeBits(im, tail, x, n, zvec, todo) && minLen <= n
    requires Tables(TableOf(im, x), minLen, maxLen, limit, base, perm)
    ensures |limit| == |base| == |perm| == MAX_ALPHA_SIZE && n <= 20
    ensures (ValidTables(im); SymCoded(im, x); n <= TableOf(im, x)[im.syms[x]])
    ensures (ValidTables(im); SymCoded(im, x); zvec <= limit[n] <==> n == TableOf(im, x)[im.syms[x]])
    ensures zvec <= limit[n] ==> 0 <= zvec - base[n] < MAX_ALPHA_SIZE && perm[zvec - base[n]] == im.syms[x]
    ensures zvec <= limit[n] && x + 1 < |im.syms| ==> AtSymbol(im, tail, x + 1, todo)
    ensures zvec <= limit[n] && x + 1 == |im.syms| ==> todo == tail
  {
    hide ValidImage, TableOf, Pow2, Decodable, CodeOf, Tables, Shr, BitsOf;
    ValidTables(im);
    SymCoded(im, x);
    var len, sym := TableOf(im, x), im.syms[x];
    TableEntries(len, minLen, maxLen, limit, base, perm, n, sym);
    LimitTest(len, minLen, maxLen, limit, base, perm, sym, n);
    if zvec <= limit[n] {
      ShrNone(CodeOf(len, sym));
      NoBits(CodeOf(len, sym));
      assert [] + SymsFrom(im, x + 1, tail) == SymsFrom(im, x + 1, tail);
    }
  }
}
