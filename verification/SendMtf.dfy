/** sendMTFValues (compress.c): choosing coding tables, and writing a block's map, selectors, tables and
    symbols. */
module SendMtf {
  import opened Power
  import opened Multiples
  import opened Permutations
  import opened Bits
  import opened BitIO
  import opened Canonical
  import opened MoveToFront
  import opened ByteMaps
  import opened GenerateMtf
  import opened SymbolStage
  import opened HuffmanTree
  import opened HuffmanLengths
  import opened BlockFormat

  // ----- Writing fields -----

  /** `bsW(s, n, v)`: what is written and what is still to be written stay the same in all. */
  method Field(w: BitWriter, n: nat, v: nat, ghost rest: seq<bool>, ghost all: seq<bool>)
    requires w.Valid() && n <= 24 && v < Pow2(n) && w.Out() + (BitsOf(v, n) + rest) == all
    modifies w
    ensures w.Valid() && w.Out() + rest == all
  {
    hide BitsOf, Pow2, BitWriter.Out, BitWriter.Valid;
    ghost var o := w.Out();
    w.BsW(n, v);
    assert o + (BitsOf(v, n) + rest) == o + BitsOf(v, n) + rest;
  }

  /** `bsW(s, 1, b)`. */
  method Bit(w: BitWriter, b: bool, ghost rest: seq<bool>, ghost all: seq<bool>)
    requires w.Valid() && w.Out() + ([b] + rest) == all
    modifies w
    ensures w.Valid() && w.Out() + rest == all
  {
    hide BitWriter.Out, BitWriter.Valid;
    OneBitIs(b);
    assert Pow2(1) == 2;
    hide Pow2, BitsOf;
    if b { Field(w, 1, 1, rest, all); } else { Field(w, 1, 0, rest, all); }
  }

  // ----- The map -----

  method UsedGroups(inUse: array<bool>) returns (inUse16: array<bool>)
    requires inUse.Length == 256
    ensures fresh(inUse16) && inUse16.Length == 16 && forall i :: 0 <= i < 16 ==> inUse16[i] == AnyOf(inUse[..], i)
  {
    ghost var u := inUse[..];
    inUse16 := new bool[16];
    for i := 0 to 16
      invariant forall x :: 0 <= x < i ==> inUse16[x] == AnyOf(u, x)
    {
      inUse16[i] := false;
      for j := 0 to 16
        invariant forall x :: 0 <= x < i ==> inUse16[x] == AnyOf(u, x)
        invariant inUse16[i] == exists x :: 16 * i <= x < 16 * i + j && u[x]
      {
        if inUse[i * 16 + j] { inUse16[i] := true; }
      }
    }
  }

  method SendGroupBits(w: BitWriter, inUse16: array<bool>, ghost u: seq<bool>, ghost rest: seq<bool>,
                       ghost all: seq<bool>)
    requires |u| == 256 && inUse16.Length == 16 && forall i :: 0 <= i < 16 ==> inUse16[i] == AnyOf(u, i)
    requires w.Valid() && w.Out() + Map16From(u, 0, rest) == all
    modifies w
    ensures w.Valid() && w.Out() + rest == all
  {
    hide BitWriter.Out, BitWriter.Valid, AnyOf;
    for i := 0 to 16
      invariant w.Valid() && w.Out() + Map16From(u, i, rest) == all
    {
      Bit(w, inUse16[i], Map16From(u, i + 1, rest), all);
    }
  }

  /** The bits of group `i`. */
  method SendGroup(w: BitWriter, inUse: array<bool>, i: nat, ghost rest: seq<bool>, ghost all: seq<bool>)
    requires inUse.Length == 256 && i < 16 && AnyOf(inUse[..], i)
    requires w.Valid() && w.Out() + MapFrom(inUse[..], i, 0, rest) == all
    modifies w
    ensures w.Valid() && w.Out() + MapFrom(inUse[..], i + 1, 0, rest) == all
  {
    hide BitWriter.Out, BitWriter.Valid, AnyOf, MapFrom;
    ghost var u := inUse[..];
    for j := 0 to 16
      invariant w.Valid() && w.Out() + MapFrom(u, i, j, rest) == all
    {
      GroupBit(u, i, j, rest);
      Bit(w, inUse[i * 16 + j], MapFrom(u, i, j + 1, rest), all);
    }
    GroupBit(u, i, 16, rest);
  }

  lemma GroupBit(u: seq<bool>, i: nat, j: nat, rest: seq<bool>)
    requires |u| == 256 && i < 16 && j <= 16 && AnyOf(u, i)
    ensures MapFrom(u, i, j, rest) ==
        if j < 16 then [u[16 * i + j]] + MapFrom(u, i, j + 1, rest) else MapFrom(u, i + 1, 0, rest)
  {
    hide AnyOf;
  }

  /** The used-byte map. */
  method SendMap(w: BitWriter, inUse: array<bool>, ghost rest: seq<bool>, ghost all: seq<bool>)
    requires inUse.Length == 256 && w.Valid()
    requires w.Out() + Map16From(inUse[..], 0, MapFrom(inUse[..], 0, 0, rest)) == all
    modifies w
    ensures w.Valid() && w.Out() + rest == all
  {
    hide BitWriter.Out, BitWriter.Valid, AnyOf, Map16From;
    ghost var u := inUse[..];
    var inUse16 := UsedGroups(inUse);
    SendGroupBits(w, inUse16, u, MapFrom(u, 0, 0, rest), all);
    for i := 0 to 16
      invariant w.Valid() && w.Out() + MapFrom(u, i, 0, rest) == all
      invariant forall x :: 0 <= x < 16 ==> inUse16[x] == AnyOf(u, x)
    {
      if inUse16[i] {
        SendGroup(w, inUse, i, rest, all);
      }
    }
  }

  // ----- The selectors -----

  /** The selectors' move-to-front positions. */
  method CodeSelectors(sel: seq<int>, nGroups: nat) returns (m: seq<int>)
    requires 0 < nGroups <= N_GROUPS && forall i :: 0 <= i < |sel| ==> 0 <= sel[i] < nGroups
    ensures m == SelectorPositions(Identity(nGroups), sel)
  {
    hide SelectorPositions, Where;
    var pos := new int[N_GROUPS](_ => 0);
    for i := 0 to nGroups
      invariant forall k :: 0 <= k < i ==> pos[k] == k
    {
      pos[i] := i;
    }
    IdentityPerm(nGroups);
    assert pos[..nGroups] == Identity(nGroups);
    m := [];
    assert sel[0..] == sel;
    for i := 0 to |sel|
      invariant |m| == i && IsPerm(pos[..nGroups], nGroups)
      invariant m + SelectorPositions(pos[..nGroups], sel[i..]) == SelectorPositions(Identity(nGroups), sel)
    {
      hide IsPerm;
      ghost var p := pos[..nGroups];
      PermOnto(p, nGroups, sel[i]);
      PositionsStep(p, nGroups, sel, i);
      var j := MoveSelector(pos, nGroups, sel[i]);
      m := m + [j];
    }
    NoPositions(pos[..nGroups], sel[|sel|..]);
  }

  lemma NoPositions(p: seq<int>, sel: seq<int>)
    requires sel == []
    ensures SelectorPositions(p, sel) == []
  {
  }

  lemma PositionsStep(p: seq<int>, n: nat, sel: seq<int>, i: nat)
    requires i < |sel| && sel[i] in p && IsPerm(p, n)
    ensures SelectorPositions(p, sel[i..]) ==
            [Where(p, sel[i])] + SelectorPositions(ToFront(p, Where(p, sel[i])), sel[i + 1..])
    ensures IsPerm(ToFront(p, Where(p, sel[i])), n)
  {
    ToFrontPerm(p, n, Where(p, sel[i]));
    assert sel[i..][1..] == sel[i + 1..];
  }

  /** One selector moves to the front. */
  method MoveSelector(pos: array<int>, ghost n: nat, ll: int) returns (j: nat)
    requires n <= pos.Length && ll in pos[..n]
    modifies pos
    ensures j == Where(old(pos[..n]), ll) && pos[..n] == ToFront(old(pos[..n]), j)
  {
    ghost var y: seq<int> := pos[..];
    assert pos[..n] == y[..n];
    ghost var k := Where(y[..n], ll);
    forall x | 0 <= x < k
      ensures y[x] != ll
    {
      assert y[x] == y[..n][..k][x];
    }
    j := 0;
    var tmp := pos[j];
    while ll != tmp
      invariant 0 <= j <= k < n && tmp == y[j]
      invariant j > 0 ==> forall x :: 1 <= x <= j ==> pos[x] == y[x - 1]
      invariant forall x :: j < x < pos.Length ==> pos[x] == y[x]
      decreases k - j
    {
      j := j + 1;
      var tmp2 := tmp;
      tmp := pos[j];
      pos[j] := tmp2;
    }
    pos[0] := tmp;
    assert pos[..n] == ToFront(y[..n], j);
  }

  method SendUnary(w: BitWriter, n: nat, ghost rest: seq<bool>, ghost all: seq<bool>)
    requires w.Valid() && w.Out() + UnaryThen(n, rest) == all
    modifies w
    ensures w.Valid() && w.Out() + rest == all
  {
    hide BitWriter.Out, BitWriter.Valid;
    for j := 0 to n
      invariant w.Valid() && w.Out() + UnaryThen(n - j, rest) == all
    {
      Bit(w, true, UnaryThen(n - j - 1, rest), all);
    }
    Bit(w, false, rest, all);
  }

  method SendSelectors(w: BitWriter, nGroups: nat, m: seq<int>, ghost rest: seq<bool>, ghost all: seq<bool>)
    requires w.Valid() && nGroups <= N_GROUPS && |m| <= MAX_SELECTORS && forall i :: 0 <= i < |m| ==> m[i] >= 0
    requires w.Out() + (BitsOf(nGroups, 3) + (BitsOf(|m|, 15) + SelectorsFrom(m, 0, rest))) == all
    modifies w
    ensures w.Valid() && w.Out() + rest == all
  {
    SmallFields();
    hide BitWriter.Out, BitWriter.Valid, BitsOf, Pow2, UnaryThen;
    Field(w, 3, nGroups, BitsOf(|m|, 15) + SelectorsFrom(m, 0, rest), all);
    Field(w, 15, |m|, SelectorsFrom(m, 0, rest), all);
    for i := 0 to |m|
      invariant w.Valid() && w.Out() + SelectorsFrom(m, i, rest) == all
    {
      SendUnary(w, m[i], SelectorsFrom(m, i + 1, rest), all);
    }
  }

  lemma SmallFields()
    ensures Pow2(2) == 4 && Pow2(3) == 8 && Pow2(5) == 32 && Pow2(15) == 32768
  {
    assert Pow2(5) == 32;
    Pow2Add(5, 5);
    Pow2Add(10, 5);
  }

  // ----- The coding tables -----

  lemma TwoBits(b: bool)
    ensures BitsOf(if b then 3 else 2, 2) == [true, b]
  {
    assert BitsOf(1, 1) == [true] by { OneBitIs(true); }
  }

  method SendDelta(w: BitWriter, curr0: int, target: int, ghost rest: seq<bool>, ghost all: seq<bool>)
    requires w.Valid() && w.Out() + DeltaThen(curr0, target, rest) == all
    modifies w
    ensures w.Valid() && w.Out() + rest == all
  {
    SmallFields();
    TwoBits(true);
    TwoBits(false);
    hide BitWriter.Out, BitWriter.Valid, BitsOf, Pow2;
    var curr := curr0;
    while curr < target
      invariant curr <= target || curr == curr0
      invariant w.Valid() && w.Out() + DeltaThen(curr, target, rest) == all
      decreases target - curr
    {
      Field(w, 2, 2, DeltaThen(curr + 1, target, rest), all);
      curr := curr + 1;
    }
    while curr > target
      invariant curr >= target
      invariant w.Valid() && w.Out() + DeltaThen(curr, target, rest) == all
      decreases curr - target
    {
      Field(w, 2, 3, DeltaThen(curr - 1, target, rest), all);
      curr := curr - 1;
    }
    Bit(w, false, rest, all);
  }

  method SendTables(w: BitWriter, lens: seq<seq<int>>, ghost rest: seq<bool>, ghost all: seq<bool>)
    requires w.Valid() && forall x :: 0 <= x < |lens| ==> |lens[x]| > 0 && 0 <= lens[x][0] <= 20
    requires w.Out() + TablesFrom(lens, 0, rest) == all
    modifies w
    ensures w.Valid() && w.Out() + rest == all
  {
    SmallFields();
    hide BitWriter.Out, BitWriter.Valid, BitsOf, Pow2, DeltaThen;
    for t := 0 to |lens|
      invariant w.Valid() && w.Out() + TablesFrom(lens, t, rest) == all
    {
      var len := lens[t];
      ghost var after := TablesFrom(lens, t + 1, rest);
      var curr := len[0];
      Field(w, 5, curr, LensFrom(len, 0, curr, after), all);
      for i := 0 to |len|
        invariant w.Valid() && w.Out() + LensFrom(len, i, curr, after) == all
      {
        SendDelta(w, curr, len[i], LensFrom(len, i + 1, len[i], after), all);
        curr := len[i];
      }
    }
  }

  // ----- The symbols -----

  /** `codes[t][v]` is the code of symbol `v` in table `t`. */
  ghost predicate Coded(codes: seq<seq<int>>, lens: seq<seq<int>>) {
    |codes| == |lens| && forall t :: 0 <= t < |lens| ==> CodedTable(codes[t], lens[t])
  }

  ghost predicate CodedTable(code: seq<int>, len: seq<int>) {
    |code| == |len| && forall v :: 0 <= v < |len| ==> 0 <= len[v] && code[v] == CodeOf(len, v)
  }

  /** One symbol under its table. */
  method SendSymbol(w: BitWriter, len: seq<int>, code: seq<int>, sym: nat, ghost rest: seq<bool>, ghost all: seq<bool>)
    requires w.Valid() && Decodable(len) && sym < |len| == |code| && code[sym] == CodeOf(len, sym)
    requires w.Out() + (CodeBits(len, sym) + rest) == all
    modifies w
    ensures w.Valid() && w.Out() + rest == all
  {
    hide BitWriter.Out, BitWriter.Valid, BitsOf, Pow2;
    CodeFits(len, sym);
    Field(w, len[sym], code[sym], rest, all);
  }

  /** Symbols gs..ge, all under one table. */
  method SendGroupSymbols(w: BitWriter, mtfv: array<int>, gs: nat, ge: int, len: seq<int>, code: seq<int>,
                          ghost im: Image, ghost rest: seq<bool>, ghost all: seq<bool>)
    requires w.Valid() && SymsCoded(im) && gs <= ge + 1 <= |im.syms| <= mtfv.Length && im.syms == mtfv[..|im.syms|]
    requires CodedTable(code, len) && forall x :: gs <= x <= ge ==> TableOf(im, x) == len
    requires w.Out() + SymsFrom(im, gs, rest) == all
    modifies w
    ensures w.Valid() && w.Out() + SymsFrom(im, ge + 1, rest) == all
  {
    hide BitWriter.Out, BitWriter.Valid, CodeBits, TableOf, SymsCoded, Decodable;
    for i := gs to ge + 1
      invariant w.Valid() && w.Out() + SymsFrom(im, i, rest) == all
    {
      SymCoded(im, i);
      assert im.syms[i] == mtfv[i];
      SendSymbol(w, len, code, mtfv[i], SymsFrom(im, i + 1, rest), all);
    }
  }

  lemma SymsFromEnd(im: Image, rest: seq<bool>)
    requires SymsCoded(im)
    ensures SymsFrom(im, |im.syms|, rest) == rest
  { hide SymsCoded; }

  /** One table codes a group. */
  lemma GroupTable(im: Image, selCtr: nat, gs: nat, ge: int)
    requires gs == G_SIZE * selCtr && ge < gs + G_SIZE && selCtr < |im.selectors| &&
        0 <= im.selectors[selCtr] < |im.lens|
    ensures forall x :: gs <= x <= ge ==> TableOf(im, x) == im.lens[im.selectors[selCtr]]
  {
    forall x | gs <= x <= ge
      ensures TableOf(im, x) == im.lens[im.selectors[selCtr]]
    {
      assert x / G_SIZE == selCtr;
    }
  }

  lemma CodedAt(codes: seq<seq<int>>, lens: seq<seq<int>>, t: int)
    requires Coded(codes, lens) && 0 <= t < |lens|
    ensures |codes| == |lens| && CodedTable(codes[t], lens[t])
  { hide CodedTable; }

  /** The block data proper. */
  method SendSymbols(w: BitWriter, mtfv: array<int>, nMTF: nat, selectors: seq<int>, lens: seq<seq<int>>,
                     codes: seq<seq<int>>,
                     ghost im: Image, ghost rest: seq<bool>, ghost all: seq<bool>)
    requires w.Valid() && SymsCoded(im) && nMTF <= mtfv.Length && im.syms == mtfv[..nMTF] && Coded(codes, lens)
    requires im.selectors == selectors && im.lens == lens && |selectors| == (nMTF + G_SIZE - 1) / G_SIZE
    requires forall i :: 0 <= i < |selectors| ==> 0 <= selectors[i] < |lens|
    requires w.Out() + SymsFrom(im, 0, rest) == all
    modifies w
    ensures w.Valid() && w.Out() + rest == all
  {
    hide BitWriter.Out, BitWriter.Valid, SymsCoded, SymsFrom, CodedTable, TableOf, Coded;
    SymsFromEnd(im, rest);
    var gs, selCtr := 0, 0;
    while gs < nMTF
      invariant gs <= nMTF && w.Valid() && w.Out() + SymsFrom(im, gs, rest) == all
      invariant gs == nMTF || gs == G_SIZE * selCtr
    {
      var ge := gs + G_SIZE - 1;
      if ge >= nMTF { ge := nMTF - 1; }
      GroupInRange(nMTF, gs);
      GroupTable(im, selCtr, gs, ge);
      CodedAt(codes, lens, selectors[selCtr]);
      SendGroupSymbols(w, mtfv, gs, ge, lens[selectors[selCtr]], codes[selectors[selCtr]], im, rest, all);
      gs := ge + 1;
      selCtr := selCtr + 1;
    }
  }

  // ----- Codes -----

  /** The codes of one table. */
  method TableCodes(len: seq<int>) returns (code: seq<int>)
    requires len != [] && LengthsWithin(len, 1, 20)
    ensures CodedTable(code, len)
  {
    var minLen, maxLen := LengthRange(len);
    var length, c := new int[|len|](i requires 0 <= i < |len| => len[i]), new int[|len|](_ => 0);
    assert length[..|len|] == len;
    AssignCodes(c, length, minLen, maxLen, |len|);
    code := c[..];
  }

  method AllCodes(lens: seq<seq<int>>) returns (codes: seq<seq<int>>)
    requires forall t :: 0 <= t < |lens| ==> lens[t] != [] && LengthsWithin(lens[t], 1, 20)
    ensures Coded(codes, lens)
  {
    codes := [];
    for t := 0 to |lens|
      invariant |codes| == t && forall u :: 0 <= u < t ==> CodedTable(codes[u], lens[u])
    {
      hide CodedTable;
      var code := TableCodes(lens[t]);
      codes := codes + [code];
    }
  }

  // ----- Choosing the tables -----

  /** C division: towards zero. */
  function Quotient(a: int, b: nat): int
    requires b > 0
  {
    if a >= 0 then a / b else -((-a) / b)
  }

  /** The quotient is the whole number next to the exact one, on the side of zero. */
  lemma QuotientIs(a: int, b: nat)
    requires b > 0
    ensures a >= 0 ==> 0 <= Times(Quotient(a, b), b) <= a < Times(Quotient(a, b), b) + b
    ensures a <= 0 ==> Times(Quotient(a, b), b) - b < a <= Times(Quotient(a, b), b) <= 0
  {
    if a >= 0 {
      WholePart(a, b);
    } else {
      WholePart(-a, b);
      assert Times(-((-a) / b), b) == -Times((-a) / b, b);
    }
  }

  lemma WholePart(a: nat, b: nat)
    requires b > 0
    ensures 0 <= Times(a / b, b) <= a < Times(a / b, b) + b
  {
    assert a == (a / b) * b + a % b;
  }

  /** The sum of the first `k` entries. */
  ghost function SumTo(f: seq<nat>, k: nat): nat
    requires k <= |f|
  {
    if k == 0 then 0 else SumTo(f, k - 1) + f[k - 1]
  }

  lemma {:induction false} SumGrows(f: seq<nat>, j: nat, k: nat)
    requires j < k <= |f|
    ensures SumTo(f, j) + f[k - 1] <= SumTo(f, k)
    decreases k
  {
    if j < k - 1 { SumGrows(f, j, k - 1); }
  }

  /** Cut `cuts[p]`..`cuts[p + 1]` of the alphabet is what the p-th table from the end is meant for: length 0
      there, 15 elsewhere. The first `done` pieces have been cut. */
  ghost predicate Dealt(lens: seq<seq<int>>, cuts: seq<nat>, nGroups: nat, alphaSize: nat, done: nat) {
    && |lens| == nGroups && done <= nGroups && |cuts| == done + 1 && cuts[0] == 0 && cuts[done] <= alphaSize
    && (forall p :: 0 <= p < done ==> cuts[p] <= cuts[p + 1])
    && (forall t :: 0 <= t < nGroups ==> |lens[t]| == alphaSize)
    && (forall t, v :: 0 <= t < nGroups && 0 <= v < alphaSize ==>
        lens[t][v] == if InPiece(cuts, nGroups, done, t, v) then 0 else 15)
  }

  ghost predicate InPiece(cuts: seq<nat>, nGroups: nat, done: nat, t: int, v: int) {
    && 0 <= nGroups - 1 - t < done && done < |cuts|
    && cuts[nGroups - 1 - t] <= v < cuts[nGroups - t]
  }

  /** `m` is the first end that gives a piece from `gs` on its share, or the end of the alphabet. */
  ghost predicate FirstEnough(f: seq<nat>, alphaSize: nat, share: int, gs: nat, m: nat) {
    && gs <= m <= alphaSize <= |f|
    && (m == alphaSize || SumTo(f, m) - SumTo(f, gs) >= share)
    && forall j: nat :: gs <= j < m ==> SumTo(f, j) - SumTo(f, gs) < share
  }

  /** The piece gs..end has its share, as far as whole symbols allow: if it is to be `short`, one symbol less. */
  ghost predicate Piece(f: seq<nat>, alphaSize: nat, share: int, short: bool, gs: nat, end: nat) {
    exists m: nat :: FirstEnough(f, alphaSize, share, gs, m) && end == if m > gs + 1 && short then m - 1 else m
  }

  /** Every other table falls short, except the first and the last. */
  predicate Alternate(nPart: nat, nGroups: nat) {
    nPart != nGroups && nPart != 1 && (nGroups - nPart) % 2 == 1
  }

  /** An equal share of the frequency that is left from `gs` on, with `nPart` tables to go. */
  ghost function ShareOf(f: seq<nat>, nMTF: nat, nPart: nat, gs: nat): int
    requires nPart > 0 && gs <= |f|
  {
    Quotient(nMTF - SumTo(f, gs), nPart)
  }

  /** All pieces so far are fair. */
  ghost predicate Fair(f: seq<nat>, alphaSize: nat, nMTF: nat, nGroups: nat, cuts: seq<nat>, done: nat) {
    && done < |cuts| && done <= nGroups
    && forall p :: 0 <= p < done ==>
        && cuts[p] <= |f|
        && Piece(f, alphaSize, ShareOf(f, nMTF, nGroups - p, cuts[p]), Alternate(nGroups - p, nGroups), cuts[p],
            cuts[p + 1])
  }

  lemma DealOne(lens: seq<seq<int>>, cuts: seq<nat>, nGroups: nat, alphaSize: nat, done: nat, end: nat)
    requires done < nGroups && Dealt(lens, cuts, nGroups, alphaSize, done) && cuts[done] <= end <= alphaSize
    ensures Dealt(lens[nGroups - done - 1 := seq(alphaSize, v => if cuts[done] <= v < end then 0 else 15)],
        cuts + [end], nGroups, alphaSize, done + 1)
  {
    var t0 := nGroups - done - 1;
    var lens', cuts' := lens[t0 := seq(alphaSize, v => if cuts[done] <= v < end then 0 else 15)], cuts + [end];
    forall t, v | 0 <= t < nGroups && 0 <= v < alphaSize
      ensures lens'[t][v] == if InPiece(cuts', nGroups, done + 1, t, v) then 0 else 15
    {
      assert lens[t][v] == if InPiece(cuts, nGroups, done, t, v) then 0 else 15;
      assert t != t0 ==> (InPiece(cuts', nGroups, done + 1, t, v) <==> InPiece(cuts, nGroups, done, t, v));
    }
  }

  lemma FairMore(f: seq<nat>, alphaSize: nat, nMTF: nat, nGroups: nat, cuts: seq<nat>, done: nat, end: nat)
    requires Fair(f, alphaSize, nMTF, nGroups, cuts, done) && done < nGroups && |cuts| == done + 1
    requires cuts[done] <= |f| && Piece(f, alphaSize, ShareOf(f, nMTF, nGroups - done, cuts[done]),
        Alternate(nGroups - done, nGroups), cuts[done], end)
    ensures Fair(f, alphaSize, nMTF, nGroups, cuts + [end], done + 1)
  {
    hide Piece, ShareOf, Alternate;
  }

  lemma SumStep(f: seq<nat>, k: nat)
    requires k < |f|
    ensures SumTo(f, k + 1) == SumTo(f, k) + f[k]
  {
  }

  lemma NoneDealt(nGroups: nat, alphaSize: nat, f: seq<nat>, nMTF: nat)
    requires alphaSize <= |f|
    ensures Dealt(seq(nGroups, t => seq(alphaSize, v => 15)), [0], nGroups, alphaSize, 0)
    ensures Fair(f, alphaSize, nMTF, nGroups, [0], 0) && SumTo(f, 0) == 0
  {
  }

  /** The shortest piece from `gs` on that has its share. */
  method Share(mtfFreq: array<nat>, alphaSize: nat, gs: nat, tFreq: int) returns (ge: int, aFreq: int)
    requires gs <= alphaSize <= mtfFreq.Length
    ensures gs - 1 <= ge && FirstEnough(mtfFreq[..], alphaSize, tFreq, gs, ge + 1)
    ensures aFreq == SumTo(mtfFreq[..], ge + 1) - SumTo(mtfFreq[..], gs)
  {
    ghost var f := mtfFreq[..];
    ge, aFreq := gs - 1, 0;
    while aFreq < tFreq && ge < alphaSize - 1
      invariant gs - 1 <= ge < alphaSize && aFreq == SumTo(f, ge + 1) - SumTo(f, gs)
      invariant forall j: nat :: gs <= j <= ge ==> SumTo(f, j) - SumTo(f, gs) < tFreq
      decreases alphaSize - ge
    {
      ge := ge + 1;
      aFreq := aFreq + mtfFreq[ge];
    }
  }

  /** The first tables: the alphabet is dealt out in pieces of about the same weight, the first symbols to
      the last table. If the frequencies are those of the symbols, every symbol gets a table. */
  method InitialTables(mtfFreq: array<nat>, nMTF: nat, alphaSize: nat, nGroups: nat)
    returns (lens: seq<seq<int>>, ghost cuts: seq<nat>)
    requires alphaSize <= mtfFreq.Length
    ensures Lengths(lens, alphaSize)
    ensures Dealt(lens, cuts, nGroups, alphaSize, nGroups) && Fair(mtfFreq[..], alphaSize, nMTF, nGroups, cuts, nGroups)
    ensures 0 < nGroups && 0 < alphaSize && SumTo(mtfFreq[..], alphaSize) == nMTF && mtfFreq[alphaSize - 1] > 0 ==>
        cuts[nGroups] == alphaSize
  {
    hide Dealt, Fair, Piece, FirstEnough, SumTo, Alternate;
    ghost var f := mtfFreq[..];
    NoneDealt(nGroups, alphaSize, f, nMTF);
    lens := seq(nGroups, t => seq(alphaSize, v => 15));
    cuts := [0];
    var nPart, remF, gs := nGroups, nMTF as int, 0;
    while nPart > 0
      invariant 0 <= nPart <= nGroups && 0 <= gs <= alphaSize && |cuts| == nGroups - nPart + 1 && |lens| == nGroups
      invariant Dealt(lens, cuts, nGroups, alphaSize, nGroups - nPart) &&
          Fair(f, alphaSize, nMTF, nGroups, cuts, nGroups - nPart)
      invariant cuts[nGroups - nPart] == gs && remF == nMTF - SumTo(f, gs)
      invariant nPart == 0 && 0 < nGroups && 0 < alphaSize && SumTo(f, alphaSize) == nMTF && f[alphaSize - 1] > 0 ==>
          gs == alphaSize
    {
      var ge, aFreq := OnePiece(mtfFreq, nMTF, alphaSize, nGroups, nPart, gs, remF);
      DealOne(lens, cuts, nGroups, alphaSize, nGroups - nPart, ge + 1);
      FairMore(f, alphaSize, nMTF, nGroups, cuts, nGroups - nPart, ge + 1);
      var row := seq(alphaSize, v => if gs <= v < ge + 1 then 0 else 15);
      assert row == seq(alphaSize, v => if cuts[nGroups - nPart] <= v < ge + 1 then 0 else 15);
      lens := lens[nPart - 1 := row];
      cuts := cuts + [ge + 1];
      nPart := nPart - 1;
      gs := ge + 1;
      remF := remF - aFreq;
    }
    DealtLengths(lens, cuts, nGroups, alphaSize);
  }

  /** Where the next piece ends. The last one ends the alphabet. */
  method OnePiece(mtfFreq: array<nat>, nMTF: nat, alphaSize: nat, nGroups: nat, nPart: nat, gs: nat, remF: int)
    returns (ge: int, aFreq: int)
    requires gs <= alphaSize <= mtfFreq.Length && 0 < nPart <= nGroups && remF == nMTF - SumTo(mtfFreq[..], gs)
    ensures gs - 1 <= ge < alphaSize && aFreq == SumTo(mtfFreq[..], ge + 1) - SumTo(mtfFreq[..], gs)
    ensures Piece(mtfFreq[..], alphaSize, ShareOf(mtfFreq[..], nMTF, nPart, gs), Alternate(nPart, nGroups), gs, ge + 1)
    ensures nPart == 1 && 0 < alphaSize && SumTo(mtfFreq[..], alphaSize) == nMTF && mtfFreq[alphaSize - 1] > 0 ==>
        ge + 1 == alphaSize
  {
    hide SumTo, Quotient;
    ghost var f := mtfFreq[..];
    var tFreq := Quotient(remF, nPart);
    ge, aFreq := Share(mtfFreq, alphaSize, gs, tFreq);
    if nPart == 1 && ge < alphaSize - 1 {
      SumGrows(f, ge + 1, alphaSize);
      WholeShare(remF);
    }
    if ge > gs && nPart != nGroups && nPart != 1 && (nGroups - nPart) % 2 == 1 {
      SumStep(f, ge);
      aFreq := aFreq - mtfFreq[ge];
      ge := ge - 1;
    }
  }

  lemma WholeShare(a: int)
    ensures Quotient(a, 1) == a
  {
  }

  lemma DealtSize(lens: seq<seq<int>>, cuts: seq<nat>, nGroups: nat, alphaSize: nat, done: nat)
    requires Dealt(lens, cuts, nGroups, alphaSize, done)
    ensures |lens| == nGroups && |cuts| == done + 1
  {
    hide InPiece;
  }

  lemma DealtLengths(lens: seq<seq<int>>, cuts: seq<nat>, nGroups: nat, alphaSize: nat)
    requires Dealt(lens, cuts, nGroups, alphaSize, nGroups)
    ensures |lens| == nGroups && Lengths(lens, alphaSize)
  {
    forall t | 0 <= t < nGroups
      ensures LengthsWithin(lens[t], 0, 20)
    {
      forall v | 0 <= v < alphaSize
        ensures 0 <= lens[t][v] <= 20
      {
        assert lens[t][v] == if InPiece(cuts, nGroups, nGroups, t, v) then 0 else 15;
      }
    }
  }

  ghost function GroupCost(len: seq<int>, s: seq<int>): int
    requires forall i :: 0 <= i < |s| ==> 0 <= s[i] < |len|
  {
    if s == [] then 0 else GroupCost(len, s[..|s| - 1]) + len[s[|s| - 1]]
  }

  /** The `g`-th group of fifty symbols. */
  ghost function Group(syms: seq<int>, g: nat): seq<int> {
    if G_SIZE * g + G_SIZE <= |syms| then syms[G_SIZE * g..G_SIZE * g + G_SIZE]
    else if G_SIZE * g <= |syms| then syms[G_SIZE * g..]
    else []
  }

  /** Tables with one length per symbol, none above 20. */
  ghost predicate Lengths(lens: seq<seq<int>>, alphaSize: nat) {
    forall t :: 0 <= t < |lens| ==> |lens[t]| == alphaSize && LengthsWithin(lens[t], 0, 20)
  }

  ghost predicate SymbolsWithin(s: seq<int>, alphaSize: nat) {
    forall i :: 0 <= i < |s| ==> 0 <= s[i] < alphaSize
  }

  lemma CostStep(len: seq<int>, s: seq<int>, v: int, alphaSize: nat)
    requires SymbolsWithin(s, alphaSize) && 0 <= v < alphaSize == |len|
    ensures GroupCost(len, s + [v]) == GroupCost(len, s) + len[v]
  {
    assert (s + [v])[..|s|] == s;
  }

  lemma {:induction false} CostBound(len: seq<int>, s: seq<int>, alphaSize: nat)
    requires SymbolsWithin(s, alphaSize) && alphaSize == |len| && LengthsWithin(len, 0, 20)
    ensures 0 <= GroupCost(len, s) <= 20 * |s|
  {
    if s != [] {
      CostBound(len, s[..|s| - 1], alphaSize);
    }
  }

  /** What each table would need for symbols gs..ge. The 16-bit counters hold it. */
  method GroupCosts(mtfv: array<int>, gs: nat, ge: int, lens: seq<seq<int>>, alphaSize: nat) returns (cost: array<nat>)
    requires gs <= ge + 1 <= mtfv.Length && ge - gs < G_SIZE && |lens| <= N_GROUPS && Lengths(lens, alphaSize)
    requires SymbolsWithin(mtfv[gs..ge + 1], alphaSize)
    ensures fresh(cost) && cost.Length == N_GROUPS
    ensures forall t :: 0 <= t < |lens| ==> cost[t] == GroupCost(lens[t], mtfv[gs..ge + 1]) < 0x1_0000
  {
    cost := new nat[N_GROUPS](_ => 0);
    ghost var s := mtfv[gs..ge + 1];
    for i := gs to ge + 1
      invariant forall t :: 0 <= t < |lens| ==> cost[t] == GroupCost(lens[t], s[..i - gs])
    {
      hide GroupCost;
      var icv := mtfv[i];
      assert s[..i - gs] + [icv] == s[..i + 1 - gs];
      for t := 0 to |lens|
        invariant forall u :: 0 <= u < t ==> cost[u] == GroupCost(lens[u], s[..i + 1 - gs])
        invariant forall u :: t <= u < |lens| ==> cost[u] == GroupCost(lens[u], s[..i - gs])
      {
        CostStep(lens[t], s[..i - gs], icv, alphaSize);
        cost[t] := cost[t] + lens[t][icv];
      }
    }
    forall t | 0 <= t < |lens|
      ensures cost[t] == GroupCost(lens[t], s) < 0x1_0000
    {
      assert s[..ge + 1 - gs] == s;
      CostBound(lens[t], s, alphaSize);
    }
  }

  /** The first table with the least cost. */
  method CheapestTable(cost: array<nat>, nGroups: nat) returns (bt: int)
    requires 0 < nGroups <= cost.Length && forall t :: 0 <= t < nGroups ==> cost[t] < 0x1_0000
    ensures 0 <= bt < nGroups && forall t :: 0 <= t < nGroups ==> cost[bt] <= cost[t] && (t < bt ==> cost[bt] < cost[t])
  {
    var bc := 999999999;
    bt := -1;
    for t := 0 to nGroups
      invariant t == 0 ==> bt == -1 && bc == 999999999
      invariant t > 0 ==> 0 <= bt < t && bc == cost[bt]
      invariant forall u :: 0 <= u < t ==> bc <= cost[u] && (u < bt ==> bc < cost[u])
    {
      if cost[t] < bc { bc, bt := cost[t], t; }
    }
  }

  lemma {:induction false} TotalMore(f: seq<nat>, v: nat, k: nat)
    requires v < |f| && k <= |f|
    ensures FreqTotal(f[v := f[v] + 1], k) <= FreqTotal(f, k) + 1
  {
    if k != 0 {
      if k - 1 == v {
        TotalFrame(f, f[v := f[v] + 1], k - 1);
      } else {
        TotalMore(f, v, k - 1);
      }
    }
  }

  lemma {:induction false} TotalFrame(f: seq<nat>, g: seq<nat>, k: nat)
    requires k <= |f| == |g| && forall i :: 0 <= i < k ==> f[i] == g[i]
    ensures FreqTotal(f, k) == FreqTotal(g, k)
  {
    if k != 0 {
      TotalFrame(f, g, k - 1);
    }
  }

  lemma {:induction false} TotalZero(f: seq<nat>, k: nat)
    requires k <= |f| && forall i :: 0 <= i < k ==> f[i] == 0
    ensures FreqTotal(f, k) == k
  {
    if k != 0 {
      TotalZero(f, k - 1);
    }
  }

  /** rfreq[bt][mtfv[i]]++ for the symbols gs..ge. */
  method CountGroup(mtfv: array<int>, gs: nat, ge: int, f0: seq<nat>, alphaSize: nat) returns (f: seq<nat>)
    requires gs <= ge + 1 <= mtfv.Length && |f0| == alphaSize && SymbolsWithin(mtfv[gs..ge + 1], alphaSize)
    ensures |f| == alphaSize && FreqTotal(f, alphaSize) <= FreqTotal(f0, alphaSize) + (ge + 1 - gs)
    ensures forall v :: 0 <= v < alphaSize ==> f[v] == f0[v] + CountOf(mtfv[gs..ge + 1], v)
  {
    f := f0;
    ghost var s := mtfv[gs..ge + 1];
    assert s[..0] == [] && forall v :: CountOf([], v) == 0;
    for i := gs to ge + 1
      invariant |f| == alphaSize && FreqTotal(f, alphaSize) <= FreqTotal(f0, alphaSize) + (i - gs)
      invariant forall v :: 0 <= v < alphaSize ==> f[v] == f0[v] + CountOf(s[..i - gs], v)
    {
      hide FreqTotal;
      assert s[..i + 1 - gs][..i - gs] == s[..i - gs] && s[i - gs] == mtfv[i];
      TotalMore(f, mtfv[i], alphaSize);
      f := f[mtfv[i] := f[mtfv[i]] + 1];
    }
    assert s[..ge + 1 - gs] == s;
  }

  /** `bt` is the first of the tables that code group `g` most cheaply. */
  ghost predicate CheapestFor(lens: seq<seq<int>>, syms: seq<int>, g: nat, bt: int) {
    && 0 <= bt < |lens|
    && forall t :: 0 <= t < |lens| ==>
        && PriceOf(lens[bt], Group(syms, g)) <= PriceOf(lens[t], Group(syms, g))
        && (t < bt ==> PriceOf(lens[bt], Group(syms, g)) < PriceOf(lens[t], Group(syms, g)))
  }

  ghost function PriceOf(len: seq<int>, s: seq<int>): int {
    if SymbolsWithin(s, |len|) then GroupCost(len, s) else 0
  }

  /** How often symbol `v` occurs in the first `k` groups that table `t` codes. */
  ghost function CodedBy(syms: seq<int>, sel: seq<int>, t: int, v: int, k: nat): nat
    requires k <= |sel|
  {
    if k == 0 then 0
    else CodedBy(syms, sel, t, v, k - 1) + if sel[k - 1] == t then CountOf(Group(syms, k - 1), v) else 0
  }

  lemma {:induction false} CodedByPrefix(syms: seq<int>, sel: seq<int>, bt: int, t: int, v: int, k: nat)
    requires k <= |sel|
    ensures CodedBy(syms, sel + [bt], t, v, k) == CodedBy(syms, sel, t, v, k)
  {
    hide CountOf, Group;
    if k > 0 { CodedByPrefix(syms, sel, bt, t, v, k - 1); }
  }

  /** rfreq counts the symbols of the groups each table codes. */
  ghost predicate RfreqIs(rfreq: seq<seq<nat>>, syms: seq<int>, sel: seq<int>, alphaSize: nat) {
    forall t, v :: 0 <= t < |rfreq| && 0 <= v < alphaSize && v < |rfreq[t]| ==>
        rfreq[t][v] == CodedBy(syms, sel, t, v, |sel|)
  }

  lemma GroupCounted(rfreq: seq<seq<nat>>, syms: seq<int>, sel: seq<int>, alphaSize: nat, bt: int, f: seq<nat>)
    requires RfreqIs(rfreq, syms, sel, alphaSize) && 0 <= bt < |rfreq| && |f| == |rfreq[bt]| == alphaSize
    requires forall v :: 0 <= v < alphaSize ==> f[v] == rfreq[bt][v] + CountOf(Group(syms, |sel|), v)
    ensures RfreqIs(rfreq[bt := f], syms, sel + [bt], alphaSize)
  {
    hide CountOf, Group;
    var more := rfreq[bt := f];
    forall t, v | 0 <= t < |more| && 0 <= v < alphaSize && v < |more[t]|
      ensures more[t][v] == CodedBy(syms, sel + [bt], t, v, |sel| + 1)
    {
      CodedByPrefix(syms, sel, bt, t, v, |sel|);
      if t != bt { assert more[t][v] == rfreq[t][v]; }
    }
  }

  /** One pass over the symbols: a table for each group, and the frequencies each table gets. */
  method Pass(mtfv: array<int>, nMTF: nat, lens: seq<seq<int>>, alphaSize: nat)
    returns (selectors: seq<int>, rfreq: seq<seq<nat>>)
    requires nMTF <= mtfv.Length && 2 <= |lens| <= N_GROUPS && Lengths(lens, alphaSize) &&
        SymbolsWithin(mtfv[..nMTF], alphaSize)
    ensures |selectors| == (nMTF + G_SIZE - 1) / G_SIZE && |rfreq| == |lens|
    ensures forall g :: 0 <= g < |selectors| ==> CheapestFor(lens, mtfv[..nMTF], g, selectors[g])
    ensures forall t :: 0 <= t < |lens| ==>
        |rfreq[t]| == alphaSize && FreqTotal(rfreq[t], alphaSize) <= alphaSize + nMTF
    ensures RfreqIs(rfreq, mtfv[..nMTF], selectors, alphaSize)
  {
    hide FreqTotal, GroupCost, Group, CheapestFor, CountOf, SymbolsWithin, Lengths, RfreqIs, Totals, Groups;
    ghost var syms := mtfv[..nMTF];
    rfreq := seq(|lens|, t => seq(alphaSize, v => 0));
    NoneCounted(rfreq, syms, alphaSize);
    selectors := [];
    var gs := 0;
    while gs < nMTF
      invariant gs <= nMTF && (gs == nMTF || gs == G_SIZE * |selectors|) && |selectors| == Groups(gs)
      invariant |rfreq| == |lens| && RfreqIs(rfreq, syms, selectors, alphaSize) && Totals(rfreq, alphaSize, gs)
      invariant forall g :: 0 <= g < |selectors| ==> CheapestFor(lens, syms, g, selectors[g])
    {
      var ge := gs + G_SIZE - 1;
      if ge >= nMTF { ge := nMTF - 1; }
      OneMoreGroup(gs, ge, nMTF, |selectors|);
      var bt := BestTable(mtfv, nMTF, gs, ge, lens, alphaSize, |selectors|);
      ChosenTable(lens, syms, |selectors|, bt);
      TotalsAt(rfreq, alphaSize, gs, bt);
      var f := CountGroup(mtfv, gs, ge, rfreq[bt], alphaSize);
      TotalsMore(rfreq, alphaSize, gs, ge + 1, bt, f);
      GroupCounted(rfreq, syms, selectors, alphaSize, bt, f);
      rfreq := rfreq[bt := f];
      selectors := selectors + [bt];
      gs := ge + 1;
    }
    TotalsAll(rfreq, alphaSize, nMTF);
  }

  lemma NoneCounted(rfreq: seq<seq<nat>>, syms: seq<int>, alphaSize: nat)
    requires forall t :: 0 <= t < |rfreq| ==> rfreq[t] == seq(alphaSize, v => 0)
    ensures RfreqIs(rfreq, syms, [], alphaSize) && Totals(rfreq, alphaSize, 0) && Groups(0) == 0
  {
    TotalZero(seq(alphaSize, v => 0), alphaSize);
  }

  lemma ChosenTable(lens: seq<seq<int>>, syms: seq<int>, g: nat, bt: int)
    requires CheapestFor(lens, syms, g, bt)
    ensures 0 <= bt < |lens|
  { hide PriceOf; }

  lemma TotalsAll(rfreq: seq<seq<nat>>, alphaSize: nat, n: nat)
    requires Totals(rfreq, alphaSize, n)
    ensures forall t :: 0 <= t < |rfreq| ==> |rfreq[t]| == alphaSize && FreqTotal(rfreq[t], alphaSize) <= alphaSize + n
    ensures Groups(n) == (n + G_SIZE - 1) / G_SIZE
  { hide FreqTotal; }

  /** How many groups the first `n` symbols make. */
  function Groups(n: nat): nat { (n + G_SIZE - 1) / G_SIZE }

  lemma OneMoreGroup(gs: nat, ge: int, n: nat, k: nat)
    requires gs == G_SIZE * k < n && ge == if gs + G_SIZE - 1 >= n then n - 1 else gs + G_SIZE - 1
    ensures k == Groups(gs) && Groups(ge + 1) == k + 1 && (ge + 1 == n || ge + 1 == G_SIZE * (k + 1))
  { }

  /** No table has got more than `n` symbols. */
  ghost predicate Totals(rfreq: seq<seq<nat>>, alphaSize: nat, n: nat) {
    forall t :: 0 <= t < |rfreq| ==> |rfreq[t]| == alphaSize && FreqTotal(rfreq[t], alphaSize) <= alphaSize + n
  }

  lemma TotalsAt(rfreq: seq<seq<nat>>, alphaSize: nat, n: nat, t: int)
    requires Totals(rfreq, alphaSize, n) && 0 <= t < |rfreq|
    ensures |rfreq[t]| == alphaSize && FreqTotal(rfreq[t], alphaSize) <= alphaSize + n
  { hide FreqTotal; }

  lemma TotalsMore(rfreq: seq<seq<nat>>, alphaSize: nat, m: nat, n: nat, bt: int, f: seq<nat>)
    requires Totals(rfreq, alphaSize, m) && m <= n && 0 <= bt < |rfreq|
    requires |f| == alphaSize && FreqTotal(f, alphaSize) <= alphaSize + n
    ensures Totals(rfreq[bt := f], alphaSize, n)
  { hide FreqTotal; }

  method BestTable(mtfv: array<int>, nMTF: nat, gs: nat, ge: int, lens: seq<seq<int>>, alphaSize: nat, ghost g: nat)
    returns (bt: int)
    requires nMTF <= mtfv.Length && 2 <= |lens| <= N_GROUPS && Lengths(lens, alphaSize) &&
        SymbolsWithin(mtfv[..nMTF], alphaSize)
    requires gs == G_SIZE * g < nMTF && ge == if gs + G_SIZE - 1 >= nMTF then nMTF - 1 else gs + G_SIZE - 1
    ensures CheapestFor(lens, mtfv[..nMTF], g, bt)
    ensures SymbolsWithin(mtfv[gs..ge + 1], alphaSize) && mtfv[gs..ge + 1] == Group(mtfv[..nMTF], g)
  {
    ghost var syms := mtfv[..nMTF];
    assert mtfv[gs..ge + 1] == Group(syms, g);
    hide Group, GroupCost;
    var cost := GroupCosts(mtfv, gs, ge, lens, alphaSize);
    bt := CheapestTable(cost, |lens|);
    forall t | 0 <= t < |lens|
      ensures PriceOf(lens[t], Group(syms, g)) == cost[t]
    {
      assert |lens[t]| == alphaSize;
    }
  }

  /** Tables the decoder can use: lengths 1..17 that use up the code space. */
  ghost predicate GoodTables(lens: seq<seq<int>>, alphaSize: nat) {
    forall t :: 0 <= t < |lens| ==>
      |lens[t]| == alphaSize && LengthsWithin(lens[t], 1, 17) && KraftSum(lens[t], 20, alphaSize) == Pow2(20)
  }

  /** The lengths BZ2_hbMakeCodeLengths makes from these frequencies, with the encoder's limit of 17. */
  ghost predicate TableFor(freq: seq<nat>, len: seq<int>) {
    exists rounds: nat :: CodeFor(freq, 17, len, rounds) && (FreqTotal(freq, |freq|) < Fib(18) ==> rounds == 0)
  }

  /** BZ2_hbMakeCodeLengths on one row. */
  method TableLengths(freq: seq<nat>) returns (len: seq<int>)
    requires 2 <= |freq| <= MAX_ALPHA_SIZE && FreqTotal(freq, |freq|) < MAX_TOTAL
    ensures |len| == |freq| && LengthsWithin(len, 1, 17) && KraftSum(len, 20, |freq|) == Pow2(20)
    ensures TableFor(freq, len)
  {
    hide FreqTotal, KraftSum, Pow2, CodeFor, Fib;
    var n := |freq|;
    var l, f := new int[n](_ => 0), new nat[n](i requires 0 <= i < n => freq[i]);
    assert f[..] == freq && f[..n] == freq;
    ghost var rounds := MakeCodeLengths(l, f, n, 17);
    len := l[..];
    assert l[..n] == len;
    assert CodeFor(freq, 17, len, rounds);
  }

  /** How often each symbol occurs in the groups that table `t` codes. */
  ghost function Frequencies(syms: seq<int>, sel: seq<int>, t: int, alphaSize: nat): (f: seq<nat>)
    ensures |f| == alphaSize
  {
    seq(alphaSize, v => CodedBy(syms, sel, t, v, |sel|))
  }

  /** Each group takes the first cheapest of the tables `before`; then each table is made anew from the
      frequencies of the groups that took it. */
  ghost predicate OnePass(syms: seq<int>, alphaSize: nat, before: seq<seq<int>>, sel: seq<int>, after: seq<seq<int>>) {
    && |after| == |before| && |sel| == (|syms| + G_SIZE - 1) / G_SIZE && GoodTables(after, alphaSize)
    && (forall g :: 0 <= g < |sel| ==> CheapestFor(before, syms, g, sel[g]))
    && (forall t :: 0 <= t < |after| ==> TableFor(Frequencies(syms, sel, t, alphaSize), after[t]))
  }

  /** New tables from the frequencies of the last pass. */
  method NewTables(rfreq: seq<seq<nat>>, alphaSize: nat) returns (lens: seq<seq<int>>)
    requires 2 <= alphaSize <= MAX_ALPHA_SIZE
    requires forall t :: 0 <= t < |rfreq| ==> |rfreq[t]| == alphaSize && FreqTotal(rfreq[t], alphaSize) < MAX_TOTAL
    ensures |lens| == |rfreq| && GoodTables(lens, alphaSize)
    ensures forall t :: 0 <= t < |lens| ==> TableFor(rfreq[t], lens[t])
  {
    hide FreqTotal, KraftSum, Pow2, TableFor;
    lens := [];
    for t := 0 to |rfreq|
      invariant |lens| == t && GoodTables(lens, alphaSize)
      invariant forall u :: 0 <= u < t ==> TableFor(rfreq[u], lens[u])
    {
      var len := TableLengths(rfreq[t]);
      lens := lens + [len];
    }
  }

  lemma RfreqRow(rfreq: seq<seq<nat>>, syms: seq<int>, sel: seq<int>, alphaSize: nat, t: nat)
    requires RfreqIs(rfreq, syms, sel, alphaSize) && t < |rfreq| && |rfreq[t]| == alphaSize
    ensures rfreq[t] == Frequencies(syms, sel, t, alphaSize)
  {
    hide CodedBy;
  }

  /** The tables before the first pass and after each, and the selectors each pass chose. */
  datatype History = History(tables: seq<seq<seq<int>>>, sels: seq<seq<int>>)

  ghost predicate Passes(h: History, syms: seq<int>, alphaSize: nat, nGroups: nat) {
    && |h.tables| == |h.sels| + 1 && |h.tables[0]| == nGroups
    && forall i :: 0 <= i < |h.sels| ==> OnePass(syms, alphaSize, h.tables[i], h.sels[i], h.tables[i + 1])
  }

  lemma PassesMore(h: History, syms: seq<int>, alphaSize: nat, nGroups: nat, sel: seq<int>, after: seq<seq<int>>)
    requires Passes(h, syms, alphaSize, nGroups) && OnePass(syms, alphaSize, h.tables[|h.sels|], sel, after)
    ensures Passes(History(h.tables + [after], h.sels + [sel]), syms, alphaSize, nGroups)
  {
    hide OnePass;
    var h' := History(h.tables + [after], h.sels + [sel]);
    forall i | 0 <= i < |h'.sels|
      ensures OnePass(syms, alphaSize, h'.tables[i], h'.sels[i], h'.tables[i + 1])
    {
      if i < |h.sels| {
        assert h'.tables[i] == h.tables[i] && h'.sels[i] == h.sels[i] && h'.tables[i + 1] == h.tables[i + 1];
      }
    }
  }

  /** The frequencies the first tables are dealt by, and the cuts, if there were any. */
  ghost predicate FirstTables(lens: seq<seq<int>>, freq: seq<nat>, nMTF: nat, alphaSize: nat, nGroups: nat) {
    exists cuts: seq<nat> ::
        Dealt(lens, cuts, nGroups, alphaSize, nGroups) && Fair(freq, alphaSize, nMTF, nGroups, cuts, nGroups)
  }

  /** BZ_N_ITERS passes from the first tables end in these tables and selectors. */
  ghost predicate Chosen(h: History, syms: seq<int>, freq: seq<nat>, alphaSize: nat, nGroups: nat, sel: seq<int>,
                         lens: seq<seq<int>>) {
    && Passes(h, syms, alphaSize, nGroups) && |h.sels| == N_ITERS
    && FirstTables(h.tables[0], freq, |syms|, alphaSize, nGroups)
    && sel == h.sels[N_ITERS - 1] && lens == h.tables[N_ITERS]
  }

  const N_ITERS := 4

  /** A pass, and the tables made from it. */
  method PassAndTables(mtfv: array<int>, nMTF: nat, lens: seq<seq<int>>, alphaSize: nat)
    returns (selectors: seq<int>, after: seq<seq<int>>)
    requires nMTF <= mtfv.Length && nMTF <= 900001 && 2 <= |lens| <= N_GROUPS && Lengths(lens, alphaSize) &&
        SymbolsWithin(mtfv[..nMTF], alphaSize)
    requires 2 <= alphaSize <= MAX_ALPHA_SIZE
    ensures |selectors| == (nMTF + G_SIZE - 1) / G_SIZE && |after| == |lens|
    ensures forall g :: 0 <= g < |selectors| ==> 0 <= selectors[g] < |lens|
    ensures GoodTables(after, alphaSize) && OnePass(mtfv[..nMTF], alphaSize, lens, selectors, after)
  {
    hide FreqTotal, GoodTables, TableFor, RfreqIs, Frequencies;
    var rfreq;
    selectors, rfreq := Pass(mtfv, nMTF, lens, alphaSize);
    after := NewTables(rfreq, alphaSize);
    forall t | 0 <= t < |after|
      ensures TableFor(Frequencies(mtfv[..nMTF], selectors, t, alphaSize), after[t])
    {
      RfreqRow(rfreq, mtfv[..nMTF], selectors, alphaSize, t);
    }
    InRange(lens, mtfv[..nMTF], selectors);
  }

  lemma InRange(before: seq<seq<int>>, syms: seq<int>, sel: seq<int>)
    requires forall g :: 0 <= g < |sel| ==> CheapestFor(before, syms, g, sel[g])
    ensures forall g :: 0 <= g < |sel| ==> 0 <= sel[g] < |before|
  {
    hide PriceOf, Group;
  }

  lemma GoodLengthTables(lens: seq<seq<int>>, alphaSize: nat)
    requires GoodTables(lens, alphaSize)
    ensures Lengths(lens, alphaSize)
  {
    hide KraftSum, Pow2;
  }

  /** How many tables, and the four passes that settle them. */
  method ChooseTables(mtfv: array<int>, nMTF: nat, mtfFreq: array<nat>, alphaSize: nat)
    returns (nGroups: nat, lens: seq<seq<int>>, selectors: seq<int>, ghost h: History)
    requires 0 < nMTF <= mtfv.Length && nMTF <= 900001 && 2 <= alphaSize <= MAX_ALPHA_SIZE &&
        alphaSize <= mtfFreq.Length
    requires SymbolsWithin(mtfv[..nMTF], alphaSize)
    ensures nGroups == TableCount(nMTF) && |lens| == nGroups && GoodTables(lens, alphaSize)
    ensures |selectors| == (nMTF + G_SIZE - 1) / G_SIZE
    ensures forall g :: 0 <= g < |selectors| ==> 0 <= selectors[g] < nGroups
    ensures Chosen(h, mtfv[..nMTF], mtfFreq[..], alphaSize, nGroups, selectors, lens)
  {
    hide OnePass, Dealt, Fair, GoodTables, Lengths;
    nGroups := TableCount(nMTF);
    ghost var cuts, syms := [], mtfv[..nMTF];
    lens, cuts := InitialTables(mtfFreq, nMTF, alphaSize, nGroups);
    DealtSize(lens, cuts, nGroups, alphaSize, nGroups);
    h, selectors := History([lens], []), [];
    for iter := 0 to N_ITERS
      invariant |lens| == nGroups && Lengths(lens, alphaSize) && |h.sels| == iter
      invariant Passes(h, syms, alphaSize, nGroups) && h.tables[iter] == lens &&
          FirstTables(h.tables[0], mtfFreq[..], nMTF, alphaSize, nGroups)
      invariant iter > 0 ==>
          GoodTables(lens, alphaSize) && |selectors| == (nMTF + G_SIZE - 1) / G_SIZE && selectors == h.sels[iter - 1]
      invariant iter > 0 ==> forall g :: 0 <= g < |selectors| ==> 0 <= selectors[g] < nGroups
    {
      hide Passes, FirstTables;
      var after;
      selectors, after := PassAndTables(mtfv, nMTF, lens, alphaSize);
      PassesMore(h, syms, alphaSize, nGroups, selectors, after);
      PassesSize(h, syms, alphaSize, nGroups);
      GoodLengthTables(after, alphaSize);
      lens, h := after, History(h.tables + [after], h.sels + [selectors]);
    }
  }

  lemma PassesSize(h: History, syms: seq<int>, alphaSize: nat, nGroups: nat)
    requires Passes(h, syms, alphaSize, nGroups)
    ensures |h.tables| == |h.sels| + 1
  {
    hide OnePass;
  }

  /** How many tables are worth it. */
  function TableCount(nMTF: nat): (n: nat)
    ensures 2 <= n <= N_GROUPS
  {
    if nMTF < 200 then 2 else if nMTF < 600 then 3 else if nMTF < 1200 then 4 else if nMTF < 2400 then 5 else 6
  }

  // ----- sendMTFValues -----

  lemma GoodIsValid(lens: seq<seq<int>>, alphaSize: nat)
    requires GoodTables(lens, alphaSize) && 0 < alphaSize <= MAX_ALPHA_SIZE
    ensures forall t :: 0 <= t < |lens| ==> ValidTable(lens[t], alphaSize)
    ensures forall t :: 0 <= t < |lens| ==> lens[t] != [] && 0 <= lens[t][0] <= 20 && LengthsWithin(lens[t], 1, 20)
    ensures forall t :: 0 <= t < |lens| ==> LengthsWithin(lens[t], 1, 17)
  {
  }

  /** The most selectors a block can need. */
  lemma SelectorsFit(n: nat)
    requires n <= 900001
    ensures (n + G_SIZE - 1) / G_SIZE <= MAX_SELECTORS == 2 + 900000 / 50
  {
  }

  /** The image of a block is what the encoder has: its map, its symbols and what it chose. */
  method SendMtfValues(w: BitWriter, inUse: array<bool>, nInUse: nat, mtfv: array<int>, nMTF: nat, mtfFreq: array<nat>,
                       ghost crc: nat, ghost origPtr: nat)
    returns (ghost im: Image, ghost h: History)
    requires w.Valid() && inUse.Length == 256 && nInUse == |Used(inUse[..], 256)| > 0 &&
        mtfFreq.Length == MAX_ALPHA_SIZE
    requires 0 < nMTF <= mtfv.Length && nMTF <= 900001 && Terminated(mtfv[..nMTF], nInUse)
    requires crc < 0x1_0000_0000 && origPtr < 900000
    modifies w
    ensures ValidImage(im) && im.crc == crc && im.origPtr == origPtr && im.inUse == inUse[..] && im.syms == mtfv[..nMTF]
    ensures w.Valid() && w.Out() == old(w.Out()) + MapBits(im, []) && CodesWithin(im, 17)
    ensures 2 <= im.nGroups <= 6 && (im.nGroups >= 3 <==> |im.syms| >= 200) && (im.nGroups >= 4 <==> |im.syms| >= 600)
    ensures (im.nGroups >= 5 <==> |im.syms| >= 1200) && (im.nGroups >= 6 <==> |im.syms| >= 2400)
    ensures |im.selectors| == (|im.syms| + 49) / 50 && |h.sels| == 4
    ensures Chosen(h, im.syms, mtfFreq[..], nInUse + 2, im.nGroups, im.selectors, im.lens)
  {
    hide BitWriter.Out, BitWriter.Valid, Chosen, KraftSum, Pow2, ValidImage, Used, MapBits, Coded, SelectorPositions;
    ghost var u, syms := inUse[..], mtfv[..nMTF];
    var alphaSize := nInUse + 2;
    TerminatedWithin(syms, nInUse);
    UsedAtMost256(u);
    var nGroups, lens, selectors;
    nGroups, lens, selectors, h := ChooseTables(mtfv, nMTF, mtfFreq, alphaSize);
    FourPasses(h, syms, mtfFreq[..], alphaSize, nGroups, selectors, lens);
    SelectorsFit(nMTF);
    GoodIsValid(lens, alphaSize);
    im := Image(crc, origPtr, u, nGroups, selectors, lens, syms);
    ImageValid(im);
    var m := CodeSelectors(selectors, nGroups);
    var codes := AllCodes(lens);
    Transmit(w, inUse, mtfv, nMTF, nGroups, selectors, m, lens, codes, im);
  }

  lemma FourPasses(h: History, syms: seq<int>, freq: seq<nat>, alphaSize: nat, nGroups: nat, sel: seq<int>,
                   lens: seq<seq<int>>)
    requires Chosen(h, syms, freq, alphaSize, nGroups, sel, lens)
    ensures |h.sels| == 4
  {
    hide Passes, FirstTables;
  }

  lemma TerminatedWithin(syms: seq<int>, n: nat)
    requires Terminated(syms, n)
    ensures SymbolsWithin(syms, n + 2)
  {
  }

  lemma UsedAtMost256(u: seq<bool>)
    requires |u| == 256
    ensures |Used(u, 256)| <= 256
  {
  }

  lemma ImageValid(im: Image)
    requires im.crc < 0x1_0000_0000 && im.origPtr < 900000 && |im.inUse| == 256
    requires 0 < |Used(im.inUse, 256)| <= 256 && 2 <= im.nGroups <= N_GROUPS && |im.lens| == im.nGroups
    requires forall t :: 0 <= t < im.nGroups ==> ValidTable(im.lens[t], |Used(im.inUse, 256)| + 2)
    requires Terminated(im.syms, |Used(im.inUse, 256)|)
    requires |im.selectors| == (|im.syms| + G_SIZE - 1) / G_SIZE && |im.selectors| <= MAX_SELECTORS
    requires forall i :: 0 <= i < |im.selectors| ==> 0 <= im.selectors[i] < im.nGroups
    ensures ValidImage(im)
  {
  }

  /** All four parts. */
  method Transmit(w: BitWriter, inUse: array<bool>, mtfv: array<int>, nMTF: nat, nGroups: nat, selectors: seq<int>,
                  m: seq<int>,
                  lens: seq<seq<int>>, codes: seq<seq<int>>, ghost im: Image)
    requires w.Valid() && inUse.Length == 256 && nMTF <= mtfv.Length && ValidImage(im) && m == Positions(im)
    requires im.inUse == inUse[..] && im.syms == mtfv[..nMTF] && im.nGroups == nGroups && im.selectors == selectors &&
        im.lens == lens
    requires Coded(codes, lens)
    modifies w
    ensures w.Valid() && w.Out() == old(w.Out()) + MapBits(im, [])
  {
    hide BitWriter.Out, BitWriter.Valid, Positions, SymsCoded, Map16From, MapFrom, SelectorsFrom, TablesFrom, SymsFrom;
    hide BitsOf, ValidImage, Coded;
    ValidTables(im);
    TablesStart(im);
    ghost var all := w.Out() + MapBits(im, []);
    SendMap(w, inUse, SelectorBits(im, []), all);
    SendSelectors(w, nGroups, m, TableBits(im, []), all);
    SendTables(w, lens, SymbolBits(im, []), all);
    SendSymbols(w, mtfv, nMTF, selectors, lens, codes, im, [], all);
  }

  lemma TablesStart(im: Image)
    requires ValidImage(im)
    ensures forall x :: 0 <= x < |im.lens| ==> |im.lens[x]| > 0 && 0 <= im.lens[x][0] <= 20
    ensures |im.selectors| <= MAX_SELECTORS && |im.lens| == im.nGroups <= N_GROUPS && |im.inUse| == 256
    ensures |im.selectors| == (|im.syms| + G_SIZE - 1) / G_SIZE
    ensures forall i :: 0 <= i < |im.selectors| ==> 0 <= im.selectors[i] < |im.lens|
  {
    forall x | 0 <= x < |im.lens|
      ensures |im.lens[x]| > 0 && 0 <= im.lens[x][0] <= 20
    {
      assert ValidTable(im.lens[x], |Used(im.inUse, 256)| + 2);
    }
  }
}
