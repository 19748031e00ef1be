/** generateMTFValues (compress.c): move-to-front and run coding of the last column, written over the
    sort order it is read from. */
module GenerateMtf {
  import opened Rotations
  import opened Permutations
  import opened Bwt
  import opened ByteMaps
  import opened MoveToFront

  // ----- Symbol counts -----

  ghost function CountOf(s: seq<int>, v: int): (r: nat)
    ensures r <= |s|
  {
    if s == [] then 0 else CountOf(s[..|s| - 1], v) + if s[|s| - 1] == v then 1 else 0
  }

  ghost predicate Counted(freq: seq<nat>, s: seq<int>, top: int) {
    top < |freq| && forall v :: 0 <= v <= top ==> freq[v] == CountOf(s, v)
  }

  lemma CountedMore(freq: seq<nat>, s: seq<int>, top: int, v: nat)
    requires Counted(freq, s, top) && v <= top
    ensures Counted(freq[v := freq[v] + 1], s + [v], top)
  {
    assert (s + [v])[..|s|] == s;
  }

  // ----- The list -----

  /** Entry `ll` moves to the front of `yy`, by one pass that shifts the entries before it. */
  method MoveYy(yy: array<int>, ghost n: nat, ll: int) returns (j: nat)
    requires n <= yy.Length && ll in yy[..n] && yy[0] != ll
    modifies yy
    ensures 1 <= j < n && old(yy[j]) == ll && j == Where(old(yy[..n]), ll)
    ensures yy[..n] == ToFront(old(yy[..n]), j)
  {
    ghost var y: seq<int> := yy[..];
    assert yy[..n] == y[..n];
    ghost var k := Where(y[..n], ll);
    forall x | 0 <= x < k
      ensures y[x] != ll
    {
      assert y[x] == y[..n][..k][x];
    }
    var rtmp := yy[1];
    yy[1] := yy[0];
    j := 1;
    while ll != rtmp
      invariant 1 <= j <= k < n && rtmp == y[j]
      invariant yy[0] == y[0]
      invariant forall x :: 1 <= x <= j ==> yy[x] == y[x - 1]
      invariant forall x :: j < x < yy.Length ==> yy[x] == y[x]
      decreases k - j
    {
      assert j != k;
      j := j + 1;
      var rtmp2 := rtmp;
      rtmp := yy[j];
      yy[j] := rtmp2;
    }
    yy[0] := rtmp;
    assert yy[..n] == ToFront(y[..n], j);
  }

  // ----- The shared memory -----

  /** Word `i` of the sort order, in a memory of 16-bit halves. */
  function Word(mem: seq<int>, i: nat): int
    requires 2 * i + 1 < |mem|
  {
    mem[2 * i] + 0x1_0000 * mem[2 * i + 1]
  }

  /** The words from `i` on are still those of the sort order `p`. */
  ghost predicate Unread(mem: seq<int>, p: seq<int>, i: nat) {
    && 2 * |p| <= |mem|
    && forall x :: i <= x < |p| ==> Word(mem, x) == p[x]
  }

  /** Writing behind the read position leaves the unread words alone. */
  lemma UnreadKept(mem: seq<int>, p: seq<int>, i: nat, wr: nat, v: int)
    requires Unread(mem, p, i) && wr < |mem| && wr < 2 * i
    ensures Unread(mem[wr := v], p, i)
  {
  }

  /** mtfv[wr] = sym; wr++; mtfFreq[sym]++. */
  method Emit(mem: array<int>, freq: array<nat>, wr: nat, sym: nat, ghost top: int)
    requires mem as object != freq && wr < mem.Length && sym <= top && Counted(freq[..], mem[..wr], top)
    modifies mem, freq
    ensures mem[..] == old(mem[..])[wr := sym] && mem[..wr + 1] == old(mem[..wr]) + [sym]
    ensures Counted(freq[..], mem[..wr + 1], top)
  {
    CountedMore(freq[..], mem[..wr], top, sym);
    hide CountOf, Counted;
    ghost var f := freq[..];
    mem[wr] := sym;
    freq[sym] := freq[sym] + 1;
    assert mem[..wr + 1] == old(mem[..wr]) + [sym];
    assert freq[..] == f[sym := f[sym] + 1];
  }

  /** The digit of a run of `z + 1`. */
  method EmitDigit(mem: array<int>, freq: array<nat>, wr: nat, z: nat, ghost top: int, ghost p: seq<int>, ghost i: nat)
    requires mem as object != freq && wr < mem.Length && 1 <= top && Counted(freq[..], mem[..wr], top)
    requires Unread(mem[..], p, i) && wr < 2 * i
    modifies mem, freq
    ensures mem[..wr + 1] + RunSymbols(z / 2) == old(mem[..wr]) + RunSymbols(z + 1)
    ensures Counted(freq[..], mem[..wr + 1], top) && Unread(mem[..], p, i)
  {
    hide CountOf, Counted, Unread;
    UnreadKept(mem[..], p, i, wr, if z % 2 == 1 then RUNB else RUNA);
    if z % 2 == 1 {
      Emit(mem, freq, wr, RUNB, top);
    } else {
      Emit(mem, freq, wr, RUNA, top);
    }
  }

  /** Write the symbols of a pending run. */
  method FlushRun(mem: array<int>, freq: array<nat>, wr0: nat, pend: nat, ghost top: int, ghost p: seq<int>,
                  ghost i: nat)
    returns (wr: nat)
    requires mem as object != freq && wr0 + pend <= mem.Length && 1 <= top && Counted(freq[..], mem[..wr0], top)
    requires Unread(mem[..], p, i) && wr0 + pend <= 2 * i
    modifies mem, freq
    ensures wr0 <= wr <= wr0 + pend && mem[..wr] == old(mem[..wr0]) + RunSymbols(pend)
    ensures Counted(freq[..], mem[..wr], top) && Unread(mem[..], p, i)
  {
    hide CountOf, Counted, Unread;
    wr := wr0;
    assert RunSymbols(0) == [];
    hide RunSymbols;
    if pend > 0 {
      var z: nat := pend - 1;
      while true
        invariant 0 <= z && wr0 <= wr && wr + z + 1 <= wr0 + pend
        invariant mem[..wr] + RunSymbols(z + 1) == old(mem[..wr0]) + RunSymbols(pend)
        invariant Counted(freq[..], mem[..wr], top) && Unread(mem[..], p, i)
        decreases z
      {
        EmitDigit(mem, freq, wr, z, top, p, i);
        wr := wr + 1;
        if z < 2 { break; }
        z := (z - 2) / 2;
      }
    }
  }

  // ----- The whole column -----

  /** The column as list entries: what `unseqToSeq[block[ptr[i]-1]]` runs through. */
  ghost function MappedColumn(inUse: seq<bool>, block: seq<int>, p: seq<int>): (r: seq<int>)
    requires |inUse| == 256 && IsPerm(p, |block|) && forall i :: 0 <= i < |block| ==> 0 <= block[i] < 256
    ensures |r| == |block|
  {
    Mapped(inUse, LastColumn(block, p))
  }

  /** Everything that is left to write once the column has been read up to `i`. */
  ghost function Rest(l: seq<int>, n: nat, col: seq<int>, i: nat, pend: nat): seq<int>
    requires IsPerm(l, n) && 0 < n && Over(col, n) && i <= |col|
  {
    Code(l, n, col[i..], pend)
  }

  lemma RestSame(l: seq<int>, n: nat, col: seq<int>, i: nat, pend: nat)
    requires IsPerm(l, n) && 0 < n && Over(col, n) && i < |col| && col[i] == l[0]
    ensures Rest(l, n, col, i, pend) == Rest(l, n, col, i + 1, pend + 1)
  {
    assert col[i..][1..] == col[i + 1..];
  }

  lemma RestMove(l: seq<int>, n: nat, col: seq<int>, i: nat, pend: nat)
    requires IsPerm(l, n) && 0 < n && Over(col, n) && i < |col| && col[i] != l[0]
    ensures col[i] in l && Where(l, col[i]) < n && IsPerm(ToFront(l, Where(l, col[i])), n)
    ensures Rest(l, n, col, i, pend) ==
            RunSymbols(pend) + [Where(l, col[i]) + 1] + Rest(ToFront(l, Where(l, col[i])), n, col, i + 1, 0)
  {
    PermOnto(l, n, col[i]);
    ToFrontPerm(l, n, Where(l, col[i]));
    assert col[i..][1..] == col[i + 1..];
  }

  lemma RestEnd(l: seq<int>, n: nat, col: seq<int>, pend: nat)
    requires IsPerm(l, n) && 0 < n && Over(col, n)
    ensures Rest(l, n, col, |col|, pend) == RunSymbols(pend) + [n + 1]
  {
    assert col[|col|..] == [];
  }

  /** What holds before column entry `i` is coded: everything written and everything still to write is
      the code of the column, and no unread word has been written over. */
  ghost predicate Progress(mem: seq<int>, freq: seq<nat>, l: seq<int>, n: nat, col: seq<int>, p: seq<int>,
                           i: nat, wr: nat, pend: nat, all: seq<int>)
  {
    && 0 < n <= 256 && IsPerm(l, n) && Over(col, n) && i <= |col| == |p|
    && wr + pend <= i && Unread(mem, p, i) && wr <= |mem|
    && mem[..wr] + Rest(l, n, col, i, pend) == all
    && Counted(freq, mem[..wr], n + 1)
  }

  /** A column entry that is not at the front: the pending run, then its position. */
  method CodeMoved(mem: array<int>, freq: array<nat>, yy: array<int>, ll: int, wr0: nat, pend: nat,
                   ghost n: nat, ghost col: seq<int>, ghost p: seq<int>, ghost i: nat, ghost all: seq<int>)
    returns (wr: nat)
    requires mem != yy && mem as object != freq && yy as object != freq && n <= yy.Length
    requires Progress(mem[..], freq[..], yy[..n], n, col, p, i, wr0, pend, all) && i < |col| && ll == col[i] &&
        ll != yy[0]
    modifies mem, freq, yy
    ensures Progress(mem[..], freq[..], yy[..n], n, col, p, i + 1, wr, 0, all)
  {
    hide Unread, Counted, RunSymbols, Rest, Over, IsPerm, Where, ToFront;
    ghost var l := yy[..n];
    UnreadLater(mem[..], p, i);
    UnreadRoom(mem[..], p, i);
    RestMove(l, n, col, i, pend);
    wr := FlushRun(mem, freq, wr0, pend, n + 1, p, i + 1);
    var j := MoveYy(yy, n, ll);
    UnreadKept(mem[..], p, i + 1, wr, j + 1);
    Emit(mem, freq, wr, j + 1, n + 1);
    wr := wr + 1;
  }

  lemma UnreadRoom(mem: seq<int>, p: seq<int>, i: nat)
    requires Unread(mem, p, i)
    ensures 2 * |p| <= |mem|
  {
  }

  /** One column entry `ll`. */
  method CodeEntry(mem: array<int>, freq: array<nat>, yy: array<int>, ll: int, wr0: nat, pend0: nat,
                   ghost n: nat, ghost col: seq<int>, ghost p: seq<int>, ghost i: nat, ghost all: seq<int>)
    returns (wr: nat, pend: nat)
    requires mem != yy && mem as object != freq && yy as object != freq && n <= yy.Length
    requires Progress(mem[..], freq[..], yy[..n], n, col, p, i, wr0, pend0, all) && i < |col| && ll == col[i]
    modifies mem, freq, yy
    ensures Progress(mem[..], freq[..], yy[..n], n, col, p, i + 1, wr, pend, all)
  {
    hide Unread, Counted, RunSymbols, Rest, Over;
    if yy[0] == ll {
      wr, pend := wr0, pend0 + 1;
      UnreadLater(mem[..], p, i);
      RestSame(yy[..n], n, col, i, pend0);
    } else {
      wr := CodeMoved(mem, freq, yy, ll, wr0, pend0, n, col, p, i, all);
      pend := 0;
    }
  }

  lemma UnreadLater(mem: seq<int>, p: seq<int>, i: nat)
    requires Unread(mem, p, i)
    ensures Unread(mem, p, i + 1)
    ensures i < |p| ==> 2 * i + 1 < |mem| && Word(mem, i) == p[i]
  {
  }

  /** Every byte of the block is marked as used. */
  ghost predicate Marked(inUse: seq<bool>, block: seq<int>) {
    |inUse| == 256 && forall i :: 0 <= i < |block| ==> 0 <= block[i] < 256 && inUse[block[i]]
  }

  lemma MarkedBytes(inUse: seq<bool>, block: seq<int>)
    requires Marked(inUse, block)
    ensures |inUse| == 256 && forall i :: 0 <= i < |block| ==> 0 <= block[i] < 256
  {
  }

  lemma ColumnOver(inUse: seq<bool>, block: seq<int>, p: seq<int>)
    requires Marked(inUse, block) && IsPerm(p, |block|) && 0 < |block|
    ensures Over(MappedColumn(inUse, block, p), |Used(inUse, 256)|) && 0 < |Used(inUse, 256)|
    ensures forall i :: 0 <= i < |block| ==>
              MappedColumn(inUse, block, p)[i] == |Used(inUse, block[Prev(|block|, p[i])])|
  {
    var col := LastColumn(block, p);
    forall i | 0 <= i < |block|
      ensures 0 <= Mapped(inUse, col)[i] < |Used(inUse, 256)|
    {
      MapsInverse(inUse, col[i]);
    }
    assert 0 <= Mapped(inUse, col)[0];
  }

  /** Nothing read, nothing written. */
  lemma Start(mem: seq<int>, freq: seq<nat>, l: seq<int>, n: nat, col: seq<int>, p: seq<int>)
    requires 0 < n <= 256 && l == Identity(n) && Over(col, n) && |col| == |p| && Unread(mem, p, 0)
    requires n + 1 < |freq| && forall v :: 0 <= v <= n + 1 ==> freq[v] == 0
    ensures IsPerm(l, n) && Progress(mem, freq, l, n, col, p, 0, 0, 0, Code(l, n, col, 0))
  {
    IdentityPerm(n);
    assert col[0..] == col && mem[..0] == [];
    assert [] + Code(l, n, col, 0) == Code(l, n, col, 0);
  }

  /** The last run and the end-of-block symbol. */
  method CodeEnd(mem: array<int>, freq: array<nat>, wr0: nat, pend: nat, eob: nat, ghost l: seq<int>,
                 ghost col: seq<int>, ghost p: seq<int>, ghost all: seq<int>)
    returns (wr: nat)
    requires mem as object != freq && 1 <= eob && |col| > 0
    requires Progress(mem[..], freq[..], l, eob - 1, col, p, |col|, wr0, pend, all)
    modifies mem, freq
    ensures wr <= |col| + 1 && wr <= mem.Length && mem[..wr] == all && Counted(freq[..], all, eob)
  {
    RestEnd(l, eob - 1, col, pend);
    UnreadRoom(mem[..], p, |col|);
    hide Unread, Counted, RunSymbols, Rest, Over, IsPerm;
    wr := FlushRun(mem, freq, wr0, pend, eob, p, |col|);
    Emit(mem, freq, wr, eob, eob);
    wr := wr + 1;
  }

  method ClearFreq(mtfFreq: array<nat>, eob: nat)
    requires eob < mtfFreq.Length
    modifies mtfFreq
    ensures forall v :: 0 <= v <= eob ==> mtfFreq[v] == 0
  {
    for i := 0 to eob + 1
      invariant forall v :: 0 <= v < i ==> mtfFreq[v] == 0
    {
      mtfFreq[i] := 0;
    }
  }

  method InitList(n: nat) returns (yy: array<int>)
    requires n <= 256
    ensures fresh(yy) && yy.Length == 256 && yy[..n] == Identity(n)
  {
    yy := new int[256];
    for i := 0 to n
      invariant forall k :: 0 <= k < i ==> yy[k] == k
    {
      yy[i] := i;
    }
  }

  /** generateMTFValues: what lies in `mem` as a sort order of the block becomes the code of its last
      column. */
  method GenerateMtfValues(mem: array<int>, block: array<byte>, nblock: nat, inUse: array<bool>,
                           unseqToSeq: array<byte>, mtfFreq: array<nat>, ghost p: seq<int>)
    returns (nInUse: nat, nMTF: nat)
    requires 1 <= nblock <= block.Length && inUse.Length == unseqToSeq.Length == 256 && mtfFreq.Length == 258
    requires block != unseqToSeq && mem as object != mtfFreq && mem as object != block && mem as object != unseqToSeq
    requires Marked(inUse[..], block[..nblock]) && |p| == nblock && IsPerm(p, nblock) && Unread(mem[..], p, 0)
    modifies mem, unseqToSeq, mtfFreq
    ensures 0 < nInUse == |Used(inUse[..], 256)| && IsPerm(Identity(nInUse), nInUse)
    ensures Over(MappedColumn(inUse[..], block[..nblock], p), nInUse)
    ensures nMTF <= nblock + 1 && nMTF <= mem.Length
    ensures mem[..nMTF] == Code(Identity(nInUse), nInUse, MappedColumn(inUse[..], block[..nblock], p), 0)
    ensures Spans(mem[..nMTF], nInUse, 0) == nblock && nMTF > 0 && mem[nMTF - 1] == nInUse + 1
    ensures Counted(mtfFreq[..], mem[..nMTF], nInUse + 1)
  {
    hide MappedColumn, Code, Used, Unread, Marked, IsPerm, Over, Spans, Counted, Identity;
    ghost var b: seq<int>, u, m := block[..nblock], inUse[..], mem[..];
    MarkedBytes(u, b);
    ColumnOver(u, b, p);
    nInUse := MakeMapsE(inUse, unseqToSeq);
    ghost var col := MappedColumn(u, b, p);
    ClearFreq(mtfFreq, nInUse + 1);
    var yy := InitList(nInUse);
    assert mem[..] == m;
    Start(m, mtfFreq[..], yy[..nInUse], nInUse, col, p);
    nMTF := CodeColumn(mem, block, nblock, yy, unseqToSeq, mtfFreq, nInUse, u, p,
        Code(Identity(nInUse), nInUse, col, 0));
    SymbolsSpan(mem[..nMTF], nInUse, col);
  }

  /** The symbols of a column stand for as many bytes as it has. */
  lemma SymbolsSpan(syms: seq<int>, n: nat, col: seq<int>)
    requires 0 < n && IsPerm(Identity(n), n) && Over(col, n) && syms == Code(Identity(n), n, col, 0)
    ensures Spans(syms, n, 0) == |col| && syms != [] && syms[|syms| - 1] == n + 1
  {
    hide Code, Spans, Over, IsPerm;
    CodeSpans(Identity(n), n, col, 0);
    CodeEnds(Identity(n), n, col, 0);
  }

  /** The list entry for the byte before rotation `ptr[i]`. */
  method ReadEntry(mem: array<int>, block: array<byte>, nblock: nat, unseqToSeq: array<byte>,
                   ghost u: seq<bool>, ghost p: seq<int>, i: nat)
    returns (ll: int)
    requires i < nblock <= block.Length && unseqToSeq.Length == 256 && Marked(u, block[..nblock]) && IsPerm(p, nblock)
    requires forall c :: 0 <= c < 256 && u[c] ==> unseqToSeq[c] == |Used(u, c)|
    requires 2 * i + 1 < mem.Length && Word(mem[..], i) == p[i]
    ensures ll == MappedColumn(u, block[..nblock], p)[i]
  {
    ghost var b: seq<int> := block[..nblock];
    var j := Word(mem[..], i) - 1;
    if j < 0 { j := j + nblock; }
    assert j == Prev(nblock, p[i]) && block[j] == b[j];
    ColumnOver(u, b, p);
    ll := unseqToSeq[block[j]];
  }

  /** The loop over the sort order. */
  method CodeColumn(mem: array<int>, block: array<byte>, nblock: nat, yy: array<int>, unseqToSeq: array<byte>,
                    mtfFreq: array<nat>, nInUse: nat, ghost u: seq<bool>, ghost p: seq<int>, ghost all: seq<int>)
    returns (nMTF: nat)
    requires 1 <= nblock <= block.Length && yy.Length == unseqToSeq.Length == 256 && nInUse <= 256
    requires mem as object != mtfFreq && mem as object != block && mem as object != unseqToSeq && mem != yy
    requires yy as object != mtfFreq && yy as object != block && yy as object != unseqToSeq
    requires mtfFreq as object != block && mtfFreq as object != unseqToSeq
    requires Marked(u, block[..nblock]) && |p| == nblock && IsPerm(p, nblock)
    requires forall c :: 0 <= c < 256 && u[c] ==> unseqToSeq[c] == |Used(u, c)|
    requires Progress(mem[..], mtfFreq[..], yy[..nInUse], nInUse, MappedColumn(u, block[..nblock], p), p, 0, 0, 0, all)
    modifies mem, mtfFreq, yy
    ensures nMTF <= nblock + 1 && nMTF <= mem.Length
    ensures mem[..nMTF] == all && Counted(mtfFreq[..], all, nInUse + 1)
  {
    hide Code, Used, MappedColumn, Progress, Counted, Marked, IsPerm, Over, Unread;
    ghost var b: seq<int>, n := block[..nblock], nInUse;
    MarkedBytes(u, b);
    ghost var col := MappedColumn(u, b, p);
    ColumnOver(u, b, p);
    var wr, zPend := 0, 0;
    for i := 0 to nblock
      invariant Progress(mem[..], mtfFreq[..], yy[..n], n, col, p, i, wr, zPend, all)
    {
      ProgressWord(mem[..], mtfFreq[..], yy[..n], n, col, p, i, wr, zPend, all);
      var ll := ReadEntry(mem, block, nblock, unseqToSeq, u, p, i);
      wr, zPend := CodeEntry(mem, mtfFreq, yy, ll, wr, zPend, n, col, p, i, all);
    }
    nMTF := CodeEnd(mem, mtfFreq, wr, zPend, nInUse + 1, yy[..n], col, p, all);
  }

  lemma ProgressWord(mem: seq<int>, freq: seq<nat>, l: seq<int>, n: nat, col: seq<int>, p: seq<int>,
                     i: nat, wr: nat, pend: nat, all: seq<int>)
    requires Progress(mem, freq, l, n, col, p, i, wr, pend, all) && i < |p|
    ensures 2 * i + 1 < |mem| && Word(mem, i) == p[i]
  {
  }
}
