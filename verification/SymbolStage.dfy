/** The symbol loop of BZ2_decompress (decompress.c): run symbols and list positions, one at a time, back
    to the last column of the block and its byte counts. */
module SymbolStage {
  import opened Power
  import opened Rotations
  import opened Permutations
  import opened Bwt
  import opened InverseBwt
  import opened BlockCheck
  import opened RunLength
  import opened ByteMaps
  import opened MoveToFront
  import opened MtfWindows

  // ----- What is left to decode -----

  /** List entries as bytes. */
  ghost function Through(used: seq<byte>, s: seq<int>): (r: seq<int>)
    ensures |r| == |s|
  {
    seq(|s|, x requires 0 <= x < |s| => if 0 <= s[x] < |used| then used[s[x]] as int else -1)
  }

  lemma ThroughConcat(used: seq<byte>, s: seq<int>, t: seq<int>)
    ensures Through(used, s + t) == Through(used, s) + Through(used, t)
  {
  }

  /** Only the entries in use matter. */
  lemma ThroughTable(used: seq<byte>, table: seq<byte>, s: seq<int>)
    requires |used| <= |table| && table[..|used|] == used && Over(s, |used|)
    ensures Through(table, s) == Through(used, s)
  {
    forall x | 0 <= x < |s|
      ensures Through(table, s)[x] == Through(used, s)[x]
    {
      assert table[..|used|][s[x]] == table[s[x]];
    }
  }

  /** A symbol sequence up to and including its only end-of-block symbol. */
  ghost predicate Terminated(syms: seq<int>, n: nat) {
    && syms != [] && syms[|syms| - 1] == n + 1
    && forall i :: 0 <= i < |syms| - 1 ==> 0 <= syms[i] <= n
  }

  lemma {:induction false} CodeTerminated(l: seq<int>, n: nat, s: seq<int>, pend: nat)
    requires IsPerm(l, n) && 0 < n && Over(s, n)
    ensures Terminated(Code(l, n, s, pend), n)
    decreases |s|
  {
    if s != [] {
      if s[0] == l[0] {
        CodeTerminated(l, n, s[1..], pend + 1);
      } else {
        var k := CodeMove(l, n, s, pend);
        CodeTerminated(ToFront(l, k), n, s[1..], 0);
      }
    }
  }

  /** A run in progress is no longer than what is still to come. */
  lemma {:induction false} DecodeLong(l: seq<int>, n: nat, run: seq<int>, syms: seq<int>)
    requires |l| >= n >= 1 && Terminated(syms, n)
    ensures RunValue(run) <= |Decode(l, n, run, syms)|
    decreases |syms|
  {
    if syms[0] == RUNA || syms[0] == RUNB {
      DecodeLong(l, n, run + [syms[0]], syms[1..]);
      assert (run + [syms[0]])[..|run|] == run;
    }
  }

  lemma {:induction false} RunAtLeast(run: seq<int>)
    ensures Pow2(|run|) <= RunValue(run) + 1
  {
    if run != [] {
      RunAtLeast(run[..|run| - 1]);
      var d := if run[|run| - 1] == RUNA then 1 else 2;
      assert d * Pow2(|run| - 1) >= Pow2(|run| - 1);
    }
  }

  /** Entries behind the first `n` play no part. */
  lemma {:induction false} DecodePrefix(l: seq<int>, tail: seq<int>, n: nat, run: seq<int>, syms: seq<int>)
    requires |l| == n >= 1
    ensures Decode(l + tail, n, run, syms) == Decode(l, n, run, syms)
    decreases |syms|
  {
    hide RunValue;
    if syms != [] {
      if syms[0] == RUNA || syms[0] == RUNB {
        DecodePrefix(l, tail, n, run + [syms[0]], syms[1..]);
      } else {
        var k := syms[0] - 1;
        var rest := if 1 <= k < n then [l[k]] + Decode(ToFront(l, k), n, [], syms[1..]) else [];
        DecodeUnfold(l, n, run, syms, rest);
        if 1 <= k < n {
          ToFrontPrefix(l, tail, k);
          DecodePrefix(ToFront(l, k), tail, n, [], syms[1..]);
        }
        hide Decode;
        DecodeUnfold(l + tail, n, run, syms, rest);
      }
    }
  }

  /** The first `n` entries are below `n`. */
  ghost predicate Front(l: seq<int>, n: nat) {
    n <= |l| && forall k :: 0 <= k < n ==> 0 <= l[k] < n
  }

  lemma FrontKept(l: seq<int>, n: nat, k: nat)
    requires Front(l, n) && k < n
    ensures Front(ToFront(l, k), n)
  {
    forall x | 0 <= x < n
      ensures 0 <= ToFront(l, k)[x] < n
    {
      ToFrontAt(l, k, x);
    }
  }

  lemma ThroughMapped(inUse: seq<bool>, col: seq<int>, n: nat)
    requires |inUse| == 256 && n == |Used(inUse, 256)| && 0 < n
    requires forall i :: 0 <= i < |col| ==> 0 <= col[i] < 256 && inUse[col[i]]
    ensures Over(Mapped(inUse, col), n) && Through(Used(inUse, 256), Mapped(inUse, col)) == col
    ensures IsPerm(Identity(n), n) && Front(Identity(256), n) && |Identity(n)| == n
  {
    UnmappedMapped(inUse, col);
    assert Through(Used(inUse, 256), Mapped(inUse, col)) == Unmapped(inUse, Mapped(inUse, col));
  }

  /** What the whole symbol sequence of a block decodes to. */
  lemma DecodesColumn(inUse: seq<bool>, col: seq<int>, n: nat)
    requires |inUse| == 256 && n == |Used(inUse, 256)| && 0 < n
    requires forall i :: 0 <= i < |col| ==> 0 <= col[i] < 256 && inUse[col[i]]
    ensures Over(Mapped(inUse, col), n) && IsPerm(Identity(n), n)
    ensures Terminated(Code(Identity(n), n, Mapped(inUse, col), 0), n)
    ensures Decode(Identity(256), n, [], Code(Identity(n), n, Mapped(inUse, col), 0)) == Mapped(inUse, col)
    ensures Through(Used(inUse, 256), Mapped(inUse, col)) == col
    ensures Front(Identity(256), n)
  {
    hide Used, Mapped, Decode, Code, Over, IsPerm, Through, Front, Terminated;
    ThroughMapped(inUse, col, n);
    var s := Mapped(inUse, col);
    var syms := Code(Identity(n), n, s, 0);
    CodeTerminated(Identity(n), n, s, 0);
    DecodeInvertsCode(Identity(n), n, s, 0);
    var tail := seq(256 - n, k => k + n);
    assert Identity(256) == Identity(n) + tail;
    DecodePrefix(Identity(n), tail, n, [], syms);
    assert Rep(Identity(n)[0], 0) + s == s;
  }

  // ----- One symbol -----

  lemma DecodeTakesRun(l: seq<int>, n: nat, run: seq<int>, syms: seq<int>)
    requires |l| >= n >= 1 && Terminated(syms, n) && (syms[0] == RUNA || syms[0] == RUNB)
    ensures Decode(l, n, run, syms) == Decode(l, n, run + [syms[0]], syms[1..]) && Terminated(syms[1..], n)
  {
  }

  /** Any other symbol writes the run first. */
  lemma DecodeRunThen(l: seq<int>, n: nat, run: seq<int>, syms: seq<int>)
    requires |l| >= n >= 1 && syms != [] && syms[0] != RUNA && syms[0] != RUNB
    ensures Decode(l, n, run, syms) == Rep(l[0], RunValue(run)) + Decode(l, n, [], syms)
  {
    NoRun(l[0]);
    hide RunValue;
    var rest := if 2 <= syms[0] <= n then [l[syms[0] - 1]] + Decode(ToFront(l, syms[0] - 1), n, [], syms[1..]) else [];
    hide Decode;
    DecodeUnfold(l, n, run, syms, rest);
    DecodeUnfold(l, n, [], syms, rest);
    assert [] + rest == rest;
  }

  lemma DecodeUnfold(l: seq<int>, n: nat, run: seq<int>, syms: seq<int>, rest: seq<int>)
    requires |l| >= n >= 1 && syms != [] && syms[0] != RUNA && syms[0] != RUNB
    requires rest == if 2 <= syms[0] <= n then [l[syms[0] - 1]] + Decode(ToFront(l, syms[0] - 1), n, [], syms[1..])
        else []
    ensures Decode(l, n, run, syms) == Rep(l[0], RunValue(run)) + rest
  {
    hide RunValue;
  }

  lemma NoRun(c: int)
    ensures Rep(c, RunValue([])) == []
  {
  }

  lemma DecodeTakesOther(used: seq<byte>, l: seq<int>, n: nat, run: seq<int>, syms: seq<int>)
    requires |l| >= n >= 1 && syms != [] && syms[0] != RUNA && syms[0] != RUNB && 0 <= l[0] < |used|
    ensures Through(used, Decode(l, n, run, syms)) ==
            Rep(used[l[0]], RunValue(run)) + Through(used, Decode(l, n, [], syms))
  {
    hide RunValue, Decode;
    DecodeRunThen(l, n, run, syms);
    ThroughConcat(used, Rep(l[0], RunValue(run)), Decode(l, n, [], syms));
    assert Through(used, Rep(l[0], RunValue(run))) == Rep(used[l[0]], RunValue(run));
  }

  lemma DecodeTakesMove(used: seq<byte>, l: seq<int>, n: nat, syms: seq<int>)
    requires |l| >= n >= 1 && 2 <= |syms| && 2 <= syms[0] <= n && 0 <= l[syms[0] - 1] < |used|
    ensures Through(used, Decode(l, n, [], syms)) ==
            [used[l[syms[0] - 1]] as int] + Through(used, Decode(ToFront(l, syms[0] - 1), n, [], syms[1..]))
  {
    var k := syms[0] - 1;
    NoRun(l[0]);
    hide RunValue, Decode, ToFront;
    var d := Decode(ToFront(l, k), n, [], syms[1..]);
    DecodeUnfold(l, n, [], syms, [l[k]] + d);
    ThroughConcat(used, [l[k]], d);
  }

  lemma DecodeTakesEnd(l: seq<int>, n: nat, syms: seq<int>)
    requires |l| >= n >= 1 && syms != [] && syms[0] == n + 1
    ensures Decode(l, n, [], syms) == []
  {
    NoRun(l[0]);
    hide RunValue;
    DecodeUnfold(l, n, [], syms, []);
  }

  lemma TerminatedStep(syms: seq<int>, n: nat)
    requires Terminated(syms, n)
    ensures 0 <= syms[0] <= n + 1
    ensures syms[0] == n + 1 <==> |syms| == 1
    ensures syms[0] != n + 1 ==> Terminated(syms[1..], n)
  {
  }

  // ----- The loop -----

  lemma {:induction false} CountEqPrefix(l: seq<int>, m: seq<int>, k: nat, c: int)
    requires k <= |l| <= |m| && l == m[..|l|]
    ensures CountEq(m, k, c) == CountEq(l, k, c)
  {
    if k != 0 {
      CountEqPrefix(l, m, k - 1, c);
      assert l[k - 1] == m[k - 1];
    }
  }

  /** The counts of the bytes of `out`. */
  ghost predicate Tallied(unzftab: seq<int>, out: seq<int>) {
    |unzftab| == 256 && forall c :: 0 <= c < 256 ==> unzftab[c] == CountEq(out, |out|, c)
  }

  lemma TallyMore(unzftab: seq<int>, out: seq<int>, v: byte)
    requires Tallied(unzftab, out)
    ensures Tallied(unzftab[v := unzftab[v] + 1], out + [v])
  {
    forall c | 0 <= c < 256
      ensures CountEq(out + [v], |out| + 1, c) == CountEq(out, |out|, c) + if v == c then 1 else 0
    {
      CountEqPrefix(out, out + [v], |out|, c);
    }
  }

  lemma {:induction false} TallyRun(unzftab: seq<int>, out: seq<int>, v: byte, n: nat)
    requires Tallied(unzftab, out)
    ensures Tallied(unzftab[v := unzftab[v] + n], out + Rep(v, n))
  {
    if n == 0 {
      assert out + Rep(v, 0) == out;
      assert unzftab[v := unzftab[v] + 0] == unzftab;
    } else {
      TallyRun(unzftab, out, v, n - 1);
      var u := unzftab[v := unzftab[v] + (n - 1)];
      TallyMore(u, out + Rep(v, n - 1), v);
      assert out + Rep(v, n - 1) + [v] == out + Rep(v, n);
      assert u[v := u[v] + 1] == unzftab[v := unzftab[v] + n];
    }
  }

  /** What the block arrays hold: the bytes `out`, in `ll16` or in `tt`. */
  ghost predicate Written(small: bool, tt: seq<u32>, ll16: seq<u16>, out: seq<int>) {
    if small then |out| <= |ll16| && forall x :: 0 <= x < |out| ==> ll16[x] == out[x]
    else |out| <= |tt| && forall x :: 0 <= x < |out| ==> tt[x] == out[x]
  }

  /** With the bytes `out` written, the list `l`, the run `run` in progress and the symbols `syms` still
      to come, the block becomes the column `col`. */
  ghost predicate Due(out: seq<int>, used: seq<byte>, l: seq<int>, n: nat, run: seq<int>, syms: seq<int>,
                      col: seq<int>) {
    && 1 <= n <= |used| && Terminated(syms, n) && Front(l, n) && |col| <= 900000
    && out + Through(used, Decode(l, n, run, syms)) == col
  }

  lemma DueRun(out: seq<int>, used: seq<byte>, l: seq<int>, n: nat, run: seq<int>, syms: seq<int>, col: seq<int>)
    requires Due(out, used, l, n, run, syms, col) && (syms[0] == RUNA || syms[0] == RUNB)
    ensures Due(out, used, l, n, run + [syms[0]], syms[1..], col)
    ensures Pow2(|run|) < 2 * 1024 * 1024
  {
    DecodeTakesRun(l, n, run, syms);
    RunFits(used, out, l, n, run, syms, col);
  }

  lemma DueRunEnd(out: seq<int>, used: seq<byte>, l: seq<int>, n: nat, run: seq<int>, syms: seq<int>, col: seq<int>)
    requires Due(out, used, l, n, run, syms, col) && syms[0] != RUNA && syms[0] != RUNB
    ensures 0 <= l[0] < |used| && Due(out + Rep(used[l[0]], RunValue(run)), used, l, n, [], syms, col)
    ensures |out| + RunValue(run) <= |col|
  {
    RunFits(used, out, l, n, run, syms, col);
    DecodeTakesOther(used, l, n, run, syms);
    hide Decode, Through, RunValue;
    var x, y := Rep(used[l[0]], RunValue(run)), Through(used, Decode(l, n, [], syms));
    assert out + (x + y) == (out + x) + y;
  }

  lemma DueMove(out: seq<int>, used: seq<byte>, l: seq<int>, n: nat, syms: seq<int>, col: seq<int>)
    requires Due(out, used, l, n, [], syms, col) && 2 <= syms[0] <= n
    ensures n <= |l| && 0 <= l[syms[0] - 1] < |used| && |out| < |col|
    ensures Due(out + [used[l[syms[0] - 1]] as int], used, ToFront(l, syms[0] - 1), n, [], syms[1..], col)
  {
    TerminatedStep(syms, n);
    DecodeTakesMove(used, l, n, syms);
    FrontKept(l, n, syms[0] - 1);
    hide Decode, Through, ToFront;
    Reassociate(out, used[l[syms[0] - 1]], Through(used, Decode(ToFront(l, syms[0] - 1), n, [], syms[1..])));
  }

  lemma DueEnd(out: seq<int>, used: seq<byte>, l: seq<int>, n: nat, syms: seq<int>, col: seq<int>)
    requires Due(out, used, l, n, [], syms, col) && syms[0] == n + 1
    ensures out == col
  {
    DecodeTakesEnd(l, n, syms);
    assert out + [] == out;
  }

  lemma DueSymbol(out: seq<int>, used: seq<byte>, l: seq<int>, n: nat, run: seq<int>, syms: seq<int>, col: seq<int>)
    requires Due(out, used, l, n, run, syms, col)
    ensures syms != [] && 0 <= syms[0] <= n + 1
    ensures syms[0] == n + 1 <==> |syms| == 1
  {
  }

  datatype Status = More | EndOfBlock | Corrupt

  class BlockSymbols {
    const small: bool
    const tt: array<u32>
    const ll16: array<u16>
    const unzftab: array<int>
    const seqToUnseq: array<byte>
    const mtf: MtfTable
    const nblockMAX: nat
    var eob: nat
    var nblock: nat
    var es: int
    var N: nat
    var inRun: bool
    ghost var out: seq<int>
    ghost var run: seq<int>

    constructor (small: bool, tt: array<u32>, ll16: array<u16>, nblockMAX: nat)
      requires (if small then nblockMAX <= ll16.Length else nblockMAX <= tt.Length) && tt as object != ll16
      ensures Shape() && fresh(mtf) && fresh(mtf.mtfa) && fresh(mtf.mtfbase) && fresh(unzftab) && fresh(seqToUnseq)
      ensures this.small == small && this.tt == tt && this.ll16 == ll16 && this.nblockMAX == nblockMAX
    {
      this.small, this.tt, this.ll16, this.nblockMAX := small, tt, ll16, nblockMAX;
      eob, nblock, es, N, inRun, out, run := 0, 0, 0, 0, false, [], [];
      mtf := new MtfTable();
      unzftab, seqToUnseq := new int[256](_ => 0), new byte[256](_ => 0);
    }

    /** Before the first symbol of a block. */
    method Begin(nInUse: nat)
      requires Shape()
      modifies this, unzftab, mtf.mtfa, mtf.mtfbase
      ensures Consistent() && eob == nInUse + 1 && out == [] && run == [] && !inRun && mtf.L() == Identity(256)
    {
      ClearCounts();
      eob := nInUse + 1;
      nblock, es, N, inRun, out, run := 0, 0, 0, false, [], [];
      hide MtfTable.L, MtfTable.Valid, Windows, Tallied;
      mtf.Init();
    }

    method ClearCounts()
      requires Shape()
      modifies unzftab
      ensures Tallied(unzftab[..], [])
    {
      for i := 0 to 256
        invariant forall c :: 0 <= c < i ==> unzftab[c] == 0
      {
        unzftab[i] := 0;
      }
    }

    ghost predicate Shape() {
      && seqToUnseq.Length == unzftab.Length == 256 && mtf.mtfa.Length == MTFA && mtf.mtfbase.Length == 16
      && (if small then nblockMAX <= ll16.Length else nblockMAX <= tt.Length)
      && tt as object != ll16 && tt as object != seqToUnseq && tt as object != unzftab
      && tt as object != mtf.mtfa && tt as object != mtf.mtfbase
      && ll16 as object != seqToUnseq && ll16 as object != unzftab
      && ll16 as object != mtf.mtfa && ll16 as object != mtf.mtfbase
      && seqToUnseq as object != unzftab && seqToUnseq != mtf.mtfa && seqToUnseq as object != mtf.mtfbase
      && unzftab as object != mtf.mtfa && unzftab != mtf.mtfbase
    }

    /** The bytes written so far, and their counts. */
    ghost predicate Filled()
      reads `nblock, `out, tt, ll16, unzftab
    {
      Shape() && nblock == |out| && Written(small, tt[..], ll16[..], out) && Tallied(unzftab[..], out)
    }

    lemma FilledSize()
      requires Filled()
      ensures nblock == |out|
    {
    }

    /** The state means: the bytes `out` written, the run `run` in progress. */
    ghost predicate Consistent()
      reads this, tt, ll16, unzftab, mtf, mtf.mtfa, mtf.mtfbase
    {
      && Shape() && mtf.Valid() && Filled()
      && (inRun ==> es == RunValue(run) - 1 && N == Pow2(|run|))
      && (!inRun ==> run == [])
    }

    /** With the symbols `syms` still to come, the block becomes the column `col`. */
    ghost predicate Expects(syms: seq<int>, col: seq<int>)
      reads this, seqToUnseq, mtf, mtf.mtfa, mtf.mtfbase
    {
      Shape() && 2 <= eob <= 257 && |col| <= nblockMAX && Due(out, seqToUnseq[..], mtf.L(), eob - 1, run, syms, col)
    }

    /** One more run symbol: `if (N >= 2*1024*1024) ...; es += ...; N *= 2`. */
    method AddRun(sym: int, ghost syms: seq<int>, ghost col: seq<int>) returns (st: Status)
      requires Consistent() && inRun && Expects(syms, col)
      requires syms != [] && sym == syms[0] && (sym == RUNA || sym == RUNB)
      modifies `es, `N, `run
      ensures Consistent() && inRun && st == More && Expects(syms[1..], col)
    {
      hide Due, Filled, MtfTable.L, MtfTable.Valid, Windows, Rep, RunValue, Pow2;
      DueRun(out, seqToUnseq[..], mtf.L(), eob - 1, run, syms, col);
      RunValueMore(run, sym);
      if N >= 2 * 1024 * 1024 { return Corrupt; }
      if sym == RUNA { es := es + 1 * N; } else { es := es + 2 * N; }
      N := N * 2;
      run := run + [sym];
      st := More;
    }

    /** `if (nblock >= nblockMAX) ...; ll16[nblock] or tt[nblock] = uc; nblock++`. */
    method Put(uc: byte) returns (ok: bool)
      requires Shape() && nblock == |out| < nblockMAX && Written(small, tt[..], ll16[..], out)
      modifies tt, ll16, `nblock, `out
      ensures ok && nblock == |out| && out == old(out) + [uc as int] && Written(small, tt[..], ll16[..], out)
    {
      if nblock >= nblockMAX { return false; }
      if small { ll16[nblock] := uc; } else { tt[nblock] := uc; }
      nblock := nblock + 1;
      out := out + [uc as int];
      ok := true;
    }

    /** `unzftab[uc] += es` and the loop that writes `es` copies. */
    method Fill(uc: byte) returns (ok: bool)
      requires Filled() && 0 <= es && |out| + es <= nblockMAX
      modifies tt, ll16, unzftab, `nblock, `out, `es
      ensures ok && Filled() && out == old(out) + Rep(uc, old(es))
    {
      hide Written, Tallied;
      ghost var out0, n: nat := out, es;
      TallyRun(unzftab[..], out, uc, n);
      TallyEntries(unzftab[..], out);
      unzftab[uc] := unzftab[uc] + es;
      assert out0 + Rep(uc, 0) == out0;
      while es > 0
        invariant 0 <= es <= n && nblock == |out| && out == out0 + Rep(uc, n - es) &&
            Written(small, tt[..], ll16[..], out)
        invariant Tallied(unzftab[..], out0 + Rep(uc, n))
      {
        ok := Put(uc);
        es := es - 1;
        if !ok { return false; }
        assert Rep(uc, n - es - 1) + [uc as int] == Rep(uc, n - es);
      }
      ok := true;
    }

    /** `unzftab[...]++` and one write. */
    method Append(uc: byte) returns (ok: bool)
      requires Filled() && |out| < nblockMAX
      modifies tt, ll16, unzftab, `nblock, `out
      ensures ok && Filled() && out == old(out) + [uc as int]
    {
      hide Written, Tallied;
      TallyMore(unzftab[..], out, uc);
      TallyEntries(unzftab[..], out);
      unzftab[uc] := unzftab[uc] + 1;
      ok := Put(uc);
    }

    method FrontByte() returns (uc: byte)
      requires Shape() && mtf.Valid() && 0 <= mtf.L()[0] < 256
      ensures uc == seqToUnseq[..][mtf.L()[0]]
    {
      hide MtfTable.L, MtfTable.Valid, Windows, Rep;
      var k := mtf.Front();
      uc := seqToUnseq[k];
    }

    /** The run is over: count it and write it out. */
    method WriteRun(ghost syms: seq<int>, ghost col: seq<int>) returns (ok: bool)
      requires Consistent() && inRun && Expects(syms, col) && syms != [] && syms[0] != RUNA && syms[0] != RUNB
      modifies `es, `inRun, `run, `nblock, `out, tt, ll16, unzftab
      ensures ok && Consistent() && !inRun && Expects(syms, col)
    {
      hide Due, Filled, MtfTable.L, MtfTable.Valid, Windows, Rep, RunValue, Pow2;
      DueRunEnd(out, seqToUnseq[..], mtf.L(), eob - 1, run, syms, col);
      FilledSize();
      es := es + 1;
      var uc := FrontByte();
      ok := Fill(uc);
      inRun, run := false, [];
    }

    method MoveByte(nn: nat) returns (uc: byte)
      requires Shape() && mtf.Valid() && nn < 256
      modifies mtf.mtfa, mtf.mtfbase
      ensures mtf.Valid() && mtf.L() == ToFront(old(mtf.L()), nn)
      ensures 0 <= old(mtf.L())[nn] < 256 && uc == seqToUnseq[..][old(mtf.L())[nn]]
    {
      hide MtfTable.L, MtfTable.Valid, Windows, Rep, ToFront;
      var k := mtf.Move(nn);
      uc := seqToUnseq[k];
    }

    /** uc = MTF(nextSym-1), counted and written. */
    method WriteMoved(sym: int, ghost syms: seq<int>, ghost col: seq<int>) returns (ok: bool)
      requires Consistent() && !inRun && Expects(syms, col) && syms != [] && sym == syms[0] && 2 <= sym < eob
      modifies `nblock, `out, tt, ll16, unzftab, mtf.mtfa, mtf.mtfbase
      ensures ok && Consistent() && !inRun && Expects(syms[1..], col)
    {
      hide Due, Filled, MtfTable.L, MtfTable.Valid, Windows, Rep, ToFront;
      DueMove(out, seqToUnseq[..], mtf.L(), eob - 1, syms, col);
      FilledSize();
      if nblock >= nblockMAX { return false; }
      var uc := MoveByte(sym - 1);
      ok := Append(uc);
    }

    /** What happens between two symbols: the loop body for `sym`, up to the next GET_MTF_VAL. */
    method Take(sym: int, ghost syms: seq<int>, ghost col: seq<int>) returns (st: Status)
      requires Consistent() && Expects(syms, col) && syms != [] && sym == syms[0]
      modifies `es, `N, `inRun, `run, `nblock, `out, tt, ll16, unzftab, mtf.mtfa, mtf.mtfbase
      ensures Consistent()
      ensures |syms| > 1 ==> st == More && Expects(syms[1..], col)
      ensures |syms| == 1 ==> st == EndOfBlock && out == col
    {
      hide Due, Filled, RunValue, MtfTable.L, MtfTable.Valid, Windows, Rep;
      DueSymbol(out, seqToUnseq[..], mtf.L(), eob - 1, run, syms, col);
      if sym == RUNA || sym == RUNB {
        if !inRun {
          StartRun();
        }
        st := AddRun(sym, syms, col);
      } else {
        var ok;
        if inRun {
          ok := WriteRun(syms, col);
          if !ok { return Corrupt; }
        }
        if sym == eob {
          DueEnd(out, seqToUnseq[..], mtf.L(), eob - 1, syms, col);
          return EndOfBlock;
        }
        ok := WriteMoved(sym, syms, col);
        st := if ok then More else Corrupt;
      }
    }

    method StartRun()
      requires Consistent() && !inRun
      modifies `es, `N, `inRun
      ensures Consistent() && inRun
    {
      assert run == [];
      assert RunValue(run) == 0 && Pow2(|run|) == 1;
      hide Filled, MtfTable.Valid, RunValue, Pow2;
      es, N, inRun := -1, 1, true;
    }
  }

  lemma Reassociate(a: seq<int>, x: int, b: seq<int>)
    ensures a + ([x] + b) == (a + [x]) + b
  {
  }

  lemma TallyEntries(unzftab: seq<int>, out: seq<int>)
    requires Tallied(unzftab, out)
    ensures |unzftab| == 256
  {
  }

  lemma RunValueMore(run: seq<int>, sym: int)
    ensures RunValue(run + [sym]) == RunValue(run) + (if sym == RUNA then 1 else 2) * Pow2(|run|)
    ensures Pow2(|run + [sym]|) == 2 * Pow2(|run|)
  {
    assert (run + [sym])[..|run|] == run;
  }

  /** No run of a block can reach the decoder's limit. */
  lemma RunFits(used: seq<byte>, out: seq<int>, l: seq<int>, n: nat, run: seq<int>, syms: seq<int>, col: seq<int>)
    requires |l| >= n >= 1 && Terminated(syms, n) && out + Through(used, Decode(l, n, run, syms)) == col &&
        |col| <= 900000
    ensures Pow2(|run|) < 2 * 1024 * 1024 && |out| + RunValue(run) <= |col|
  {
    DecodeLong(l, n, run, syms);
    RunAtLeast(run);
  }
}
