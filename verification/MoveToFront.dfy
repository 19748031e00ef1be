/** Move-to-front coding with run symbols: what generateMTFValues (compress.c) writes for a last
    column and what the symbol loop of BZ2_decompress (decompress.c) makes of it. */
module MoveToFront {
  import opened Power
  import opened Permutations
  import opened RunLength

  const RUNA := 0
  const RUNB := 1

  // ----- The list -----

  /** Entry `k` moves to the front. */
  function ToFront<T>(l: seq<T>, k: nat): (r: seq<T>)
    requires k < |l|
    ensures |r| == |l|
  {
    [l[k]] + l[..k] + l[k + 1..]
  }

  lemma ToFrontPerm(l: seq<int>, n: nat, k: nat)
    requires IsPerm(l, n) && k < n
    ensures IsPerm(ToFront(l, k), n)
  {
    var r := ToFront(l, k);
    forall x, y | 0 <= x < y < n
      ensures r[x] != r[y]
    {
      var u := if x == 0 then k else if x <= k then x - 1 else x;
      var v := if y <= k then y - 1 else y;
      assert r[x] == l[u] && r[y] == l[v];
    }
  }

  /** Entries behind the coded ones stay where they are. */
  lemma ToFrontPrefix<T>(l: seq<T>, tail: seq<T>, k: nat)
    requires k < |l|
    ensures ToFront(l + tail, k) == ToFront(l, k) + tail
  {
    assert (l + tail)[k + 1..] == l[k + 1..] + tail;
  }

  /** The list every block starts with. */
  ghost function Identity(n: nat): (r: seq<int>)
    ensures |r| == n
  {
    seq(n, k => k)
  }

  lemma IdentityPerm(n: nat)
    ensures IsPerm(Identity(n), n)
  {
  }

  // ----- Runs -----

  /** A run length in bijective base two, least significant digit first. */
  ghost function RunSymbols(n: nat): (r: seq<int>)
    ensures forall i :: 0 <= i < |r| ==> r[i] == RUNA || r[i] == RUNB
    ensures |r| <= n
  {
    if n == 0 then [] else [if (n - 1) % 2 == 1 then RUNB else RUNA] + RunSymbols((n - 1) / 2)
  }

  /** What the decoder has added up: `es + 1` after reading `s`. */
  ghost function RunValue(s: seq<int>): nat {
    if s == [] then 0 else RunValue(s[..|s| - 1]) + (if s[|s| - 1] == RUNA then 1 else 2) * Pow2(|s| - 1)
  }

  /** The same sum, from the other end. */
  lemma {:induction false} RunValueFront(s: seq<int>)
    requires s != []
    ensures RunValue(s) == (if s[0] == RUNA then 1 else 2) + 2 * RunValue(s[1..])
  {
    if |s| == 1 {
      assert s[..0] == [] && s[1..] == [];
    } else {
      var t := s[..|s| - 1];
      RunValueFront(t);
      assert t[1..] == s[1..][..|s| - 2];
      var d := if s[|s| - 1] == RUNA then 1 else 2;
      assert d * Pow2(|s| - 1) == 2 * (d * Pow2(|s| - 2));
    }
  }

  /** Reading back a run gives its length. */
  lemma {:induction false} RunRoundTrip(n: nat)
    ensures RunValue(RunSymbols(n)) == n
  {
    if n != 0 {
      var s := RunSymbols(n);
      RunRoundTrip((n - 1) / 2);
      RunValueFront(s);
      assert s[1..] == RunSymbols((n - 1) / 2);
    }
  }

  /** The symbols 0 and 1 as digits 1 and 2 of a number to base two, the lowest first. */
  ghost function DigitSum(s: seq<int>): int {
    if s == [] then 0 else DigitSum(s[..|s| - 1]) + (s[|s| - 1] + 1) * Pow2(|s| - 1)
  }

  lemma {:induction false} ValueIsDigits(s: seq<int>)
    requires forall i :: 0 <= i < |s| ==> s[i] == 0 || s[i] == 1
    ensures RunValue(s) == DigitSum(s)
  {
    if s != [] { ValueIsDigits(s[..|s| - 1]); }
  }

  /** A run is written as these digits of its length. */
  lemma RunDigits(n: nat)
    ensures forall i :: 0 <= i < |RunSymbols(n)| ==> RunSymbols(n)[i] == 0 || RunSymbols(n)[i] == 1
    ensures DigitSum(RunSymbols(n)) == n
  {
    RunRoundTrip(n);
    ValueIsDigits(RunSymbols(n));
  }

  // ----- A whole column -----

  /** The position of `v` in the list. */
  ghost function Where(l: seq<int>, v: int): (k: nat)
    requires v in l
    ensures k < |l| && l[k] == v && v !in l[..k]
  {
    if l[0] == v then 0 else 1 + Where(l[1..], v)
  }

  ghost predicate Over(s: seq<int>, n: nat) {
    forall i :: 0 <= i < |s| ==> 0 <= s[i] < n
  }

  /** The symbols for the column `s`, with `pend` repetitions of the front entry not yet written;
      list positions are coded one higher, to make room for the run symbols. */
  ghost function Code(l: seq<int>, n: nat, s: seq<int>, pend: nat): (r: seq<int>)
    requires IsPerm(l, n) && 0 < n && Over(s, n)
    decreases |s|
  {
    if s == [] then RunSymbols(pend) + [n + 1]
    else if s[0] == l[0] then Code(l, n, s[1..], pend + 1)
    else
      PermOnto(l, n, s[0]);
      var k := Where(l, s[0]);
      ToFrontPerm(l, n, k);
      RunSymbols(pend) + [k + 1] + Code(ToFront(l, k), n, s[1..], 0)
  }

  /** The decoder, symbol by symbol: `run` is the run read so far, to be written before anything
      else; it stops at the end-of-block symbol. */
  ghost function Decode(l: seq<int>, n: nat, run: seq<int>, syms: seq<int>): seq<int>
    requires |l| >= n >= 1
    decreases |syms|
  {
    if syms == [] then []
    else if syms[0] == RUNA || syms[0] == RUNB then Decode(l, n, run + [syms[0]], syms[1..])
    else
      Rep(l[0], RunValue(run)) +
      if 2 <= syms[0] <= n then [l[syms[0] - 1]] + Decode(ToFront(l, syms[0] - 1), n, [], syms[1..]) else []
  }

  lemma {:induction false} DecodeRun(l: seq<int>, n: nat, run: seq<int>, more: seq<int>, syms: seq<int>)
    requires |l| >= n >= 1 && forall i :: 0 <= i < |more| ==> more[i] == RUNA || more[i] == RUNB
    ensures Decode(l, n, run, more + syms) == Decode(l, n, run + more, syms)
    decreases |more|
  {
    if more == [] {
      assert more + syms == syms && run + more == run;
    } else {
      DecodeRun(l, n, run + [more[0]], more[1..], syms);
      assert (more + syms)[1..] == more[1..] + syms;
      assert run + [more[0]] + more[1..] == run + more;
    }
  }

  /** A run, then another entry. */
  lemma DecodeMove(l: seq<int>, n: nat, run: seq<int>, k: nat, tail: seq<int>)
    requires |l| >= n > k >= 1 && forall i :: 0 <= i < |run| ==> run[i] == RUNA || run[i] == RUNB
    ensures Decode(l, n, [], run + [k + 1] + tail) ==
            Rep(l[0], RunValue(run)) + ([l[k]] + Decode(ToFront(l, k), n, [], tail))
  {
    DecodeOne(l, n, run, k, tail);
    hide RunValue, Decode;
    DecodeRun(l, n, [], run, [k + 1] + tail);
    assert run + [k + 1] + tail == run + ([k + 1] + tail);
    assert [] + run == run;
  }

  lemma DecodeOne(l: seq<int>, n: nat, run: seq<int>, k: nat, tail: seq<int>)
    requires |l| >= n > k >= 1
    ensures Decode(l, n, run, [k + 1] + tail) ==
        Rep(l[0], RunValue(run)) + ([l[k]] + Decode(ToFront(l, k), n, [], tail))
  {
    hide RunValue;
    assert ([k + 1] + tail)[1..] == tail;
  }

  lemma DecodeEnd(l: seq<int>, n: nat, run: seq<int>)
    requires |l| >= n >= 1 && forall i :: 0 <= i < |run| ==> run[i] == RUNA || run[i] == RUNB
    ensures Decode(l, n, [], run + [n + 1]) == Rep(l[0], RunValue(run))
  {
    hide RunValue;
    DecodeRun(l, n, [], run, [n + 1]);
    assert [] + run == run;
  }

  lemma CodeMove(l: seq<int>, n: nat, s: seq<int>, pend: nat) returns (k: nat)
    requires IsPerm(l, n) && 0 < n && Over(s, n) && s != [] && s[0] != l[0]
    ensures 1 <= k < n && l[k] == s[0] && IsPerm(ToFront(l, k), n)
    ensures Code(l, n, s, pend) == RunSymbols(pend) + [k + 1] + Code(ToFront(l, k), n, s[1..], 0)
  {
    PermOnto(l, n, s[0]);
    k := Where(l, s[0]);
    ToFrontPerm(l, n, k);
  }

  lemma OverTail(s: seq<int>, n: nat)
    requires Over(s, n) && s != []
    ensures Over(s[1..], n)
  { }

  lemma RepMore(x: int, pend: nat, s: seq<int>)
    requires s != [] && s[0] == x
    ensures Rep(x, pend + 1) + s[1..] == Rep(x, pend) + s
  { }

  lemma RepNone(x: int, s: seq<int>)
    ensures Rep(x, 0) + s == s
  { }

  /** Decoding the code of a column gives the column back. */
  lemma {:induction false} DecodeInvertsCode(l: seq<int>, n: nat, s: seq<int>, pend: nat)
    requires IsPerm(l, n) && 0 < n && Over(s, n)
    ensures Decode(l, n, [], Code(l, n, s, pend)) == Rep(l[0], pend) + s
    decreases |s|
  {
    assert |l| == n;
    hide RunValue, RunSymbols, Decode, IsPerm, Rep, Over;
    RunRoundTrip(pend);
    if s != [] { OverTail(s, n); }
    if s == [] {
      DecodeEnd(l, n, RunSymbols(pend));
      assert Rep(l[0], pend) + [] == Rep(l[0], pend);
    } else if s[0] == l[0] {
      DecodeInvertsCode(l, n, s[1..], pend + 1);
      RepMore(l[0], pend, s);
    } else {
      hide Code;
      var k := CodeMove(l, n, s, pend);
      var m := ToFront(l, k);
      DecodeInvertsCode(m, n, s[1..], 0);
      RepNone(m[0], s[1..]);
      DecodeMove(l, n, RunSymbols(pend), k, Code(m, n, s[1..], 0));
      assert [l[k]] + s[1..] == s;
    }
  }

  /** Never more symbols than column entries, but for the end-of-block symbol. */
  lemma {:induction false} CodeShort(l: seq<int>, n: nat, s: seq<int>, pend: nat)
    requires IsPerm(l, n) && 0 < n && Over(s, n)
    ensures |Code(l, n, s, pend)| <= pend + |s| + 1
    decreases |s|
  {
    if s != [] {
      if s[0] == l[0] {
        CodeShort(l, n, s[1..], pend + 1);
      } else {
        PermOnto(l, n, s[0]);
        var k := Where(l, s[0]);
        ToFrontPerm(l, n, k);
        CodeShort(ToFront(l, k), n, s[1..], 0);
      }
    }
  }

  // ----- How many bytes the symbols stand for -----

  /** Symbols 0 and 1 are the digits of a run, the end of the block is n + 1, any other symbol is one byte;
      `k` digits have gone before. */
  ghost function Spans(syms: seq<int>, n: nat, k: nat): int {
    if syms == [] || syms[0] == n + 1 then 0
    else if syms[0] == 0 || syms[0] == 1 then (syms[0] + 1) * Pow2(k) + Spans(syms[1..], n, k + 1)
    else 1 + Spans(syms[1..], n, 0)
  }

  lemma {:induction false} RunSpans(m: nat, rest: seq<int>, n: nat, k: nat)
    requires n >= 1 && rest != [] && rest[0] >= 2
    ensures Spans(RunSymbols(m) + rest, n, k) == m * Pow2(k) + Spans(rest, n, 0)
    decreases m
  {
    if m == 0 {
      assert RunSymbols(0) + rest == rest;
    } else {
      var h := (m - 1) / 2;
      var s, d := RunSymbols(h) + rest, if (m - 1) % 2 == 1 then 1 else 0;
      assert RunSymbols(m) + rest == [d] + s;
      assert ([d] + s)[1..] == s;
      RunSpans(h, rest, n, k + 1);
      DigitWeight(m, h, d, Pow2(k));
    }
  }

  lemma DigitWeight(m: nat, h: nat, d: nat, p: nat)
    requires m == d + 1 + 2 * h
    ensures (d + 1) * p + h * (2 * p) == m * p
  { }

  /** The code of a column stands for as many bytes as the column has, and the run before it. */
  lemma {:induction false} CodeSpans(l: seq<int>, n: nat, s: seq<int>, pend: nat)
    requires IsPerm(l, n) && 0 < n && Over(s, n)
    ensures Spans(Code(l, n, s, pend), n, 0) == pend + |s|
    decreases |s|
  {
    assert Pow2(0) == 1;
    if s == [] {
      RunSpans(pend, [n + 1], n, 0);
    } else if s[0] == l[0] {
      CodeSpans(l, n, s[1..], pend + 1);
    } else {
      PermOnto(l, n, s[0]);
      var k := Where(l, s[0]);
      ToFrontPerm(l, n, k);
      var rest := Code(ToFront(l, k), n, s[1..], 0);
      CodeSpans(ToFront(l, k), n, s[1..], 0);
      assert RunSymbols(pend) + [k + 1] + rest == RunSymbols(pend) + ([k + 1] + rest);
      assert ([k + 1] + rest)[1..] == rest;
      RunSpans(pend, [k + 1] + rest, n, 0);
    }
  }

  /** The last symbol is the end of the block. */
  lemma {:induction false} CodeEnds(l: seq<int>, n: nat, s: seq<int>, pend: nat)
    requires IsPerm(l, n) && 0 < n && Over(s, n)
    ensures var c := Code(l, n, s, pend); c != [] && c[|c| - 1] == n + 1
    decreases |s|
  {
    hide RunSymbols;
    if s != [] {
      if s[0] == l[0] {
        CodeEnds(l, n, s[1..], pend + 1);
      } else {
        PermOnto(l, n, s[0]);
        var k := Where(l, s[0]);
        ToFrontPerm(l, n, k);
        CodeEnds(ToFront(l, k), n, s[1..], 0);
      }
    }
  }
}
