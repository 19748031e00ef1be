/** How long the initial run-length code of some bytes is (bzlib.c), told from the bytes alone, and how many
    blocks they fill. */
module RunSize {
  import opened RunLength
  import opened BlockFormat
  import opened CompressBlock
  import opened Decompress
  import opened BzDecompress
  import opened BzCompress
  import opened StreamSize

  /** How many bytes of the same run stand before byte `n`; a run ends at 255. */
  ghost function Place(s: seq<int>, n: nat): nat
    requires n < |s|
  {
    if n > 0 && s[n] == s[n - 1] && Place(s, n - 1) < 254 then Place(s, n - 1) + 1 else 0
  }

  /** The first four bytes of a run are written, behind the fourth one more, and the others not at all. */
  ghost function CodeSize(s: seq<int>, n: nat): nat
    requires n <= |s|
  {
    if n == 0 then 0
    else CodeSize(s, n - 1) + if Place(s, n - 1) < 3 then 1 else if Place(s, n - 1) == 3 then 2 else 0
  }

  /** The first `n` bytes are the same. */
  ghost predicate Begins(s: seq<int>, t: seq<int>, n: nat) {
    n <= |s| <= |t| && forall i :: 0 <= i < n ==> t[i] == s[i]
  }

  lemma {:induction false} PlaceFront(s: seq<int>, t: seq<int>, n: nat)
    requires n < |s| && Begins(s, t, n + 1)
    ensures n < |t| && Place(t, n) == Place(s, n)
  {
    if n > 0 { PlaceFront(s, t, n - 1); }
  }

  lemma {:induction false} SizeFront(s: seq<int>, t: seq<int>, n: nat)
    requires Begins(s, t, n)
    ensures n <= |s| <= |t| && CodeSize(t, n) == CodeSize(s, n)
  {
    if n > 0 {
      SizeFront(s, t, n - 1);
      PlaceFront(s, t, n - 1);
    }
  }

  lemma {:induction false} SizeGrows(s: seq<int>, m: nat, n: nat)
    requires m <= n <= |s|
    ensures CodeSize(s, m) <= CodeSize(s, n)
    decreases n
  {
    if m < n { SizeGrows(s, m, n - 1); }
  }

  /** Bytes at..at + n are all `c`. */
  ghost predicate AllAt(s: seq<int>, at: nat, n: nat, c: int) {
    at + n <= |s| && forall i :: at <= i < at + n ==> s[i] == c
  }

  /** A run that starts at `at`. */
  lemma {:induction false} RunPlaces(s: seq<int>, at: nat, c: int, n: nat)
    requires AllAt(s, at, n, c) && n <= 255
    requires at > 0 && n > 0 && s[at - 1] == c ==> Place(s, at - 1) == 254
    ensures n > 0 ==> Place(s, at + n - 1) == n - 1
    ensures CodeSize(s, at + n) == CodeSize(s, at) + if n < 4 then n else 5
  {
    if n > 0 { RunPlaces(s, at, c, n - 1); }
  }

  /** One more run behind bytes that end in another, or in a full one. */
  lemma OneMoreRun(s: seq<int>, t: seq<int>, r: Run)
    requires t == s + Rep(r.ch, r.len) && 1 <= r.len <= 255
    requires s != [] && s[|s| - 1] == r.ch ==> Place(s, |s| - 1) == 254
    ensures CodeSize(t, |t|) == CodeSize(s, |s|) + |EncodeRun(r)|
    ensures t != [] && t[|t| - 1] == r.ch && Place(t, |t| - 1) == r.len - 1
  {
    hide Place, CodeSize, EncodeRun, Rep, Begins, AllAt;
    RunBehind(s, r.ch, r.len);
    CodedSize(r);
    MoreBytes(s, t, r.ch, r.len);
  }

  lemma MoreBytes(s: seq<int>, t: seq<int>, c: int, n: nat)
    requires Begins(s, t, |s|) && AllAt(t, |s|, n, c) && |t| == |s| + n && 1 <= n <= 255
    requires s != [] && s[|s| - 1] == c ==> Place(s, |s| - 1) == 254
    ensures CodeSize(t, |t|) == CodeSize(s, |s|) + if n < 4 then n else 5
    ensures Place(t, |t| - 1) == n - 1
  {
    hide Place, CodeSize, Begins, AllAt;
    SizeFront(s, t, |s|);
    if s != [] { LastPlace(s, t); }
    RunPlaces(t, |s|, c, n);
  }

  lemma LastPlace(s: seq<int>, t: seq<int>)
    requires s != [] && Begins(s, t, |s|)
    ensures |s| <= |t| && t[|s| - 1] == s[|s| - 1] && Place(t, |s| - 1) == Place(s, |s| - 1)
  {
    PlaceFront(s, t, |s| - 1);
  }

  lemma RunBehind(s: seq<int>, c: int, n: nat)
    ensures Begins(s, s + Rep(c, n), |s|) && AllAt(s + Rep(c, n), |s|, n, c) && |s + Rep(c, n)| == |s| + n
    ensures n > 0 ==> (s + Rep(c, n))[|s| + n - 1] == c
  { }

  /** Runs as long as they can be: their code has this length. */
  lemma {:induction false} RunsSize(runs: seq<Run>)
    requires ValidRuns(runs)
    ensures |Encode(runs)| == CodeSize(Expand(runs), |Expand(runs)|)
    ensures runs != [] ==> |Expand(runs)| > 0 && Expand(runs)[|Expand(runs)| - 1] == runs[|runs| - 1].ch
    ensures runs != [] ==> Place(Expand(runs), |Expand(runs)| - 1) == runs[|runs| - 1].len - 1
    decreases |runs|
  {
    hide Place, CodeSize, ValidRuns, EncodeRun, Rep;
    if runs == [] {
      NoRuns();
    } else {
      var front, r := runs[..|runs| - 1], runs[|runs| - 1];
      assert runs == front + [r];
      ValidFront(runs);
      RunsSize(front);
      EncodeAppend(front, r);
      ExpandAppend(front, r);
      hide Encode, Expand;
      if front == [] { NoRuns(); }
      OneMoreRun(Expand(front), Expand(runs), r);
    }
  }

  lemma NoRuns()
    ensures Encode([]) == [] && Expand([]) == [] && CodeSize([], 0) == 0
  { }

  lemma ValidFront(runs: seq<Run>)
    requires ValidRuns(runs) && runs != []
    ensures ValidRuns(runs[..|runs| - 1]) && 1 <= runs[|runs| - 1].len <= 255
    ensures |runs| > 1 ==> runs[|runs| - 2].ch != runs[|runs| - 1].ch || runs[|runs| - 2].len == 255
  { }

  lemma CodedSize(r: Run)
    requires 1 <= r.len <= 255
    ensures |EncodeRun(r)| == if r.len < 4 then r.len else 5
  { }

  /** A block sent is as long as the code of its bytes. */
  lemma BlockLength(s: Sent)
    requires Encoded(s)
    ensures |s.block| == CodeSize(PlainOf(s), |PlainOf(s)|)
  {
    hide ValidRuns, Encode, Expand, CodesWithin, PlainOf;
    var runs :| ValidRuns(runs) && s.block == Encode(runs) && PlainOf(s) == Expand(runs);
    RunsSize(runs);
  }

  /** Bytes whose code is shorter than a full block are in one block, if no flush cut it short. */
  lemma OneBlock(s: Compressor)
    requires s.Valid() && FullBlocks(100000 * s.blockSize100k - 19, [], false, s.done, s.ended)
    requires CodeSize(s.fed, |s.fed|) < 100000 * s.blockSize100k - 19
    ensures |s.done| <= 1
  {
    hide Compressor.Valid, Plain, GoodBlocks, PlainOf, Encoded;
    Parts(s);
    if |s.done| > 1 {
      var p := PlainOf(s.done[0]);
      FirstPlain(s.done);
      BzDecompress.PlainPrefix(s.done, 1, |s.done|);
      assert Encoded(s.done[0]);
      BlockLength(s.done[0]);
      SizeFront(p, s.fed, |p|);
      SizeGrows(s.fed, |p|, |s.fed|);
    }
  }

  lemma FirstPlain(bl: seq<Sent>)
    requires bl != []
    ensures Plain(bl, 1) == PlainOf(bl[0])
  {
    hide PlainOf;
    assert Plain(bl, 0) == [];
    assert [] + PlainOf(bl[0]) == PlainOf(bl[0]);
  }
}
