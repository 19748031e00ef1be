/** The initial run-length code: what add_pair_to_block writes for a run (bzlib.c) and what the
    output stage reads back. */
module RunLength {
  import opened Rotations

  /** A run of `len` copies of `ch`: state_in_ch and state_in_len. */
  datatype Run = Run(ch: byte, len: nat)

  ghost function Rep(c: int, n: nat): (r: seq<int>)
    ensures |r| == n && forall k :: 0 <= k < n ==> r[k] == c
  {
    seq(n, k => c)
  }

  /** Up to three copies as they are; from four on, four copies and the number of further ones. */
  ghost function EncodeRun(r: Run): (s: seq<int>)
    ensures 1 <= r.len ==> |s| > 0 && s[0] == r.ch
    ensures |s| <= 5
  {
    if r.len < 4 then Rep(r.ch, r.len) else [r.ch, r.ch, r.ch, r.ch, r.len - 4]
  }

  /** Runs the encoder can put next to each other: a run ends at 255 or where the byte changes. */
  ghost predicate ValidRuns(runs: seq<Run>) {
    && (forall k :: 0 <= k < |runs| ==> 1 <= runs[k].len <= 255)
    && (forall k :: 0 < k < |runs| ==> runs[k - 1].ch != runs[k].ch || runs[k - 1].len == 255)
  }

  ghost function Encode(runs: seq<Run>): seq<int> {
    if runs == [] then [] else EncodeRun(runs[0]) + Encode(runs[1..])
  }

  /** The bytes a list of runs stands for. */
  ghost function Expand(runs: seq<Run>): seq<int> {
    if runs == [] then [] else Rep(runs[0].ch, runs[0].len) + Expand(runs[1..])
  }

  lemma {:induction false} EncodeAppend(runs: seq<Run>, r: Run)
    ensures Encode(runs + [r]) == Encode(runs) + EncodeRun(r)
  {
    hide EncodeRun;
    if runs == [] {
      assert runs + [r] == [r];
      assert [r][1..] == [];
    } else {
      EncodeAppend(runs[1..], r);
      assert (runs + [r])[1..] == runs[1..] + [r];
    }
  }

  lemma {:induction false} ExpandAppend(runs: seq<Run>, r: Run)
    ensures Expand(runs + [r]) == Expand(runs) + Rep(r.ch, r.len)
  {
    hide Rep;
    if runs == [] {
      assert runs + [r] == [r];
      assert [r][1..] == [];
    } else {
      ExpandAppend(runs[1..], r);
      assert (runs + [r])[1..] == runs[1..] + [r];
    }
  }

  lemma {:induction false} EncodeBytes(runs: seq<Run>)
    requires ValidRuns(runs)
    ensures forall k :: 0 <= k < |Encode(runs)| ==> 0 <= Encode(runs)[k] < 256
  {
    if runs != [] {
      EncodeBytes(runs[1..]);
    }
  }

  ghost predicate FourEqual(b: seq<int>, u: nat) {
    u + 3 < |b| && b[u] == b[u + 1] == b[u + 2] == b[u + 3]
  }

  /** Every group of four equal bytes, read from `u` on, is followed by its count. */
  ghost predicate WellFormed(b: seq<int>, u: nat)
    decreases |b| - u
  {
    if u >= |b| then true
    else if FourEqual(b, u) then u + 4 < |b| && 0 <= b[u + 4] < 256 && WellFormed(b, u + 5)
    else WellFormed(b, u + 1)
  }

  /** The bytes that `b`, read from `u` on, stands for. */
  ghost function UnRle(b: seq<int>, u: nat): seq<int>
    requires WellFormed(b, u)
    decreases |b| - u
  {
    if u >= |b| then []
    else if FourEqual(b, u) then Rep(b[u], b[u + 4] + 4) + UnRle(b, u + 5)
    else [b[u]] + UnRle(b, u + 1)
  }

  lemma TakeOne(b: seq<int>, u: nat)
    requires u < |b| && !FourEqual(b, u) && WellFormed(b, u + 1)
    ensures WellFormed(b, u)
    ensures UnRle(b, u) == [b[u]] + UnRle(b, u + 1)
  {
  }

  /** Fewer than four equal bytes come out as they are. */
  lemma {:induction false} DecodeCopies(b: seq<int>, u: nat, c: int, n: nat)
    requires n < 4 && u + n <= |b| && WellFormed(b, u + n)
    requires forall k :: u <= k < u + n ==> b[k] == c
    requires u + n < |b| ==> b[u + n] != c
    ensures WellFormed(b, u)
    ensures UnRle(b, u) == Rep(c, n) + UnRle(b, u + n)
    decreases n
  {
    hide WellFormed, UnRle;
    if n == 0 {
      assert Rep(c, 0) == [];
    } else {
      DecodeCopies(b, u + 1, c, n - 1);
      var rest := UnRle(b, u + n);
      assert !FourEqual(b, u) by {
        assert u + n < |b| ==> b[u + n] != b[u];
      }
      TakeOne(b, u);
      assert [c] + (Rep(c, n - 1) + rest) == Rep(c, n) + rest;
    }
  }

  /** Four equal bytes and a count. */
  lemma TakeFive(b: seq<int>, u: nat)
    requires FourEqual(b, u) && u + 4 < |b| && 0 <= b[u + 4] < 256 && WellFormed(b, u + 5)
    ensures WellFormed(b, u)
    ensures UnRle(b, u) == Rep(b[u], b[u + 4] + 4) + UnRle(b, u + 5)
  {
    hide Rep;
  }

  /** What lies at `u`, read off a piece of the block. */
  lemma PieceAt(b: seq<int>, u: nat, e: seq<int>)
    requires u + |e| <= |b| && b[u..u + |e|] == e
    ensures forall k :: 0 <= k < |e| ==> b[u + k] == e[k]
  {
    forall k | 0 <= k < |e|
      ensures b[u + k] == e[k]
    {
      assert b[u..u + |e|][k] == b[u + k];
    }
  }

  /** One run read from `u` on, given that it lies there. */
  lemma DecodeRun(b: seq<int>, u: nat, r: Run)
    requires 1 <= r.len <= 255 && u + |EncodeRun(r)| <= |b|
    requires b[u..u + |EncodeRun(r)|] == EncodeRun(r)
    requires r.len < 4 && u + r.len < |b| ==> b[u + r.len] != r.ch
    requires WellFormed(b, u + |EncodeRun(r)|)
    ensures WellFormed(b, u)
    ensures UnRle(b, u) == Rep(r.ch, r.len) + UnRle(b, u + |EncodeRun(r)|)
  {
    hide WellFormed, UnRle;
    var e := EncodeRun(r);
    PieceAt(b, u, e);
    if r.len < 4 {
      forall k | u <= k < u + r.len
        ensures b[k] == r.ch
      {
        assert b[u + (k - u)] == e[k - u];
      }
      DecodeCopies(b, u, r.ch, r.len);
    } else {
      hide Rep;
      assert b[u + 0] == b[u + 1] == b[u + 2] == b[u + 3] == r.ch && b[u + 4] == r.len - 4;
      TakeFive(b, u);
    }
  }

  lemma Middle(pre: seq<int>, e: seq<int>, post: seq<int>)
    ensures (pre + e + post)[|pre|..|pre| + |e|] == e
    ensures post != [] ==> (pre + e + post)[|pre| + |e|] == post[0]
  {
  }

  lemma EncodeHead(runs: seq<Run>)
    requires ValidRuns(runs) && runs != []
    ensures Encode(runs) != [] && Encode(runs)[0] == runs[0].ch
  {
    assert EncodeRun(runs[0]) != [];
  }

  lemma DecodeEnd(b: seq<int>)
    ensures WellFormed(b, |b|) && UnRle(b, |b|) == []
  {
  }

  /** A count follows four equal bytes. */
  lemma CountFollows(b: seq<int>, u: nat)
    requires WellFormed(b, u) && FourEqual(b, u)
    ensures u + 4 < |b| && 0 <= b[u + 4] < 256
  {
  }

  /** Decoding the first run of `[r] + rest` where it lies in `b`. */
  lemma DecodeStep(pre: seq<int>, r: Run, rest: seq<Run>, b: seq<int>)
    requires 1 <= r.len <= 255 && ValidRuns(rest)
    requires rest != [] && r.len < 4 ==> rest[0].ch != r.ch
    requires b == pre + EncodeRun(r) + Encode(rest)
    requires WellFormed(b, |pre + EncodeRun(r)|)
    ensures WellFormed(b, |pre|)
    ensures UnRle(b, |pre|) == Rep(r.ch, r.len) + UnRle(b, |pre + EncodeRun(r)|)
  {
    hide WellFormed, UnRle, Rep, Encode;
    Middle(pre, EncodeRun(r), Encode(rest));
    if rest == [] {
      EncodeNothing();
    } else {
      EncodeHead(rest);
    }
    DecodeRun(b, |pre|, r);
  }

  lemma EncodeNothing()
    ensures Encode([]) == []
  {
  }

  lemma {:induction false} DecodeRuns(pre: seq<int>, runs: seq<Run>, b: seq<int>)
    requires ValidRuns(runs) && b == pre + Encode(runs)
    ensures WellFormed(b, |pre|)
    ensures UnRle(b, |pre|) == Expand(runs)
    decreases |runs|
  {
    hide WellFormed, UnRle, EncodeRun, Rep;
    if runs == [] {
      DecodeEnd(b);
    } else {
      var r, rest := runs[0], runs[1..];
      assert rest != [] ==> rest[0] == runs[1];
      assert b == pre + EncodeRun(r) + Encode(rest);
      DecodeRuns(pre + EncodeRun(r), rest, b);
      DecodeStep(pre, r, rest, b);
    }
  }

  /** Round trip: a block of runs is well formed and reads back as the bytes it stands for. */
  lemma UnRleInvertsEncode(runs: seq<Run>)
    requires ValidRuns(runs)
    ensures WellFormed(Encode(runs), 0)
    ensures UnRle(Encode(runs), 0) == Expand(runs)
  {
    assert [] + Encode(runs) == Encode(runs);
    DecodeRuns([], runs, Encode(runs));
  }
}
