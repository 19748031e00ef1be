/** The input half of the compressor (bzlib.c): runs of up to 255 equal bytes are collected and written to
    the block, with the block's check value and the set of byte values it uses kept up to date. */
module BlockBuffer {
  import opened Rotations
  import opened RunLength
  import opened BlockCheck

  /** No run has been started: state_in_ch. */
  const NO_CHAR := 256

  /** The run in progress can follow the runs of the block. */
  ghost predicate Joins(runs: seq<Run>, ch: int, len: nat) {
    && 0 <= ch <= NO_CHAR
    && (ch == NO_CHAR ==> len == 0)
    && (ch < NO_CHAR ==> 1 <= len <= 255)
    && (ch < NO_CHAR && runs != [] ==> runs[|runs| - 1].ch != ch || runs[|runs| - 1].len == 255)
  }

  lemma JoinedRuns(runs: seq<Run>, ch: byte, len: nat)
    requires ValidRuns(runs) && Joins(runs, ch, len)
    ensures ValidRuns(runs + [Run(ch, len)])
  {
  }

  /** `inUse` marks exactly the values in the block. */
  ghost predicate Marks(inUse: seq<bool>, s: seq<int>) {
    |inUse| == 256 && forall c :: 0 <= c < 256 ==> (inUse[c] <==> c in s)
  }

  lemma MarksRun(inUse: seq<bool>, s: seq<int>, r: Run)
    requires Marks(inUse, s) && 1 <= r.len <= 255
    ensures r.len < 4 ==> Marks(inUse[r.ch := true], s + EncodeRun(r))
    ensures r.len >= 4 ==> Marks(inUse[r.ch := true][r.len - 4 := true], s + EncodeRun(r))
  {
    var e := EncodeRun(r);
    assert e[0] == r.ch;
    if r.len >= 4 {
      assert e[4] == r.len - 4;
    }
    forall c | c in e
      ensures c == r.ch || (r.len >= 4 && c == r.len - 4)
    {
    }
  }

  lemma CrcMore(table: seq<u32>, s: seq<byte>, c: byte)
    requires |table| == 256
    ensures CrcOf(table, CRC_INIT, s + [c]) == UpdateCrc(table, CrcOf(table, CRC_INIT, s), c)
  {
    hide UpdateCrc;
    assert (s + [c])[..|s|] == s;
  }

  ghost function Copies(c: byte, n: nat): (r: seq<byte>)
    ensures r == Rep(c, n)
  {
    seq(n, k => c)
  }

  class Buffer {
    const block: array<byte>
    const inUse: array<bool>
    const crcTable: seq<u32>
    var nblock: nat
    var stateInCh: int
    var stateInLen: nat
    var blockCRC: u32
    /** The runs of the block, and the bytes they stand for. */
    ghost var runs: seq<Run>
    ghost var plain: seq<byte>

    constructor (size: nat, crcTable: seq<u32>)
      requires |crcTable| == 256
      ensures Shape() && block.Length == size && this.crcTable == crcTable && fresh(block) && fresh(inUse)
      ensures stateInCh == NO_CHAR && stateInLen == 0
    {
      block, inUse, this.crcTable := new byte[size](_ => 0), new bool[256](_ => false), crcTable;
      nblock, stateInCh, stateInLen, blockCRC, runs, plain := 0, NO_CHAR, 0, 0, [], [];
    }

    ghost predicate Shape() {
      inUse.Length == 256 && |crcTable| == 256
    }

    ghost predicate Valid()
      reads this, block, inUse
    {
      && Shape() && nblock <= block.Length && ValidRuns(runs) && Joins(runs, stateInCh, stateInLen)
      && block[..nblock] == Encode(runs) && plain == Expand(runs)
      && Marks(inUse[..], Encode(runs)) && blockCRC == CrcOf(crcTable, CRC_INIT, plain)
    }

    /** The run in progress. */
    ghost function Pending(): seq<byte>
      reads `stateInCh, `stateInLen
    {
      if 0 <= stateInCh < NO_CHAR then Copies(stateInCh, stateInLen) else []
    }

    /** prepare_new_block: the run in progress stays. */
    method Prepare()
      requires Shape() && Joins([], stateInCh, stateInLen)
      modifies `nblock, `blockCRC, `runs, `plain, inUse
      ensures Valid() && nblock == 0 && runs == [] && plain == []
    {
      nblock, blockCRC, runs, plain := 0, CRC_INIT, [], [];
      ClearMarks();
      assert block[..0] == [];
    }

    method ClearMarks()
      requires inUse.Length == 256
      modifies inUse
      ensures Marks(inUse[..], [])
    {
      for i := 0 to 256
        invariant forall c :: 0 <= c < i ==> !inUse[c]
      {
        inUse[i] := false;
      }
    }

    /** `block[nblock] = c; nblock++`. */
    method Put(c: byte)
      requires nblock < block.Length
      modifies block, `nblock
      ensures nblock == old(nblock) + 1 && block[..nblock] == old(block[..nblock]) + [c]
    {
      block[nblock] := c;
      nblock := nblock + 1;
    }

    /** What a run looks like in the block. */
    method PutRun(ch: byte, len: nat)
      requires 1 <= len <= 255 && nblock + 5 <= block.Length
      modifies block, `nblock
      ensures nblock <= old(nblock) + 5 <= block.Length &&
          block[..nblock] == old(block[..nblock]) + EncodeRun(Run(ch, len))
    {
      match len {
        case 1 =>
          Put(ch);
        case 2 =>
          Put(ch);
          Put(ch);
        case 3 =>
          Put(ch);
          Put(ch);
          Put(ch);
        case _ =>
          Put(ch);
          Put(ch);
          Put(ch);
          Put(ch);
          Put(len - 4);
      }
    }

    /** BZ_UPDATE_CRC for every byte of the run. */
    method UpdateRun(ch: byte, len: nat)
      requires |crcTable| == 256 && blockCRC == CrcOf(crcTable, CRC_INIT, plain)
      modifies `blockCRC, `plain
      ensures plain == old(plain) + Copies(ch, len) && blockCRC == CrcOf(crcTable, CRC_INIT, plain)
    {
      hide CrcOf, UpdateCrc;
      assert plain + Copies(ch, 0) == plain;
      for i := 0 to len
        invariant plain == old(plain) + Copies(ch, i) && blockCRC == CrcOf(crcTable, CRC_INIT, plain)
      {
        CrcMore(crcTable, plain, ch);
        blockCRC := UpdateCrc(crcTable, blockCRC, ch);
        plain := plain + [ch];
        assert Copies(ch, i) + [ch] == Copies(ch, i + 1);
      }
    }

    /** add_pair_to_block. */
    method AddPair()
      requires Valid() && stateInCh < NO_CHAR && nblock + 5 <= block.Length
      modifies block, inUse, `nblock, `blockCRC, `runs, `plain
      ensures runs == old(runs) + [Run(stateInCh, stateInLen)] && plain == old(plain) + Pending()
      ensures Shape() && nblock <= old(nblock) + 5 <= block.Length && ValidRuns(runs)
      ensures block[..nblock] == Encode(runs) && plain == Expand(runs)
      ensures Marks(inUse[..], Encode(runs)) && blockCRC == CrcOf(crcTable, CRC_INIT, plain)
    {
      hide ValidRuns, Encode, Expand, Marks, CrcOf;
      ghost var r := Run(stateInCh, stateInLen);
      JoinedRuns(runs, stateInCh, stateInLen);
      EncodeAppend(runs, r);
      ExpandAppend(runs, r);
      MarksRun(inUse[..], Encode(runs), r);
      UpdateRun(stateInCh, stateInLen);
      MarkRun(stateInCh, stateInLen);
      PutRun(stateInCh, stateInLen);
      runs := runs + [r];
    }

    method MarkRun(ch: byte, len: nat)
      requires inUse.Length == 256 && 1 <= len <= 255
      modifies inUse
      ensures len < 4 ==> inUse[..] == old(inUse[..])[ch := true]
      ensures len >= 4 ==> inUse[..] == old(inUse[..])[ch := true][len - 4 := true]
    {
      inUse[ch] := true;
      if len >= 4 { inUse[len - 4] := true; }
    }

    /** flush_RL: the run in progress goes into the block. */
    method Flush()
      requires Valid() && nblock + 5 <= block.Length
      modifies this, block, inUse
      ensures Valid() && stateInCh == NO_CHAR && nblock <= old(nblock) + 5
      ensures plain == old(plain + Pending())
    {
      if stateInCh < 256 {
        AddPair();
      }
      stateInCh, stateInLen := NO_CHAR, 0;
    }

    /** ADD_CHAR_TO_BLOCK. */
    method AddChar(zchh: byte)
      requires Valid() && nblock + 5 <= block.Length && (stateInCh == NO_CHAR ==> runs == [])
      modifies this, block, inUse
      ensures Valid() && nblock <= old(nblock) + 5
      ensures plain + Pending() == old(plain + Pending()) + [zchh] && stateInCh < NO_CHAR
    {
      hide ValidRuns, Encode, Expand, Marks, CrcOf;
      if zchh != stateInCh && stateInLen == 1 {
        AddSingle();
        stateInCh := zchh;
      } else if zchh != stateInCh || stateInLen == 255 {
        if stateInCh < 256 {
          AddPair();
        }
        stateInCh, stateInLen := zchh, 1;
        assert Copies(zchh, 1) == [zchh];
      } else {
        stateInLen := stateInLen + 1;
      }
    }

    /** The fast track for a run of one. */
    method AddSingle()
      requires Valid() && stateInCh < NO_CHAR && stateInLen == 1 && nblock + 5 <= block.Length
      modifies block, inUse, `nblock, `blockCRC, `runs, `plain
      ensures runs == old(runs) + [Run(stateInCh, 1)] && plain == old(plain) + [stateInCh]
      ensures Shape() && nblock <= old(nblock) + 5 <= block.Length && ValidRuns(runs)
      ensures block[..nblock] == Encode(runs) && plain == Expand(runs)
      ensures Marks(inUse[..], Encode(runs)) && blockCRC == CrcOf(crcTable, CRC_INIT, plain)
    {
      hide ValidRuns, Encode, Expand, Marks, CrcOf, UpdateCrc;
      var ch: byte := stateInCh;
      ghost var r := Run(ch, 1);
      JoinedRuns(runs, ch, 1);
      EncodeAppend(runs, r);
      ExpandAppend(runs, r);
      MarksRun(inUse[..], Encode(runs), r);
      CrcMore(crcTable, plain, ch);
      blockCRC := UpdateCrc(crcTable, blockCRC, ch);
      plain := plain + [ch];
      MarkRun(ch, 1);
      Put(ch);
      runs := runs + [r];
    }
  }
}
