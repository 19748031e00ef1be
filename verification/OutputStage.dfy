/** The decoder's output stage (bzlib.c): unRLE_obuf_to_output_FAST and _SMALL, non-randomised
    branches. Each reads the inverse transform one byte at a time, expands runs into the caller's
    buffer and can stop at any byte when the buffer is full. */
module OutputStage {
  import opened Rotations
  import opened Permutations
  import opened Bwt
  import opened InverseBwt
  import opened BlockCheck
  import opened RunLength

  /** The output half of bz_stream: room left, and everything written so far. */
  class OutStream {
    var availOut: nat
    var written: seq<byte>

    constructor (room: nat)
      ensures availOut == room && written == []
    {
      availOut := room;
      written := [];
    }

    /** `*next_out++ = ch; avail_out--`. */
    method Put(ch: byte)
      requires availOut > 0
      modifies this
      ensures written == old(written) + [ch] && availOut == old(availOut) - 1
    {
      written := written + [ch];
      availOut := availOut - 1;
    }
  }

  // ----- The byte source both forms read -----

  lemma {:induction false} FollowInRange(links: seq<int>, k: nat, h: nat)
    requires IsPerm(links, |links|) && k < |links|
    ensures 0 <= Follow(links, k, h) < |links|
    ensures Follow(links, k, h + 1) == links[Follow(links, k, h)]
    decreases h
  {
    if h != 0 {
      FollowInRange(links, links[k], h - 1);
    }
  }

  lemma {:induction false} WalkAt(l: seq<int>, links: seq<int>, k: nat, h: nat, t: nat)
    requires IsPerm(links, |l|) && k < |l| && t < h
    ensures 0 <= Follow(links, k, t + 1) < |l|
    ensures Walk(l, links, k, h)[t] == l[Follow(links, k, t + 1)]
    decreases t
  {
    FollowInRange(links, k, t + 1);
    if t == 0 {
      assert Follow(links, links[k], 0) == links[k];
    } else {
      WalkAt(l, links, links[k], h - 1, t - 1);
    }
  }

  /** What the output stage knows about its block: the last column, the links, the row of the
      original and the run-length-coded block that the walk from there spells. */
  datatype Source = Source(l: seq<int>, links: seq<int>, origPtr: nat, blk: seq<int>)

  ghost predicate ValidSource(s: Source) {
    && |s.l| <= 900000
    && (forall x :: 0 <= x < |s.l| ==> 0 <= s.l[x] < 256)
    && IsLinks(s.l, s.links) && IsPerm(s.links, |s.l|) && s.origPtr < |s.l|
    && s.blk == Walk(s.l, s.links, s.origPtr, |s.l|)
    && WellFormed(s.blk, 0)
  }

  // ----- One run -----

  /** How many bytes the next run has and where the run after it starts, read from position `u`
      of the block (one byte past the end may be looked at, but does not count). */
  ghost function NextRun(b: seq<int>, u: nat): (r: (nat, nat))
    requires u < |b| && WellFormed(b, u)
  {
    if u + 1 == |b| || b[u + 1] != b[u] then (1, u + 1)
    else if u + 2 == |b| || b[u + 2] != b[u] then (2, u + 2)
    else if u + 3 == |b| || b[u + 3] != b[u] then (3, u + 3)
    else (b[u + 4] + 4, u + 5)
  }

  lemma {:induction false} CopiesWellFormed(b: seq<int>, u: nat, n: nat)
    requires u + n <= |b| && WellFormed(b, u) && n < 4
    requires forall k :: u <= k < u + n ==> b[k] == b[u]
    requires n > 0 ==> u + n == |b| || b[u + n] != b[u]
    ensures WellFormed(b, u + n)
    decreases n
  {
    if n > 0 {
      assert !FourEqual(b, u);
      CopiesWellFormed(b, u + 1, n - 1);
    }
  }

  lemma NextRunExpands(b: seq<int>, u: nat)
    requires u < |b| && WellFormed(b, u)
    ensures var (len, v) := NextRun(b, u);
            && u < v <= |b| && 1 <= len <= 259 && WellFormed(b, v)
            && UnRle(b, u) == Rep(b[u], len) + UnRle(b, v)
  {
    var (len, v) := NextRun(b, u);
    if len <= 3 {
      CopiesWellFormed(b, u, len);
      DecodeCopies(b, u, b[u], len);
    }
  }

  /** The state shared by both forms: DState's state_out_ch, state_out_len, nblock_used, k0, tPos
      and the running block CRC. */
  datatype OutState = OutState(ch: byte, len: nat, used: nat, k0: byte, tPos: nat, crc: u32)

  /** After `used` bytes `tPos` is at row `used` of the walk, and FAST is one link ahead of SMALL. */
  ghost predicate InStep(s: Source, small: bool, used: nat, tPos: nat) {
    tPos == Follow(s.links, s.origPtr, if small then used else used + 1)
  }

  ghost predicate ValidState(s: Source, small: bool, o: OutState)
    requires ValidSource(s)
  {
    && 1 <= o.used <= |s.l| + 1
    && InStep(s, small, o.used, o.tPos)
    && (o.used <= |s.l| ==> o.k0 == s.blk[o.used - 1])
    && WellFormed(s.blk, o.used - 1)
  }

  /** Everything still to be written. */
  ghost function Pending(s: Source, o: OutState): seq<int>
    requires 1 <= o.used && WellFormed(s.blk, o.used - 1)
  {
    Rep(o.ch, o.len) + UnRle(s.blk, o.used - 1)
  }

  lemma SomePending(s: Source, o: OutState)
    requires 1 <= o.used <= |s.blk| + 1 && WellFormed(s.blk, o.used - 1) && !Finished(|s.blk|, o)
    ensures Pending(s, o) != []
  {
    hide UnRle, WellFormed;
    if o.used <= |s.blk| {
      NextRunExpands(s.blk, o.used - 1);
    }
  }

  /** The whole block is out: the test BZ2_bzDecompress makes before checking the CRC. */
  predicate Finished(saveNblock: nat, o: OutState) {
    o.used == saveNblock + 1 && o.len == 0
  }

  /** The link vector of a column exists and is unique. */
  ghost function LinksOf(l: seq<int>): (links: seq<int>)
    ensures IsLinks(l, links) && IsPerm(links, |l|)
  {
    var links := seq(|l|, k requires 0 <= k < |l| => IndexOf(Slots(l), |l|, k));
    assert IsLinks(l, links) by {
      forall x | 0 <= x < |l|
        ensures Slot(l, x) < |l| && links[Slot(l, x)] == x
      {
        assert Slots(l)[x] == Slot(l, x);
      }
    }
    LinksArePerm(l, links);
    links
  }

  lemma FollowZero(links: seq<int>, k: int)
    ensures Follow(links, k, 0) == k
  {
  }

  /** The source of an encoder's block: its last column, the links of that, and the block itself. */
  ghost function SourceOf(b: seq<int>, p: seq<int>, origPtr: nat): (s: Source)
    requires |b| <= 900000 && SortedRotations(b, p) && origPtr < |b| && p[origPtr] == 0
    requires (forall x :: 0 <= x < |b| ==> 0 <= b[x] < 256) && WellFormed(b, 0)
    ensures ValidSource(s) && s.l == LastColumn(b, p) && s.blk == b && s.origPtr == origPtr
    ensures IsLinks(s.l, s.links) && |s.l| == |b|
    ensures forall x :: 0 <= x < |b| ==> 0 <= s.l[x] < 256
  {
    var l := LastColumn(b, p);
    var links := LinksOf(l);
    WalkInvertsTransform(b, p, links, origPtr);
    Source(l, links, origPtr, b)
  }

  lemma LinksUnique(l: seq<int>, links: seq<int>, other: seq<int>)
    requires IsLinks(l, links) && IsLinks(l, other)
    ensures links == other
  {
    LinksArePerm(l, links);
    forall k | 0 <= k < |l|
      ensures links[k] == other[k]
    {
      assert other[Slot(l, links[k])] == links[k];
    }
  }

  // ----- Reading one byte -----

  /** BZ_GET_FAST: the byte and the next row, or the corruption exit. */
  method GetFast(tt: array<u32>, tPos: nat, blockSize100k: nat) returns (ok: bool, c: byte, next: nat)
    requires 100000 * blockSize100k <= tt.Length
    ensures ok <==> tPos < 100000 * blockSize100k
    ensures ok ==> c == LowByte(tt[tPos]) && next == Link(tt[tPos])
  {
    if tPos >= 100000 * blockSize100k {
      return false, 0, tPos;
    }
    return true, LowByte(tt[tPos]), Link(tt[tPos]);
  }

  /** The t-th byte of the block is at the t-th row of the FAST table. */
  lemma FastRow(tt: seq<u32>, s: Source, t: nat)
    requires ValidSource(s) && |s.l| <= |tt|
    requires IsFastTable(tt[..|s.l|], s.l) && Links(tt[..|s.l|]) == s.links
    ensures var k := Follow(s.links, s.origPtr, t + 1);
            && 0 <= k < |s.l| && Link(tt[k]) == Follow(s.links, s.origPtr, t + 2)
            && (t < |s.l| ==> LowByte(tt[k]) == s.blk[t])
  {
    FollowInRange(s.links, s.origPtr, t + 1);
    var k := Follow(s.links, s.origPtr, t + 1);
    assert Links(tt[..|s.l|])[k] == Link(tt[k]);
    assert LowByte(tt[..|s.l|][k]) == s.l[k];
    if t < |s.l| {
      WalkAt(s.l, s.links, s.origPtr, |s.l|, t);
    }
  }

  /** A turned-round SMALL table: `cycle` is the cycle of the slots through the first row, and
      every entry on it holds its predecessor. */
  ghost predicate IsSmallTable(entries: seq<int>, s: Source, cycle: seq<int>)
    requires ValidSource(s)
  {
    && |entries| == |s.l|
    && Cycle(cycle, Slots(s.l), s.origPtr)
    && forall i :: 0 <= i < |cycle| ==> entries[cycle[i]] == cycle[Prev(|cycle|, i)]
  }

  /** The t-th byte of the block is the first-column byte of the t-th SMALL row. */
  lemma SmallRow(entries: seq<int>, s: Source, cycle: seq<int>, t: nat, c: int)
    requires ValidSource(s) && IsSmallTable(entries, s, cycle)
    ensures var k := Follow(s.links, s.origPtr, t);
            && 0 <= k < |s.l| && entries[k] == Follow(s.links, s.origPtr, t + 1)
            && (t < |s.l| && IsFirstByte(s.l, k, c) ==> c == s.blk[t])
  {
    FollowInRange(s.links, s.origPtr, t);
    assert cycle[0] == s.origPtr;
    SmallFollowsLinks(s.l, s.links, entries, cycle, s.origPtr, s.origPtr, t);
    var k := Follow(s.links, s.origPtr, t);
    CycleEntriesAreLinks(s.l, s.links, entries, cycle, s.origPtr, k);
    FirstByteIsLinkedByte(s.l, s.links, k, c);
    if t < |s.l| {
      WalkAt(s.l, s.links, s.origPtr, |s.l|, t);
    }
  }

  /** The part of the decompressor state the output stage uses. */
  class DState {
    const smallDecompress: bool
    const blockSize100k: nat
    const tt: array<u32>
    const ll: SmallTable
    const cftab: array<int>
    const crcTable: seq<u32>
    var saveNblock: nat
    var stateOutCh: byte
    var stateOutLen: nat
    var nblockUsed: nat
    var k0: byte
    var tPos: nat
    var calculatedBlockCRC: u32
    ghost var src: Source
    ghost var cycle: seq<int>
    /** What was written before this block, and what this block has delivered so far. */
    ghost var base: seq<byte>
    ghost var delivered: seq<byte>

    /** decompress.c:219-230: the buffers for one stream. */
    constructor (small: bool, blockSize100k: nat, crcTable: seq<u32>)
      requires 1 <= blockSize100k <= 9 && |crcTable| == 256
      ensures Shape() && smallDecompress == small && this.blockSize100k == blockSize100k
      ensures this.crcTable == crcTable
      ensures fresh(tt) && fresh(ll) && fresh(ll.ll16) && fresh(ll.ll4) && fresh(cftab)
    {
      smallDecompress, this.blockSize100k, this.crcTable := small, blockSize100k, crcTable;
      tt := new u32[if small then 0 else 100000 * blockSize100k](_ => 0);
      ll := new SmallTable(if small then 100000 * blockSize100k else 0);
      cftab := new int[257](_ => 0);
      saveNblock, stateOutCh, stateOutLen, nblockUsed, k0, tPos, calculatedBlockCRC := 0, 0, 0, 0, 0, 0, 0;
    }

    /** Sizes and separation of the buffers. */
    ghost predicate Shape() {
      && |crcTable| == 256 && cftab.Length == 257 && 1 <= blockSize100k <= 9
      && (if smallDecompress then ll.Valid() && ll.ll16.Length == 100000 * blockSize100k
          else tt.Length == 100000 * blockSize100k)
      && cftab != tt as object && cftab != ll.ll16 as object && cftab != ll.ll4 as object
      && ll.ll16 as object != ll.ll4 && tt as object != ll.ll16 && tt as object != ll.ll4
    }

    /** The table of the current block: it does not change while the block is written out. */
    ghost predicate Table()
      reads `src, `cycle, `saveNblock, tt, ll.ll16, ll.ll4, cftab
    {
      && Shape() && ValidSource(src) && |src.l| == saveNblock <= 100000 * blockSize100k
      && (if smallDecompress then
            IsCumulative(cftab[..], src.l) && IsSmallTable(ll.Entries(saveNblock), src, cycle)
          else
            IsFastTable(tt[..saveNblock], src.l) && Links(tt[..saveNblock]) == src.links)
    }

    ghost predicate Valid()
      reads this, tt, ll.ll16, ll.ll4, cftab
    {
      Table() && ValidState(src, smallDecompress, State())
      && UnRle(src.blk, 0) == delivered + Pending(src, State())
    }

    function State(): OutState
      reads this
    {
      OutState(stateOutCh, stateOutLen, nblockUsed, k0, tPos, calculatedBlockCRC)
    }

    /** BZ_GET_SMALL: the byte and the next row, or the corruption exit. */
    method GetSmall() returns (ok: bool, c: byte, next: nat)
      requires smallDecompress && Table() && tPos < saveNblock
      ensures ok && IsFirstByte(src.l, tPos, c) && next == ll.Get(tPos)
    {
      ok := tPos < 100000 * blockSize100k;
      c := IndexIntoF(tPos, cftab, src.l);
      next := ll.Get(tPos);
    }

    /** BZ_GET_FAST or BZ_GET_SMALL, and `nblock_used++`: the byte at position nblock_used of the
        block, or some byte past its end. */
    method Fetch() returns (corrupt: bool, c: byte)
      requires Table() && InStep(src, smallDecompress, nblockUsed, tPos)
      modifies `nblockUsed, `tPos
      ensures !corrupt && InStep(src, smallDecompress, nblockUsed, tPos)
      ensures nblockUsed == old(nblockUsed) + 1
      ensures old(nblockUsed) < saveNblock ==> c == src.blk[old(nblockUsed)]
    {
      hide WellFormed, Slots, Cycle, Links, IsFirstByte;
      var ok, next;
      if smallDecompress {
        SmallRow(ll.Entries(saveNblock), src, cycle, nblockUsed, 0);
        ok, c, next := GetSmall();
        SmallRow(ll.Entries(saveNblock), src, cycle, nblockUsed, c);
      } else {
        FastRow(tt[..], src, nblockUsed);
        ok, c, next := GetFast(tt, tPos, blockSize100k);
      }
      if !ok { return true, c; }
      tPos := next;
      nblockUsed := nblockUsed + 1;
      return false, c;
    }

    // ----- From the decoded last column to the first byte -----

    /** decompress.c:560-567: the FAST table, and the row of the original's successor. */
    method BuildFast(origPtr: nat, ghost s: Source)
      requires Shape() && !smallDecompress && |s.l| == saveNblock <= tt.Length && origPtr == s.origPtr < |s.l|
      requires |s.l| <= 900000 && forall x :: 0 <= x < |s.l| ==> 0 <= s.l[x] < 256 && tt[x] == s.l[x]
      requires IsCumulative(cftab[..], s.l) && IsLinks(s.l, s.links)
      modifies tt, cftab, `tPos
      ensures IsFastTable(tt[..saveNblock], s.l) && Links(tt[..saveNblock]) == s.links
      ensures tPos == Follow(s.links, s.origPtr, 1)
    {
      ComputeFastLinks(tt, cftab, saveNblock, s.l);
      LinksUnique(s.l, s.links, Links(tt[..saveNblock]));
      tPos := Link(tt[origPtr]);
      assert Links(tt[..saveNblock])[origPtr] == tPos;
      assert Follow(s.links, s.links[origPtr], 0) == s.links[origPtr];
    }

    /** decompress.c:526-546: the SMALL table, turned round from the row of the original. */
    method BuildSmall(origPtr: nat, ghost s: Source) returns (ghost cyc: seq<int>)
      requires Shape() && smallDecompress && |s.l| == saveNblock <= ll.ll16.Length && origPtr == s.origPtr < |s.l|
      requires ValidSource(s) && forall x :: 0 <= x < |s.l| ==> ll.ll16[x] == s.l[x]
      requires IsCumulative(cftab[..], s.l)
      modifies ll.ll16, ll.ll4, `tPos
      ensures IsSmallTable(ll.Entries(saveNblock), s, cyc)
      ensures tPos == Follow(s.links, s.origPtr, 0)
      ensures cftab[..] == old(cftab[..])
    {
      hide IsCumulative, IsLinks, WellFormed, Slot, Follow, Slots, Cycle;
      assert Follow(s.links, s.origPtr, 0) == s.origPtr by { FollowZero(s.links, s.origPtr); }
      var cftabCopy := new int[257](i requires 0 <= i < 257 && cftab.Length == 257 reads cftab => cftab[i]);
      assert cftabCopy[..] == cftab[..];
      ll.ComputeSlots(cftabCopy, saveNblock, s.l);
      cyc := ll.ReverseCycle(origPtr, saveNblock, Slots(s.l));
      tPos := origPtr;
      CycleInRange(cyc, Slots(s.l), origPtr);
      assert forall i :: 0 <= i < |cyc| ==> ll.Entries(saveNblock)[cyc[i]] == cyc[Prev(|cyc|, i)];
    }

    /** decompress.c:488-546 and 560-567: the tables for the source `s`, from its last column. */
    method BuildTables(nblock: nat, origPtr: nat, unzftab: array<int>, ghost s: Source)
      requires Shape() && nblock == |s.l| <= 100000 * blockSize100k && unzftab.Length == 256 && origPtr == s.origPtr
      requires unzftab != cftab && unzftab != tt as object && unzftab != ll.ll16 as object &&
          unzftab != ll.ll4 as object
      requires ValidSource(s) && origPtr < |s.l| && |s.l| <= 900000 && IsLinks(s.l, s.links)
      requires forall x :: 0 <= x < |s.l| ==> 0 <= s.l[x] < 256
      requires forall c :: 0 <= c < 256 ==> unzftab[c] == CountEq(s.l, nblock, c)
      requires !smallDecompress ==> forall x :: 0 <= x < nblock ==> tt[x] == s.l[x]
      requires smallDecompress ==> forall x :: 0 <= x < nblock ==> ll.ll16[x] == s.l[x]
      modifies `saveNblock, `src, `cycle, `tPos, tt, ll.ll16, ll.ll4, cftab
      ensures Table() && InStep(src, smallDecompress, 0, tPos) && src == s && saveNblock == nblock
    {
      hide ValidSource, IsLinks, IsCumulative, IsSmallTable, IsFastTable, WellFormed, Follow, CountEq;
      saveNblock, src := nblock, s;
      MakeCftab(unzftab, cftab, s.l);
      if smallDecompress {
        cycle := BuildSmall(origPtr, s);
      } else {
        BuildFast(origPtr, s);
      }
    }

    /** decompress.c:488-576: from the decoded last column, its byte counts and the row of the
        original, set everything up and read the first byte. What is then due is the whole block. */
    method BeginOutput(nblock: nat, origPtr: nat, unzftab: array<int>, ghost b: seq<int>, ghost p: seq<int>,
                       ghost strm: OutStream)
      returns (corrupt: bool)
      requires Shape() && nblock == |b| <= 100000 * blockSize100k && unzftab.Length == 256
      requires unzftab != cftab && unzftab != tt as object && unzftab != ll.ll16 as object &&
          unzftab != ll.ll4 as object
      requires forall x :: 0 <= x < |b| ==> 0 <= b[x] < 256
      requires SortedRotations(b, p) && origPtr < nblock && p[origPtr] == 0 && WellFormed(b, 0)
      requires forall c :: 0 <= c < 256 ==> unzftab[c] == CountEq(LastColumn(b, p), nblock, c)
      requires !smallDecompress ==> forall x :: 0 <= x < nblock ==> tt[x] == LastColumn(b, p)[x]
      requires smallDecompress ==> forall x :: 0 <= x < nblock ==> ll.ll16[x] == LastColumn(b, p)[x]
      modifies this, tt, ll.ll16, ll.ll4, cftab
      ensures !corrupt && Valid() && src.blk == b && saveNblock == nblock
      ensures delivered == [] && Accounted(strm)
    {
      hide ValidSource, SortedRotations, LastColumn, IsLinks, UnRle, WellFormed, Valid, CountEq, Accounted, Table;
      hide InStep;
      ghost var s := SourceOf(b, p, origPtr);
      stateOutLen, stateOutCh, calculatedBlockCRC := 0, 0, CRC_INIT;
      base, delivered := strm.written, [];
      BuildTables(nblock, origPtr, unzftab, s);
      NothingDelivered(strm);
      corrupt := FirstByte();
    }

    /** Read the first byte of the block. */
    method FirstByte() returns (corrupt: bool)
      requires Table() && InStep(src, smallDecompress, 0, tPos)
      requires stateOutLen == 0 && delivered == [] && |src.blk| == saveNblock > 0 && WellFormed(src.blk, 0)
      modifies `nblockUsed, `tPos, `k0
      ensures !corrupt && Valid()
    {
      hide UnRle, WellFormed, IsFastTable, IsSmallTable, InStep, IsCumulative;
      nblockUsed := 0;
      corrupt, k0 := Fetch();
      assert [] + (Rep(stateOutCh, 0) + UnRle(src.blk, 0)) == UnRle(src.blk, 0);
    }

    lemma NothingDelivered(strm: OutStream)
      requires |crcTable| == 256 && base == strm.written && delivered == [] && calculatedBlockCRC == CRC_INIT
      ensures Accounted(strm)
    {
    }

    // ----- Starting a run -----

    /** One `state_out_len = n; GET(k1); ...; continue` group for n = 2 or 3: the next byte
        either ends the run (then it becomes `k0`, or the block is over) or is one more copy. */
    method TryCopy(n: nat, ghost u: nat) returns (corrupt: bool, stop: bool)
      requires Table() && InStep(src, smallDecompress, nblockUsed, tPos) && |src.blk| == saveNblock
      requires 1 <= n <= 3 && u + n == nblockUsed <= saveNblock && k0 == src.blk[u]
      requires forall k :: u <= k < u + n ==> src.blk[k] == src.blk[u]
      modifies `nblockUsed, `tPos, `stateOutLen, `k0
      ensures !corrupt && InStep(src, smallDecompress, nblockUsed, tPos)
      ensures nblockUsed == u + n + 1 && stateOutLen == n
      ensures stop <==> u + n == saveNblock || src.blk[u + n] != src.blk[u]
      ensures nblockUsed <= saveNblock ==> k0 == src.blk[nblockUsed - 1]
    {
      hide Table, InStep;
      stateOutLen := n;
      var k1;
      corrupt, k1 := Fetch();
      if corrupt { return true, true; }
      if n == 1 && !smallDecompress && k1 != k0 {
        k0 := k1;
        return false, true;
      }
      if nblockUsed == saveNblock + 1 { return false, true; }
      stop := k1 != k0;
      k0 := k1;
    }

    /** Four copies seen: the next byte counts the further ones, and one more is read ahead. */
    method CountedRun(ghost u: nat) returns (corrupt: bool)
      requires Table() && InStep(src, smallDecompress, nblockUsed, tPos) && |src.blk| == saveNblock
      requires u + 4 == nblockUsed < saveNblock && 0 <= src.blk[u + 4] < 256
      modifies `nblockUsed, `tPos, `stateOutLen, `k0
      ensures !corrupt && InStep(src, smallDecompress, nblockUsed, tPos)
      ensures nblockUsed == u + 6 && stateOutLen == src.blk[u + 4] + 4
      ensures nblockUsed <= saveNblock ==> k0 == src.blk[nblockUsed - 1]
    {
      hide Table, InStep;
      var k1;
      corrupt, k1 := Fetch();
      if corrupt { return; }
      stateOutLen := k1 as int + 4;
      corrupt, k0 := Fetch();
    }

    /** Start the next run: the fall-through part of the loop, up to the next `continue`. */
    method StartRun() returns (corrupt: bool)
      requires Table() && InStep(src, smallDecompress, nblockUsed, tPos) && |src.blk| == saveNblock
      requires 1 <= nblockUsed <= saveNblock && k0 == src.blk[nblockUsed - 1]
      requires |src.blk| == saveNblock && WellFormed(src.blk, nblockUsed - 1)
      modifies `nblockUsed, `tPos, `stateOutLen, `stateOutCh, `k0
      ensures !corrupt && InStep(src, smallDecompress, nblockUsed, tPos)
      ensures stateOutCh == old(k0)
      ensures (stateOutLen, nblockUsed - 1) == NextRun(src.blk, old(nblockUsed) - 1)
      ensures nblockUsed <= saveNblock ==> k0 == src.blk[nblockUsed - 1]
    {
      hide Table, WellFormed, InStep, UnRle;
      ghost var u := nblockUsed - 1;
      stateOutCh := k0;
      var stop;
      corrupt, stop := TryCopy(1, u);
      if corrupt || stop { return; }
      corrupt, stop := TryCopy(2, u);
      if corrupt || stop { return; }
      corrupt, stop := TryCopy(3, u);
      if corrupt || stop { return; }
      CountFollows(src.blk, u);
      corrupt := CountedRun(u);
    }

    /** StartRun, in terms of what is still to be written. */
    method OpenRun() returns (corrupt: bool)
      requires Table() && ValidState(src, smallDecompress, State()) && nblockUsed <= saveNblock
      requires UnRle(src.blk, 0) == delivered + UnRle(src.blk, nblockUsed - 1)
      modifies `nblockUsed, `tPos, `stateOutLen, `stateOutCh, `k0
      ensures !corrupt && Valid() && nblockUsed > old(nblockUsed)
    {
      hide IsFastTable, IsSmallTable, InStep, WellFormed, UnRle;
      NextRunExpands(src.blk, nblockUsed - 1);
      corrupt := StartRun();
    }

    // ----- Writing -----

    /** Write one byte of the run in progress. */
    method Emit(strm: OutStream)
      requires strm.availOut > 0 && |crcTable| == 256 && Accounted(strm)
      modifies strm, `calculatedBlockCRC, `delivered
      ensures strm.availOut == old(strm.availOut) - 1
      ensures delivered == old(delivered) + [stateOutCh] && Accounted(strm)
    {
      strm.Put(stateOutCh);
      assert base + (delivered + [stateOutCh]) == (base + delivered) + [stateOutCh];
      delivered := delivered + [stateOutCh];
      calculatedBlockCRC := UpdateCrc(crcTable, calculatedBlockCRC, stateOutCh);
    }

    /** The caller's buffer ends with what this block has delivered, and the running CRC is the CRC
        of exactly that. */
    ghost predicate Accounted(strm: OutStream)
      requires |crcTable| == 256
      reads strm`written, `base, `delivered, `calculatedBlockCRC
    {
      && strm.written == base + delivered
      && calculatedBlockCRC == CrcOf(crcTable, CRC_INIT, delivered)
    }

    /** The run in progress (FAST): write its copies until the buffer is full or the run is over
        (stateOutLen then keeps its last value, which the caller overwrites). */
    method FinishRun(strm: OutStream) returns (full: bool)
      requires |crcTable| == 256 && Accounted(strm)
      modifies strm, `calculatedBlockCRC, `stateOutLen, `delivered
      ensures Accounted(strm) && |delivered| + strm.availOut == old(|delivered| + strm.availOut) &&
          strm.availOut <= old(strm.availOut)
      ensures full ==> strm.availOut == 0 && stateOutLen <= old(stateOutLen)
      ensures full ==> delivered == old(delivered) + Rep(stateOutCh, old(stateOutLen) - stateOutLen)
      ensures !full ==> delivered == old(delivered) + Rep(stateOutCh, old(stateOutLen))
    {
      hide Accounted;
      if stateOutLen == 0 { return false; }
      while stateOutLen != 1 || strm.availOut == 0
        invariant 0 < stateOutLen <= old(stateOutLen)
        invariant Accounted(strm) && |delivered| + strm.availOut == old(|delivered| + strm.availOut) &&
            strm.availOut <= old(strm.availOut)
        invariant delivered == old(delivered) + Rep(stateOutCh, old(stateOutLen) - stateOutLen)
        decreases stateOutLen
      {
        if strm.availOut == 0 { return true; }
        Emit(strm);
        stateOutLen := stateOutLen - 1;
      }
      Emit(strm);
      return false;
    }

    /** SMALL's inner loop: write copies until the run is over; without room it stops even then. */
    method FinishRunSmall(strm: OutStream) returns (full: bool)
      requires |crcTable| == 256 && Accounted(strm)
      modifies strm, `calculatedBlockCRC, `stateOutLen, `delivered
      ensures Accounted(strm) && |delivered| + strm.availOut == old(|delivered| + strm.availOut) &&
          strm.availOut <= old(strm.availOut)
      ensures stateOutLen <= old(stateOutLen)
      ensures delivered == old(delivered) + Rep(stateOutCh, old(stateOutLen) - stateOutLen)
      ensures full <==> strm.availOut == 0
      ensures !full ==> stateOutLen == 0
    {
      hide Accounted;
      while strm.availOut != 0 && stateOutLen != 0
        invariant stateOutLen <= old(stateOutLen)
        invariant Accounted(strm) && |delivered| + strm.availOut == old(|delivered| + strm.availOut) &&
            strm.availOut <= old(strm.availOut)
        invariant delivered == old(delivered) + Rep(stateOutCh, old(stateOutLen) - stateOutLen)
        decreases stateOutLen
      {
        Emit(strm);
        stateOutLen := stateOutLen - 1;
      }
      full := strm.availOut == 0;
    }

    /** One turn of FAST's outer loop: finish the run in progress and start the next one. */
    method TurnFast(strm: OutStream) returns (corrupt: bool, stop: bool)
      requires Valid() && !smallDecompress && Accounted(strm)
      modifies `nblockUsed, `tPos, `stateOutLen, `stateOutCh, `k0, `calculatedBlockCRC, `delivered, strm
      ensures !corrupt && Valid() && Accounted(strm)
      ensures |delivered| + strm.availOut == old(|delivered| + strm.availOut) && strm.availOut <= old(strm.availOut)
      ensures stop ==> strm.availOut == 0 || Finished(saveNblock, State())
      ensures !stop ==> nblockUsed > old(nblockUsed)
    {
      hide IsFastTable, IsSmallTable, ValidSource, InStep, UnRle, WellFormed, CrcOf;
      ghost var d, n, rest := delivered, stateOutLen, UnRle(src.blk, nblockUsed - 1);
      var full := FinishRun(strm);
      if full {
        RunSplits(d, stateOutCh, n - stateOutLen, stateOutLen, rest);
        return false, true;
      }
      RunSplits(d, stateOutCh, n, 0, rest);
      if nblockUsed > saveNblock + 1 { return true, true; }
      if nblockUsed == saveNblock + 1 {
        stateOutLen := 0;
        return false, true;
      }
      stop := false;
      corrupt := OpenRun();
    }

    /** unRLE_obuf_to_output_FAST: whatever room the caller offers, the bytes delivered are the next
        ones of the block, the CRC follows them, and the call only stops short when the block is
        finished. A run of one, which the source enters by a jump, is the length-1 case of the
        general path. */
    method UnRleToOutputFast(strm: OutStream) returns (corrupt: bool)
      requires Valid() && !smallDecompress && Accounted(strm)
      modifies `nblockUsed, `tPos, `stateOutLen, `stateOutCh, `k0, `calculatedBlockCRC, `delivered, strm
      ensures !corrupt && Valid() && Accounted(strm)
      ensures |delivered| + strm.availOut == old(|delivered| + strm.availOut) && strm.availOut <= old(strm.availOut)
      ensures strm.availOut > 0 ==> Finished(saveNblock, State())
    {
      hide IsFastTable, IsSmallTable, ValidSource, InStep, UnRle, WellFormed, Pending, Accounted;
      var stop := false;
      while !stop
        invariant Valid() && Accounted(strm) && (stop ==> strm.availOut == 0 || Finished(saveNblock, State()))
        invariant |delivered| + strm.availOut == old(|delivered| + strm.availOut) && strm.availOut <= old(strm.availOut)
        decreases !stop, saveNblock + 1 - nblockUsed
      {
        corrupt, stop := TurnFast(strm);
        if corrupt { return true; }
      }
      return false;
    }

    /** One turn of SMALL's outer loop. */
    method TurnSmall(strm: OutStream) returns (corrupt: bool, stop: bool)
      requires Valid() && smallDecompress && Accounted(strm)
      modifies `nblockUsed, `tPos, `stateOutLen, `stateOutCh, `k0, `calculatedBlockCRC, `delivered, strm
      ensures !corrupt && Valid() && Accounted(strm)
      ensures |delivered| + strm.availOut == old(|delivered| + strm.availOut) && strm.availOut <= old(strm.availOut)
      ensures stop ==> strm.availOut == 0 || Finished(saveNblock, State())
      ensures !stop ==> nblockUsed > old(nblockUsed)
    {
      hide IsFastTable, IsSmallTable, ValidSource, InStep, UnRle, WellFormed, CrcOf;
      ghost var d, n, rest := delivered, stateOutLen, UnRle(src.blk, nblockUsed - 1);
      var full := FinishRunSmall(strm);
      RunSplits(d, stateOutCh, n - stateOutLen, stateOutLen, rest);
      if full { return false, true; }
      if nblockUsed == saveNblock + 1 { return false, true; }
      if nblockUsed > saveNblock + 1 { return true, true; }
      stop := false;
      corrupt := OpenRun();
    }

    /** unRLE_obuf_to_output_SMALL: the same contract as the FAST form. */
    method UnRleToOutputSmall(strm: OutStream) returns (corrupt: bool)
      requires Valid() && smallDecompress && Accounted(strm)
      modifies `nblockUsed, `tPos, `stateOutLen, `stateOutCh, `k0, `calculatedBlockCRC, `delivered, strm
      ensures !corrupt && Valid() && Accounted(strm)
      ensures |delivered| + strm.availOut == old(|delivered| + strm.availOut) && strm.availOut <= old(strm.availOut)
      ensures strm.availOut > 0 ==> Finished(saveNblock, State())
    {
      hide IsFastTable, IsSmallTable, ValidSource, InStep, UnRle, WellFormed, Pending, Accounted;
      var stop := false;
      while !stop
        invariant Valid() && Accounted(strm) && (stop ==> strm.availOut == 0 || Finished(saveNblock, State()))
        invariant |delivered| + strm.availOut == old(|delivered| + strm.availOut) && strm.availOut <= old(strm.availOut)
        decreases !stop, saveNblock + 1 - nblockUsed
      {
        corrupt, stop := TurnSmall(strm);
        if corrupt { return true; }
      }
      return false;
    }

    /** The output half of BZ2_bzDecompress: `done` is its test for the end of the block, and then the
        whole block has been delivered. */
    method UnRleToOutput(strm: OutStream) returns (corrupt: bool, done: bool)
      requires Valid() && Accounted(strm)
      modifies `nblockUsed, `tPos, `stateOutLen, `stateOutCh, `k0, `calculatedBlockCRC, `delivered, strm
      ensures !corrupt && Valid() && Accounted(strm)
      ensures |delivered| + strm.availOut == old(|delivered| + strm.availOut) && strm.availOut <= old(strm.availOut)
      ensures WellFormed(src.blk, 0) && (done ==> delivered == UnRle(src.blk, 0))
      ensures !done ==> strm.availOut == 0 && delivered < UnRle(src.blk, 0)
    {
      hide Valid, Accounted, UnRle;
      ValidShape();
      if smallDecompress {
        corrupt := UnRleToOutputSmall(strm);
      } else {
        corrupt := UnRleToOutputFast(strm);
      }
      done := nblockUsed == saveNblock + 1 && stateOutLen == 0;
      if done { AllDelivered(); } else { MoreToDeliver(); }
    }

    /** What has been delivered is the front of the block's bytes. */
    lemma DeliveredPrefix()
      requires Valid()
      ensures WellFormed(src.blk, 0) && delivered <= UnRle(src.blk, 0)
    {
      hide WellFormed, IsFastTable, IsSmallTable, IsLinks, UnRle, Table, Pending;
      SourceSize();
    }

    /** As long as the test for the end of the block fails, bytes are due. */
    lemma MoreToDeliver()
      requires Valid() && !Finished(saveNblock, State())
      ensures WellFormed(src.blk, 0) && delivered < UnRle(src.blk, 0)
    {
      hide WellFormed, IsFastTable, IsSmallTable, IsLinks, UnRle, Table;
      SourceSize();
      SomePending(src, State());
    }

    lemma SourceSize()
      requires Table()
      ensures ValidSource(src) && |src.blk| == |src.l| == saveNblock && WellFormed(src.blk, 0)
    {
    }

    lemma ValidShape()
      requires Valid()
      ensures |crcTable| == 256 && WellFormed(src.blk, 0)
    {
    }

    lemma AllDelivered()
      requires Valid() && Finished(saveNblock, State())
      ensures WellFormed(src.blk, 0) && delivered == UnRle(src.blk, 0)
    {
      hide WellFormed, IsFastTable, IsSmallTable, IsLinks;
      DecodeEnd(src.blk);
      assert |src.blk| == saveNblock;
      assert Pending(src, State()) == [];
    }
  }

  /** Part of a run delivered, the rest of it still due. */
  lemma RunSplits(d: seq<int>, c: int, m: nat, n: nat, rest: seq<int>)
    ensures d + (Rep(c, m + n) + rest) == (d + Rep(c, m)) + (Rep(c, n) + rest)
  {
  }
}
