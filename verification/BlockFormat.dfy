/** The bit format of one compressed block, as compress.c writes it and decompress.c reads it. Each
    part is a function of what follows it, so that the same functions say what has been written so far
    and what is still to be read. */
module BlockFormat {
  import opened Rotations
  import opened Bits
  import opened Canonical
  import opened MoveToFront
  import opened ByteMaps
  import opened SymbolStage

  /** BZ_G_SIZE, BZ_N_GROUPS, BZ_MAX_SELECTORS. */
  const G_SIZE := 50
  const N_GROUPS := 6
  const MAX_SELECTORS := 18002

  /** Everything a block transmits. */
  datatype Image = Image(crc: nat, origPtr: nat, inUse: seq<bool>, nGroups: nat,
                         selectors: seq<int>, lens: seq<seq<int>>, syms: seq<int>)

  lemma OneBitIs(b: bool)
    ensures BitsOf(if b then 1 else 0, 1) == [b]
  {
    assert BitsOf(0, 0) == [];
  }

  // ----- Fixed fields -----

  ghost function BytesThen(s: seq<byte>, k: seq<bool>): seq<bool> {
    if s == [] then k else BitsOf(s[0], 8) + BytesThen(s[1..], k)
  }

  /** `n` bytes of `v`, most significant first. */
  function BigEndian(v: nat, n: nat): (r: seq<byte>)
    ensures |r| == n
  {
    if n == 0 then [] else BigEndian(v / 256, n - 1) + [v % 256]
  }

  const BLOCK_MAGIC: seq<byte> := [0x31, 0x41, 0x59, 0x26, 0x53, 0x59]

  // ----- The used-byte map -----

  /** inUse16[i]. */
  ghost predicate AnyOf(inUse: seq<bool>, i: nat)
    requires |inUse| == 256 && i < 16
  {
    exists j :: 16 * i <= j < 16 * i + 16 && inUse[j]
  }

  ghost function Map16From(inUse: seq<bool>, i: nat, k: seq<bool>): seq<bool>
    requires |inUse| == 256 && i <= 16
    decreases 16 - i
  {
    if i == 16 then k else [AnyOf(inUse, i)] + Map16From(inUse, i + 1, k)
  }

  /** From bit `j` of group `i` on; only groups with a used byte are sent. */
  ghost function MapFrom(inUse: seq<bool>, i: nat, j: nat, k: seq<bool>): seq<bool>
    requires |inUse| == 256 && i <= 16 && j <= 16
    decreases 16 - i, 16 - j
  {
    if i == 16 then k
    else if j == 16 || !AnyOf(inUse, i) then MapFrom(inUse, i + 1, 0, k)
    else [inUse[16 * i + j]] + MapFrom(inUse, i, j + 1, k)
  }

  // ----- Selectors -----

  /** Move-to-front positions of the selectors. */
  ghost function SelectorPositions(pos: seq<int>, sel: seq<int>): (r: seq<int>)
    ensures |r| == |sel|
    decreases |sel|
  {
    if sel == [] then []
    else if sel[0] in pos then
      [Where(pos, sel[0])] + SelectorPositions(ToFront(pos, Where(pos, sel[0])), sel[1..])
    else [0] + SelectorPositions(pos, sel[1..])
  }

  ghost function UnaryThen(n: nat, k: seq<bool>): seq<bool> {
    if n == 0 then [false] + k else [true] + UnaryThen(n - 1, k)
  }

  ghost function SelectorsFrom(m: seq<int>, i: nat, k: seq<bool>): seq<bool>
    requires i <= |m| && forall x :: 0 <= x < |m| ==> m[x] >= 0
    decreases |m| - i
  {
    if i == |m| then k else UnaryThen(m[i], SelectorsFrom(m, i + 1, k))
  }

  // ----- Coding tables -----

  ghost function DeltaThen(curr: int, target: int, k: seq<bool>): seq<bool>
    decreases if curr < target then target - curr else curr - target
  {
    if curr < target then [true, false] + DeltaThen(curr + 1, target, k)
    else if curr > target then [true, true] + DeltaThen(curr - 1, target, k)
    else [false] + k
  }

  ghost function LensFrom(len: seq<int>, i: nat, curr: int, k: seq<bool>): seq<bool>
    requires i <= |len|
    decreases |len| - i
  {
    if i == |len| then k else DeltaThen(curr, len[i], LensFrom(len, i + 1, len[i], k))
  }

  ghost function TablesFrom(lens: seq<seq<int>>, t: nat, k: seq<bool>): seq<bool>
    requires t <= |lens| && forall x :: 0 <= x < |lens| ==> |lens[x]| > 0 && lens[x][0] >= 0
    decreases |lens| - t
  {
    if t == |lens| then k else BitsOf(lens[t][0], 5) + LensFrom(lens[t], 0, lens[t][0], TablesFrom(lens, t + 1, k))
  }

  // ----- Symbols -----

  /** The coding table for symbol number `x`. */
  ghost function TableOf(im: Image, x: nat): (r: seq<int>)
  {
    if x / G_SIZE < |im.selectors| && 0 <= im.selectors[x / G_SIZE] < |im.lens|
    then im.lens[im.selectors[x / G_SIZE]]
    else []
  }

  ghost function SymsFrom(im: Image, x: nat, k: seq<bool>): seq<bool>
    requires x <= |im.syms| && SymsCoded(im)
    decreases |im.syms| - x
  {
    if x == |im.syms| then k else
      SymCoded(im, x);
      CodeBits(TableOf(im, x), im.syms[x]) + SymsFrom(im, x + 1, k)
  }

  /** Every symbol has a code in its table. */
  ghost predicate SymsCoded(im: Image) {
    forall x :: 0 <= x < |im.syms| ==> Decodable(TableOf(im, x)) && 0 <= im.syms[x] < |TableOf(im, x)|
  }

  lemma SymCoded(im: Image, x: nat)
    requires SymsCoded(im) && x < |im.syms|
    ensures Decodable(TableOf(im, x)) && 0 <= im.syms[x] < |TableOf(im, x)|
  {
  }

  // ----- The whole block -----

  /** Code lengths a table may have. */
  ghost predicate ValidTable(len: seq<int>, alphaSize: nat) {
    |len| == alphaSize && 0 < alphaSize <= MAX_ALPHA_SIZE && Decodable(len)
  }

  /** The least and the greatest length in a table. */
  method LengthRange(len: seq<int>) returns (minLen: nat, maxLen: nat)
    requires len != [] && LengthsWithin(len, 1, 20)
    ensures LengthsWithin(len, minLen, maxLen) && minLen in len && maxLen in len
    ensures 1 <= minLen <= maxLen <= 20
  {
    minLen, maxLen := 32, 0;
    for i := 0 to |len|
      invariant i == 0 ==> minLen == 32 && maxLen == 0
      invariant i > 0 ==> 1 <= minLen <= maxLen <= 20 && minLen in len && maxLen in len
      invariant forall j :: 0 <= j < i ==> minLen <= len[j] <= maxLen
    {
      if len[i] > maxLen { maxLen := len[i]; }
      if len[i] < minLen { minLen := len[i]; }
    }
  }

  /** What the encoder can send. */
  ghost predicate ValidImage(im: Image) {
    && im.crc < 0x1_0000_0000 && im.origPtr < 900000 && |im.inUse| == 256
    && 0 < |Used(im.inUse, 256)| <= 256 && 2 <= im.nGroups <= N_GROUPS && |im.lens| == im.nGroups
    && (forall t :: 0 <= t < im.nGroups ==> ValidTable(im.lens[t], |Used(im.inUse, 256)| + 2))
    && Terminated(im.syms, |Used(im.inUse, 256)|)
    && |im.selectors| == (|im.syms| + G_SIZE - 1) / G_SIZE && |im.selectors| <= MAX_SELECTORS
    && (forall i :: 0 <= i < |im.selectors| ==> 0 <= im.selectors[i] < im.nGroups)
  }

  /** No code of the image is longer than `most`. */
  ghost predicate CodesWithin(im: Image, most: nat) {
    forall x :: 0 <= x < |im.lens| ==> LengthsWithin(im.lens[x], 1, most)
  }

  lemma ValidTables(im: Image)
    requires ValidImage(im)
    ensures forall x :: 0 <= x < |im.lens| ==> |im.lens[x]| > 0 && im.lens[x][0] >= 0
    ensures SymsCoded(im)
  {
    forall t | 0 <= t < |im.lens|
      ensures |im.lens[t]| > 0 && im.lens[t][0] >= 0
    {
      assert ValidTable(im.lens[t], |Used(im.inUse, 256)| + 2);
    }
    forall x | 0 <= x < |im.syms|
      ensures Decodable(TableOf(im, x)) && 0 <= im.syms[x] < |TableOf(im, x)|
    {
      GroupInRange(|im.syms|, x);
      assert ValidTable(im.lens[im.selectors[x / G_SIZE]], |Used(im.inUse, 256)| + 2);
    }
  }

  lemma GroupInRange(n: nat, x: nat)
    requires x < n
    ensures x / G_SIZE < (n + G_SIZE - 1) / G_SIZE
  {
  }

  lemma {:induction false} PositionsInRange(pos: seq<int>, sel: seq<int>)
    ensures forall x :: 0 <= x < |sel| ==> SelectorPositions(pos, sel)[x] >= 0
    ensures pos != [] ==> forall x :: 0 <= x < |sel| ==> SelectorPositions(pos, sel)[x] < |pos|
    decreases |sel|
  {
    if sel != [] {
      if sel[0] in pos {
        PositionsInRange(ToFront(pos, Where(pos, sel[0])), sel[1..]);
      } else {
        PositionsInRange(pos, sel[1..]);
      }
    }
  }

  ghost function Positions(im: Image): (r: seq<int>)
    ensures |r| == |im.selectors| && forall x :: 0 <= x < |r| ==> r[x] >= 0
  {
    PositionsInRange(Identity(im.nGroups), im.selectors);
    SelectorPositions(Identity(im.nGroups), im.selectors)
  }

  /** The parts of a block, each with everything after it. */
  ghost function SymbolBits(im: Image, k: seq<bool>): seq<bool>
    requires ValidImage(im)
  {
    ValidTables(im);
    SymsFrom(im, 0, k)
  }

  ghost function TableBits(im: Image, k: seq<bool>): seq<bool>
    requires ValidImage(im)
  {
    ValidTables(im);
    TablesFrom(im.lens, 0, SymbolBits(im, k))
  }

  ghost function SelectorBits(im: Image, k: seq<bool>): seq<bool>
    requires ValidImage(im)
  {
    BitsOf(im.nGroups, 3) + (BitsOf(|im.selectors|, 15) + SelectorsFrom(Positions(im), 0, TableBits(im, k)))
  }

  ghost function MapBits(im: Image, k: seq<bool>): seq<bool>
    requires ValidImage(im)
  {
    Map16From(im.inUse, 0, MapFrom(im.inUse, 0, 0, SelectorBits(im, k)))
  }

  ghost function BlockBits(im: Image, k: seq<bool>): seq<bool>
    requires ValidImage(im)
  {
    BytesThen(BLOCK_MAGIC + BigEndian(im.crc, 4), [false] + BytesThen(BigEndian(im.origPtr, 3), MapBits(im, k)))
  }
}
