/** The map between byte values and the values a block uses: makeMaps_e (compress.c) and makeMaps_d
    (decompress.c). */
module ByteMaps {
  import opened Rotations

  /** The used byte values below `k`, in order. */
  ghost function Used(inUse: seq<bool>, k: nat): (r: seq<byte>)
    requires k <= |inUse| == 256
    ensures |r| <= k
  {
    if k == 0 then [] else Used(inUse, k - 1) + if inUse[k - 1] then [k - 1] else []
  }

  lemma {:induction false} UsedGrows(inUse: seq<bool>, j: nat, k: nat)
    requires j <= k <= |inUse| == 256
    ensures Used(inUse, j) <= Used(inUse, k)
  {
    if j < k {
      UsedGrows(inUse, j, k - 1);
    }
  }

  /** The decoder's map undoes the encoder's. */
  lemma MapsInverse(inUse: seq<bool>, c: nat)
    requires |inUse| == 256 && c < 256 && inUse[c]
    ensures |Used(inUse, c)| < |Used(inUse, 256)| && Used(inUse, 256)[|Used(inUse, c)|] == c
  {
    UsedGrows(inUse, c + 1, 256);
    assert Used(inUse, c + 1)[|Used(inUse, c)|] == c;
  }

  /** makeMaps_e. */
  method MakeMapsE(inUse: array<bool>, unseqToSeq: array<byte>) returns (nInUse: nat)
    requires inUse.Length == unseqToSeq.Length == 256
    modifies unseqToSeq
    ensures nInUse == |Used(inUse[..], 256)|
    ensures forall c :: 0 <= c < 256 && inUse[c] ==> unseqToSeq[c] == |Used(inUse[..], c)|
  {
    nInUse := 0;
    for i := 0 to 256
      invariant nInUse == |Used(inUse[..], i)|
      invariant forall c :: 0 <= c < i && inUse[c] ==> unseqToSeq[c] == |Used(inUse[..], c)|
    {
      if inUse[i] {
        unseqToSeq[i] := nInUse;
        nInUse := nInUse + 1;
      }
    }
  }

  /** makeMaps_d. */
  method MakeMapsD(inUse: seq<bool>, seqToUnseq: array<byte>) returns (nInUse: nat)
    requires |inUse| == seqToUnseq.Length == 256
    modifies seqToUnseq
    ensures nInUse == |Used(inUse, 256)| && seqToUnseq[..nInUse] == Used(inUse, 256)
  {
    nInUse := 0;
    for i := 0 to 256
      invariant nInUse == |Used(inUse, i)| && seqToUnseq[..nInUse] == Used(inUse, i)
    {
      if inUse[i] {
        seqToUnseq[nInUse] := i;
        nInUse := nInUse + 1;
      }
    }
  }

  /** A column in terms of the used values. */
  ghost function Mapped(inUse: seq<bool>, col: seq<int>): (r: seq<int>)
    requires |inUse| == 256 && forall i :: 0 <= i < |col| ==> 0 <= col[i] < 256
    ensures |r| == |col|
  {
    seq(|col|, x requires 0 <= x < |col| => |Used(inUse, col[x])|)
  }

  /** Back to bytes. */
  ghost function Unmapped(inUse: seq<bool>, s: seq<int>): (r: seq<int>)
    requires |inUse| == 256 && forall i :: 0 <= i < |s| ==> 0 <= s[i] < |Used(inUse, 256)|
    ensures |r| == |s|
  {
    seq(|s|, x requires 0 <= x < |s| => Used(inUse, 256)[s[x]])
  }

  lemma UnmappedMapped(inUse: seq<bool>, col: seq<int>)
    requires |inUse| == 256 && forall i :: 0 <= i < |col| ==> 0 <= col[i] < 256 && inUse[col[i]]
    ensures forall i :: 0 <= i < |col| ==> 0 <= Mapped(inUse, col)[i] < |Used(inUse, 256)|
    ensures Unmapped(inUse, Mapped(inUse, col)) == col
  {
    forall i | 0 <= i < |col|
      ensures 0 <= Mapped(inUse, col)[i] < |Used(inUse, 256)|
      ensures Used(inUse, 256)[Mapped(inUse, col)[i]] == col[i]
    {
      MapsInverse(inUse, col[i]);
    }
  }
}
