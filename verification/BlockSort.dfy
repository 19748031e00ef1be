/** BZ2_blockSort (blocksort.c). */
module BlockSort {
  import opened Rotations
  import opened Permutations
  import opened Bwt
  import opened InverseBwt
  import opened MainOrder
  import Fallback = FallbackSort
  import Main = MainSort

  /** The row of the original among the sorted rotations. */
  method FindOrigin(ptr: array<int>, nblock: nat, ghost b: seq<int>) returns (origPtr: int)
    requires 0 < nblock == |b| <= ptr.Length && SortedRotations(b, ptr[..nblock])
    ensures 0 <= origPtr < nblock && ptr[origPtr] == 0
  {
    PermOnto(ptr[..nblock], nblock, 0);
    origPtr := -1;
    for i := 0 to nblock
      invariant origPtr == -1 && forall k :: 0 <= k < i ==> ptr[k] != 0
    {
      if ptr[i] == 0 {
        return i;
      }
    }
  }

  /** The fast sort for all but short blocks, until it has cost too much; then the one that is never slow. */
  method Sort(ptr: array<int>, eclass: array<int>, block: array<byte>, bhtab: array<bool>, quadrant: array<u16>,
              ftab: array<int>,
              nblock: nat, workFactor: int)
    returns (origPtr: int)
    requires ptr != eclass && ptr != ftab && eclass != ftab && 0 < nblock <= 900000
    requires block as object !in {ptr as object, eclass as object, bhtab as object, quadrant as object, ftab as object}
    requires quadrant as object !in {ptr as object, eclass as object, bhtab as object, ftab as object}
    requires bhtab as object !in {ptr, eclass, ftab}
    requires nblock <= ptr.Length && nblock <= eclass.Length && nblock + 64 <= bhtab.Length
    requires nblock + N_OVERSHOOT <= block.Length && nblock + N_OVERSHOOT <= quadrant.Length && ftab.Length == 65537
    modifies ptr, eclass, block, bhtab, quadrant, ftab
    ensures SortedRotations(old(block[..nblock]), ptr[..nblock]) && block[..nblock] == old(block[..nblock])
    ensures 0 <= origPtr < nblock && ptr[origPtr] == 0
  {
    hide SortedRotations;
    ghost var b: seq<int> := block[..nblock];
    if nblock < 10000 {
      Fallback.Sort(ptr, eclass, block, bhtab, nblock);
    } else {
      var wfact := if workFactor < 1 then 1 else if workFactor > 100 then 100 else workFactor;
      var budgetInit := Budget(nblock, wfact);
      var budget := Main.MainSort(ptr, block, quadrant, ftab, nblock, budgetInit);
      if budget < 0 {
        Fallback.Sort(ptr, eclass, block, bhtab, nblock);
      }
    }
    origPtr := FindOrigin(ptr, nblock, b);
  }

  /** `nblock * ((wfact - 1) / 3)`: in range of 32 bits. */
  function Budget(nblock: nat, wfact: nat): (r: nat)
    requires nblock <= 900000 && 1 <= wfact <= 100
    ensures r <= 33 * nblock
  {
    Product(nblock, (wfact - 1) / 3);
    nblock * ((wfact - 1) / 3)
  }

  lemma Product(n: nat, k: nat)
    requires k <= 33
    ensures 0 <= n * k <= 33 * n
  {
    assert n * k <= n * 33;
  }
}
