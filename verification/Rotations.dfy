/** Cyclic rotations of a block and their lexicographic order: the specification that
    the block sorter (blocksort.c) and the inverse transform (decompress.c) share. */
module Rotations {

  type byte = x: int | 0 <= x < 256

  /** The position after `i` in a cyclic block of length `n`. */
  function Next(n: nat, i: nat): (r: nat)
    requires i < n
    ensures r < n
  {
    if i + 1 == n then 0 else i + 1
  }

  /** The position before `i`: the source's `j = i - 1; if (j < 0) j += nblock`. */
  function Prev(n: nat, i: nat): (r: nat)
    requires i < n
    ensures r < n
  {
    if i == 0 then n - 1 else i - 1
  }

  /** The position `h <= n` places after `i`. */
  function Shift(n: nat, i: nat, h: nat): (r: nat)
    requires i < n && h <= n
    ensures r < n
  {
    if i + h < n then i + h else i + h - n
  }

  /** Three-way comparison of the first `h` bytes of the rotations starting at `i` and `j`. */
  ghost function Cmp(b: seq<int>, i: nat, j: nat, h: nat): (r: int)
    requires i < |b| && j < |b|
    ensures -1 <= r <= 1
    decreases h
  {
    if h == 0 then 0
    else if b[i] < b[j] then -1
    else if b[i] > b[j] then 1
    else Cmp(b, Next(|b|, i), Next(|b|, j), h - 1)
  }

  /** Rotation `i` is not greater than rotation `j`. */
  ghost predicate RotLe(b: seq<int>, i: nat, j: nat)
    requires i < |b| && j < |b|
  {
    Cmp(b, i, j, |b|) <= 0
  }

  /** Rotations `i` and `j` are the same string. */
  ghost predicate RotEq(b: seq<int>, i: nat, j: nat)
    requires i < |b| && j < |b|
  {
    Cmp(b, i, j, |b|) == 0
  }

  lemma {:induction false} CmpAntisymmetric(b: seq<int>, i: nat, j: nat, h: nat)
    requires i < |b| && j < |b|
    ensures Cmp(b, j, i, h) == -Cmp(b, i, j, h)
    decreases h
  {
    if h != 0 && b[i] == b[j] {
      CmpAntisymmetric(b, Next(|b|, i), Next(|b|, j), h - 1);
    }
  }

  lemma {:induction false} CmpReflexive(b: seq<int>, i: nat, h: nat)
    requires i < |b|
    ensures Cmp(b, i, i, h) == 0
    decreases h
  {
    if h != 0 {
      CmpReflexive(b, Next(|b|, i), h - 1);
    }
  }

  /** The comparison is a total preorder: it composes, strictly if either part is strict. */
  lemma {:induction false} CmpTransitive(b: seq<int>, i: nat, j: nat, k: nat, h: nat)
    requires i < |b| && j < |b| && k < |b|
    requires Cmp(b, i, j, h) <= 0 && Cmp(b, j, k, h) <= 0
    ensures Cmp(b, i, k, h) <= 0
    ensures Cmp(b, i, j, h) < 0 || Cmp(b, j, k, h) < 0 ==> Cmp(b, i, k, h) < 0
    decreases h
  {
    if h != 0 && b[i] == b[j] == b[k] {
      CmpTransitive(b, Next(|b|, i), Next(|b|, j), Next(|b|, k), h - 1);
    }
  }

  /** Comparing `g + h` bytes is comparing `g` bytes and then, on a tie, `h` bytes from there:
      the step that lets one sorting pass double the depth. */
  lemma {:induction false} CmpSplit(b: seq<int>, i: nat, j: nat, g: nat, h: nat)
    requires i < |b| && j < |b| && g <= |b|
    ensures Cmp(b, i, j, g + h) ==
            if Cmp(b, i, j, g) != 0 then Cmp(b, i, j, g)
            else Cmp(b, Shift(|b|, i, g), Shift(|b|, j, g), h)
    decreases g
  {
    if g != 0 && b[i] == b[j] {
      var n := |b|;
      CmpSplit(b, Next(n, i), Next(n, j), g - 1, h);
      assert Shift(n, Next(n, i), g - 1) == Shift(n, i, g);
      assert Shift(n, Next(n, j), g - 1) == Shift(n, j, g);
      assert g + h - 1 == (g - 1) + h;
    }
  }

  /** Nothing new shows up past one full turn. */
  lemma {:induction false} CmpBeyond(b: seq<int>, i: nat, j: nat, h: nat)
    requires i < |b| && j < |b| && |b| <= h
    ensures Cmp(b, i, j, h) == Cmp(b, i, j, |b|)
    decreases h
  {
    var n := |b|;
    CmpSplit(b, i, j, n, h - n);
    assert n + (h - n) == h;
    assert Shift(n, i, n) == i && Shift(n, j, n) == j;
    if Cmp(b, i, j, n) == 0 {
      if h - n >= n {
        CmpBeyond(b, i, j, h - n);
      } else {
        CmpSplit(b, i, j, h - n, n - (h - n));
        assert (h - n) + (n - (h - n)) == n;
      }
    }
  }

  /** A difference found within `h` bytes decides every longer comparison. */
  lemma CmpDecided(b: seq<int>, i: nat, j: nat, h: nat)
    requires i < |b| && j < |b|
    ensures h <= |b| && Cmp(b, i, j, h) != 0 ==> Cmp(b, i, j, |b|) == Cmp(b, i, j, h)
    ensures |b| <= h ==> Cmp(b, i, j, |b|) == Cmp(b, i, j, h)
  {
    if h <= |b| {
      CmpSplit(b, i, j, h, |b| - h);
      assert h + (|b| - h) == |b|;
    } else {
      CmpBeyond(b, i, j, h);
    }
  }

  /** Rotations with equal first bytes compare as their successors do. */
  lemma CmpStep(b: seq<int>, i: nat, j: nat)
    requires i < |b| && j < |b| && b[i] == b[j]
    ensures Cmp(b, i, j, |b|) == Cmp(b, Next(|b|, i), Next(|b|, j), |b|)
  {
    CmpBeyond(b, i, j, |b| + 1);
  }

  // ----- What the comparison means on strings -----

  /** The rotation starting at `i`, as a string. */
  ghost function Rotation(b: seq<int>, i: nat): (r: seq<int>)
    requires i < |b|
    ensures |r| == |b|
  {
    b[i..] + b[..i]
  }

  /** Lexicographic three-way comparison of strings of one length. */
  ghost function Lex(s: seq<int>, t: seq<int>): int
    requires |s| == |t|
  {
    if s == [] then 0
    else if s[0] < t[0] then -1
    else if s[0] > t[0] then 1
    else Lex(s[1..], t[1..])
  }

  /** The first `h` bytes of rotation `i`, read off one at a time. */
  ghost function Spell(b: seq<int>, i: nat, h: nat): (r: seq<int>)
    requires i < |b|
    ensures |r| == h
    decreases h
  {
    if h == 0 then [] else [b[i]] + Spell(b, Next(|b|, i), h - 1)
  }

  lemma {:induction false} SpellAt(b: seq<int>, i: nat, h: nat, k: nat)
    requires i < |b| && k < h <= |b|
    ensures Spell(b, i, h)[k] == b[Shift(|b|, i, k)]
    decreases h
  {
    if k != 0 {
      SpellAt(b, Next(|b|, i), h - 1, k - 1);
      assert Shift(|b|, Next(|b|, i), k - 1) == Shift(|b|, i, k);
    }
  }

  lemma SpellIsRotation(b: seq<int>, i: nat)
    requires i < |b|
    ensures Spell(b, i, |b|) == Rotation(b, i)
  {
    forall k | 0 <= k < |b|
      ensures Spell(b, i, |b|)[k] == Rotation(b, i)[k]
    {
      SpellAt(b, i, |b|, k);
    }
  }

  lemma {:induction false} CmpIsLexOfSpelling(b: seq<int>, i: nat, j: nat, h: nat)
    requires i < |b| && j < |b|
    ensures Cmp(b, i, j, h) == Lex(Spell(b, i, h), Spell(b, j, h))
    decreases h
  {
    if h != 0 {
      CmpIsLexOfSpelling(b, Next(|b|, i), Next(|b|, j), h - 1);
    }
  }

  lemma {:induction false} LexZeroIsEqual(s: seq<int>, t: seq<int>)
    requires |s| == |t|
    ensures Lex(s, t) == 0 <==> s == t
    decreases |s|
  {
    if s != [] {
      LexZeroIsEqual(s[1..], t[1..]);
      assert s == [s[0]] + s[1..] && t == [t[0]] + t[1..];
    }
  }

  /** The comparison the sorter uses is the lexicographic order of the rotations as strings. */
  lemma CmpIsLexOfRotations(b: seq<int>, i: nat, j: nat)
    requires i < |b| && j < |b|
    ensures Cmp(b, i, j, |b|) == Lex(Rotation(b, i), Rotation(b, j))
    ensures RotEq(b, i, j) <==> Rotation(b, i) == Rotation(b, j)
  {
    CmpIsLexOfSpelling(b, i, j, |b|);
    SpellIsRotation(b, i);
    SpellIsRotation(b, j);
    LexZeroIsEqual(Rotation(b, i), Rotation(b, j));
  }
}
