/** Numbers as bit strings, most significant bit first. */
module Bits {
  import opened Rotations
  import opened Power

  /** The low `n` bits of `v`. */
  ghost function BitsOf(v: nat, n: nat): (r: seq<bool>)
    ensures |r| == n
    decreases n
  {
    if n == 0 then [] else BitsOf(v / 2, n - 1) + [v % 2 == 1]
  }

  /** The number a bit string denotes. */
  ghost function ValueOf(s: seq<bool>): nat {
    if s == [] then 0 else 2 * ValueOf(s[..|s| - 1]) + (if s[|s| - 1] then 1 else 0)
  }

  ghost function BytesBits(s: seq<byte>): (r: seq<bool>)
    ensures |r| == 8 * |s|
  {
    if s == [] then [] else BytesBits(s[..|s| - 1]) + BitsOf(s[|s| - 1], 8)
  }

  lemma {:induction false} ValueOfBits(v: nat, n: nat)
    requires v < Pow2(n)
    ensures ValueOf(BitsOf(v, n)) == v
    decreases n
  {
    if n != 0 {
      ValueOfBits(v / 2, n - 1);
      assert BitsOf(v, n)[..n - 1] == BitsOf(v / 2, n - 1);
    }
  }

  /** `x << n`. */
  function Shl(x: nat, n: nat): (r: nat)
    decreases n
  {
    if n == 0 then x else 2 * Shl(x, n - 1)
  }

  lemma {:induction false} ShlAdd(x: nat, y: nat, n: nat)
    ensures Shl(x + y, n) == Shl(x, n) + Shl(y, n)
  {
    if n != 0 {
      ShlAdd(x, y, n - 1);
    }
  }

  lemma {:induction false} ShlTwice(x: nat, m: nat, n: nat)
    ensures Shl(Shl(x, m), n) == Shl(x, m + n)
    decreases n
  {
    if n != 0 {
      ShlTwice(x, m, n - 1);
      assert Shl(x, m + n) == 2 * Shl(x, m + n - 1);
    }
  }

  /** Shifting into room that is there. */
  lemma {:induction false} ShlBound(x: nat, m: nat, n: nat)
    requires x < Pow2(m)
    ensures Shl(x, n) + Pow2(n) <= Pow2(m + n)
  {
    if n == 0 {
      assert Pow2(0) == 1;
    } else {
      ShlBound(x, m, n - 1);
      assert Pow2(m + n) == 2 * Pow2(m + n - 1);
    }
  }

  lemma {:induction false} ShlZero(n: nat)
    ensures Shl(0, n) == 0
  {
    if n != 0 {
      ShlZero(n - 1);
    }
  }

  lemma PositivePow2(n: nat)
    ensures 0 < Pow2(n)
  {
  }

  lemma ShlBytes(x: nat)
    ensures Shl(x, 8) == 256 * x
    ensures Shl(x, 24) == 0x100_0000 * x
  {
    ShlByte(x);
    ShlByte(Shl(x, 8));
    ShlByte(Shl(x, 16));
    ShlTwice(x, 8, 8);
    ShlTwice(x, 16, 8);
  }

  lemma ShlByte(x: nat)
    ensures Shl(x, 8) == 256 * x
  {
    assert Shl(x, 4) == 16 * x;
    assert Shl(Shl(x, 4), 4) == 16 * Shl(x, 4);
    ShlTwice(x, 4, 4);
  }

  /** Writing `c` after `a`. */
  lemma {:induction false} BitsConcat(a: nat, m: nat, c: nat, n: nat)
    ensures BitsOf(Shl(a, n) + Low(c, n), m + n) == BitsOf(a, m) + BitsOf(c, n)
    decreases n
  {
    if n == 0 {
      assert BitsOf(a, m) + [] == BitsOf(a, m);
    } else {
      BitsConcat(a, m, c / 2, n - 1);
      var x, y := Shl(a, n) + Low(c, n), Shl(a, n - 1) + Low(c / 2, n - 1);
      assert x == 2 * y + c % 2;
      assert x / 2 == y && x % 2 == c % 2;
      assert BitsOf(x, m + n) == BitsOf(y, m + (n - 1)) + [c % 2 == 1];
    }
  }

  lemma {:induction false} LowSmall(x: nat, n: nat)
    requires x < Pow2(n)
    ensures Low(x, n) == x
    decreases n
  {
    if n != 0 {
      LowSmall(x / 2, n - 1);
    }
  }

  /** `x >> n`. */
  function Shr(x: nat, n: nat): (r: nat)
    decreases n
  {
    if n == 0 then x else Shr(x / 2, n - 1)
  }

  /** `x & ((1 << n) - 1)`. */
  function Low(x: nat, n: nat): (r: nat)
    ensures r < Pow2(n)
    decreases n
  {
    if n == 0 then 0 else 2 * Low(x / 2, n - 1) + x % 2
  }

  lemma {:induction false} ShrLow(x: nat, n: nat)
    ensures x == Shl(Shr(x, n), n) + Low(x, n)
    decreases n
  {
    if n != 0 {
      ShrLow(x / 2, n - 1);
    }
  }

  lemma {:induction false} ShrBound(x: nat, m: nat, n: nat)
    requires x < Pow2(m + n)
    ensures Shr(x, n) < Pow2(m)
    decreases n
  {
    if n != 0 {
      assert Pow2(m + n) == 2 * Pow2(m + (n - 1));
      ShrBound(x / 2, m, n - 1);
    }
  }

  lemma BytesBitsAppend(s: seq<byte>, c: byte)
    ensures BytesBits(s + [c]) == BytesBits(s) + BitsOf(c, 8)
  {
    hide BitsOf;
    assert (s + [c])[..|s|] == s;
  }

  lemma {:induction false} BytesBitsFront(s: seq<byte>)
    requires s != []
    ensures BytesBits(s) == BitsOf(s[0], 8) + BytesBits(s[1..])
  {
    hide BitsOf;
    if |s| == 1 {
      assert s[..0] == [] && s[1..] == [];
    } else {
      BytesBitsFront(s[..|s| - 1]);
      assert s[..|s| - 1][1..] == s[1..][..|s| - 2];
    }
  }

  lemma {:induction false} BytesBitsConcat(s: seq<byte>, t: seq<byte>)
    ensures BytesBits(s + t) == BytesBits(s) + BytesBits(t)
  {
    hide BitsOf;
    if t == [] {
      assert s + t == s;
    } else {
      BytesBitsConcat(s, t[..|t| - 1]);
      assert (s + t)[..|s + t| - 1] == s + t[..|t| - 1];
    }
  }

  /** What is added above bit `n` does not show in the low `n` bits. */
  lemma {:induction false} BitsLow(a: nat, x: nat, n: nat)
    ensures BitsOf(Shl(a, n) + x, n) == BitsOf(x, n)
    decreases n
  {
    if n != 0 {
      BitsLow(a, x / 2, n - 1);
      var y := Shl(a, n - 1) + x / 2;
      assert Shl(a, n) + x == 2 * y + x % 2;
      assert (Shl(a, n) + x) / 2 == y && (Shl(a, n) + x) % 2 == x % 2;
    }
  }

  lemma {:induction false} BitsMasked(x: nat, n: nat)
    ensures BitsOf(Low(x, n), n) == BitsOf(x, n)
    decreases n
  {
    if n != 0 {
      BitsMasked(x / 2, n - 1);
      assert Low(x, n) / 2 == Low(x / 2, n - 1) && Low(x, n) % 2 == x % 2;
    }
  }

  /** The upper `m` and lower `n` of `m + n` bits. */
  lemma {:induction false} BitsSplit(x: nat, m: nat, n: nat)
    ensures BitsOf(x, m + n) == BitsOf(Shr(x, n), m) + BitsOf(x, n)
    decreases n
  {
    if n == 0 {
      assert BitsOf(x, m) + [] == BitsOf(x, m);
    } else {
      BitsSplit(x / 2, m, n - 1);
      assert BitsOf(x, m + n) == BitsOf(x / 2, m + (n - 1)) + [x % 2 == 1];
    }
  }

  lemma Pow2Values()
    ensures Pow2(8) == 0x100 && Pow2(16) == 0x1_0000 && Pow2(24) == 0x100_0000 && Pow2(32) == 0x1_0000_0000
  {
    assert Pow2(4) == 16;
    Pow2Add(4, 4);
    Pow2Add(8, 8);
    Pow2Add(16, 8);
    Pow2Add(16, 16);
  }
}
