/** Words of 32 bits and the operations of the CRC loops on them, with the laws the proofs use. */
module Words {
  type Word = bv32

  function Xor(a: Word, b: Word): Word { a ^ b }
  function Not(a: Word): Word { !a }
  function Half(a: Word): Word { a >> 1 }
  function Twice(a: Word): Word { a << 1 }
  predicate Odd(a: Word) { a & 1 == 1 }
  function LowByte(a: Word): Word { a & 0xff }
  function DropByte(a: Word): Word { a >> 8 }
  function RaiseByte(a: Word): Word { a << 8 }
  function TopByte(a: Word): Word { a >> 24 }

  lemma XorLaws(a: Word, b: Word, c: Word)
    ensures Xor(a, b) == Xor(b, a)
    ensures Xor(Xor(a, b), c) == Xor(a, Xor(b, c))
  { XorRaw(a, b, c); }

  lemma XorRaw(a: bv32, b: bv32, c: bv32)
    ensures a ^ b == b ^ a && (a ^ b) ^ c == a ^ (b ^ c)
  { }

  lemma XorCancel(a: Word, b: Word)
    ensures Xor(a, a) == 0 && Xor(a, 0) == a && Xor(0, a) == a
    ensures Xor(a, Xor(a, b)) == b && Xor(Xor(a, b), b) == a
  { CancelRaw(a, b); }

  lemma CancelRaw(a: bv32, b: bv32)
    ensures a ^ a == 0 && a ^ 0 == a && 0 ^ a == a && a ^ (a ^ b) == b && (a ^ b) ^ b == a
  { }

  /** The byte at place `n`, and a table index cut out of a word. */
  function ByteWord(n: nat): Word
    requires n < 256
  { n as bv32 }

  function Index(w: Word): (n: nat)
    ensures n < 256 && ByteWord(n) == LowByte(w)
  {
    MaskedIsByte(w);
    ByteRound(w & 0xff);
    (w & 0xff) as nat
  }

  lemma MaskedIsByte(w: bv32)
    ensures (w & 0xff) as nat < 256
  { }

  lemma ByteRound(w: bv32)
    ensures (w as nat) as bv32 == w
  { }

  function FromByte(b: bv8): Word { b as bv32 }

  /** ZSWAP32 of zutil.h. */
  function Swap(q: Word): Word {
    ((q >> 24) & 0xff) + ((q >> 8) & 0xff00) + ((q & 0xff00) << 8) + ((q & 0xff) << 24)
  }

  /** Four bytes loaded as one word on a machine of either byte order. */
  function LoadLittle(b0: bv8, b1: bv8, b2: bv8, b3: bv8): Word {
    (b0 as bv32) | ((b1 as bv32) << 8) | ((b2 as bv32) << 16) | ((b3 as bv32) << 24)
  }

  function LoadBig(b0: bv8, b1: bv8, b2: bv8, b3: bv8): Word {
    ((b0 as bv32) << 24) | ((b1 as bv32) << 16) | ((b2 as bv32) << 8) | (b3 as bv32)
  }

  lemma SwapLaws(a: Word, b: Word)
    ensures Swap(Xor(a, b)) == Xor(Swap(a), Swap(b))
    ensures Swap(Not(a)) == Not(Swap(a)) && Swap(Swap(a)) == a
  {
    hide Swap;
    SwapXorRaw(a, b);
    SwapNotRaw(a);
    SwapTwiceRaw(a);
  }

  function SwapOr(q: bv32): bv32 {
    ((q >> 24) & 0xff) | ((q >> 8) & 0xff00) | ((q & 0xff00) << 8) | ((q & 0xff) << 24)
  }

  lemma SwapDisjoint(q: bv32)
    ensures Swap(q) == SwapOr(q)
  { }

  lemma SwapXorRaw(a: bv32, b: bv32)
    ensures Swap(a ^ b) == Swap(a) ^ Swap(b)
  {
    SwapDisjoint(a);
    SwapDisjoint(b);
    SwapDisjoint(a ^ b);
  }

  lemma SwapNotRaw(a: bv32)
    ensures Swap(!a) == !Swap(a)
  {
    SwapDisjoint(a);
    SwapDisjoint(!a);
  }

  lemma SwapTwiceRaw(a: bv32)
    ensures Swap(Swap(a)) == a
  {
    SwapDisjoint(a);
    SwapDisjoint(Swap(a));
  }

  lemma SwapBytes(x: Word)
    ensures TopByte(Swap(x)) == LowByte(x)
    ensures RaiseByte(Swap(x)) == Swap(DropByte(x))
    ensures LowByte(Swap(x)) == DropByte(DropByte(DropByte(x)))
    ensures LowByte(DropByte(Swap(x))) == LowByte(DropByte(DropByte(x)))
    ensures LowByte(DropByte(DropByte(Swap(x)))) == LowByte(DropByte(x))
    ensures DropByte(DropByte(DropByte(Swap(x)))) == LowByte(x)
  { }

  lemma LoadSwapped(b0: bv8, b1: bv8, b2: bv8, b3: bv8)
    ensures LoadBig(b0, b1, b2, b3) == Swap(LoadLittle(b0, b1, b2, b3))
  { }

  lemma ByteXor(c: Word, b: bv8)
    ensures DropByte(Xor(c, FromByte(b))) == DropByte(c)
    ensures LowByte(Xor(LowByte(c), FromByte(b))) == LowByte(Xor(c, FromByte(b)))
  { }

  lemma TopIsThirdDrop(x: Word)
    ensures DropByte(DropByte(DropByte(x))) == TopByte(x) == LowByte(TopByte(x))
    ensures DropByte(TopByte(x)) == 0
  { }

  lemma Places(b0: bv8, b1: bv8, b2: bv8, b3: bv8)
    ensures LoadLittle(b0, b1, b2, b3) ==
        Xor(FromByte(b0), RaiseByte(Xor(FromByte(b1), RaiseByte(Xor(FromByte(b2), RaiseByte(FromByte(b3)))))))
    ensures var w3 := FromByte(b3); LowByte(RaiseByte(w3)) == 0 && DropByte(RaiseByte(w3)) == w3
    ensures var w2 := Xor(FromByte(b2), RaiseByte(FromByte(b3)));
        LowByte(RaiseByte(w2)) == 0 && DropByte(RaiseByte(w2)) == w2
    ensures var w1 := Xor(FromByte(b1), RaiseByte(Xor(FromByte(b2), RaiseByte(FromByte(b3)))));
        LowByte(RaiseByte(w1)) == 0 && DropByte(RaiseByte(w1)) == w1
  { }

  /** Every bit of `w` is a bit of `mask`. */
  predicate Within(w: Word, mask: Word) { w & mask == w }

  lemma TwiceWithin(w: Word, mask: Word)
    requires Within(w, Half(mask))
    ensures Half(Twice(w)) == w && !Odd(Twice(w)) && Within(Twice(w), mask)
  { }

  function HighBytes(c: Word): Word { c & 0xffffff00 }

  lemma SplitByte(c: Word)
    ensures LowByte(HighBytes(c)) == 0 && DropByte(HighBytes(c)) == DropByte(c)
    ensures c == Xor(LowByte(c), HighBytes(c))
  { }

  lemma EightHalves(c: Word)
    requires LowByte(c) == 0
    ensures !Odd(c) && !Odd(Half(c)) && !Odd(Half(Half(c))) && !Odd(Half(Half(Half(c))))
    ensures var c4 := Half(Half(Half(Half(c))));
      !Odd(c4) && !Odd(Half(c4)) && !Odd(Half(Half(c4))) && !Odd(Half(Half(Half(c4))))
      && Half(Half(Half(Half(c4)))) == DropByte(c)
  {
    hide Odd, Half;
    Nibbles(c);
    FourHalves(c);
    FourHalves(c >> 4);
  }

  lemma Nibbles(c: bv32)
    requires c & 0xff == 0
    ensures c & 0xf == 0 && (c >> 4) & 0xf == 0 && (c >> 4) >> 4 == c >> 8
  { }

  lemma FourHalves(c: Word)
    requires c & 0xf == 0
    ensures !Odd(c) && !Odd(Half(c)) && !Odd(Half(Half(c))) && !Odd(Half(Half(Half(c))))
    ensures Half(Half(Half(Half(c)))) == c >> 4
  { }

  lemma NotXor(a: Word)
    ensures Not(a) == Xor(a, Not(0)) && a == Xor(Not(a), Not(0)) && Not(Not(a)) == a
  { }

  lemma TwiceXor(a: Word, b: Word)
    ensures Twice(Xor(a, b)) == Xor(Twice(a), Twice(b))
  { }

  lemma LowBit(v: Word)
    ensures v == if Odd(v) then Xor(Twice(Half(v)), 1) else Twice(Half(v))
  { }

  lemma EightDrops(v: Word)
    ensures Half(Half(Half(Half(Half(Half(Half(Half(v)))))))) == DropByte(v)
  { }

  lemma FourDrops(v: Word)
    ensures DropByte(DropByte(DropByte(DropByte(v)))) == 0
  { }

  lemma HalfXor(a: Word, b: Word)
    ensures Half(Xor(a, b)) == Xor(Half(a), Half(b))
    ensures Odd(Xor(a, b)) == (Odd(a) != Odd(b))
  { }
}
