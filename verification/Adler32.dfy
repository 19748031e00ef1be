/** zlib's adler32.c. */
module Adler32 {
  type byte = x: int | 0 <= x < 256
  type u32 = x: int | 0 <= x < 0x1_0000_0000

  const BASE := 65521
  const NMAX := 5552

  // ---- the checksum of section 2.2 of RFC 1950: sums over the integers, reduced once

  /** The starting value `a` plus all bytes. */
  function SumA(a: nat, s: seq<byte>): nat {
    if s == [] then a else SumA(a, s[..|s| - 1]) + s[|s| - 1]
  }

  /** The starting value `b` plus the value of the first sum after every byte. */
  function SumB(a: nat, b: nat, s: seq<byte>): nat {
    if s == [] then b else SumB(a, b, s[..|s| - 1]) + SumA(a, s)
  }

  function Low(adler: u32): (r: u32)
    ensures r < 65536
  { adler % 65536 }

  function High(adler: u32): (r: u32)
    ensures r < 65536
  { adler / 65536 }

  /** `adler | (sum2 << 16)`, the halves being of 16 bits. */
  function Join(a: nat, b: nat): (r: u32)
    requires a < 65536 && b < 65536
    ensures Low(r) == a && High(r) == b
  {
    a + 65536 * b
  }

  /** The checksum of `s` carried on from the checksum `adler`. */
  function Checksum(adler: u32, s: seq<byte>): u32 {
    Join(SumA(Low(adler), s) % BASE, SumB(Low(adler), High(adler), s) % BASE)
  }

  /** Both halves are remainders, as in every checksum. */
  predicate Reduced(adler: u32) { Low(adler) < BASE && High(adler) < BASE }

  lemma SumStep(a: nat, b: nat, s: seq<byte>, i: nat)
    requires i < |s|
    ensures SumA(a, s[..i + 1]) == SumA(a, s[..i]) + s[i]
    ensures SumB(a, b, s[..i + 1]) == SumB(a, b, s[..i]) + SumA(a, s[..i + 1])
  {
    assert s[..i + 1][..i] == s[..i];
  }

  lemma {:induction false} SumConcat(a: nat, b: nat, s: seq<byte>, t: seq<byte>)
    ensures SumA(a, s + t) == SumA(SumA(a, s), t)
    ensures SumB(a, b, s + t) == SumB(SumA(a, s), SumB(a, b, s), t)
  {
    if t == [] {
      assert s + t == s;
    } else {
      var last := |t| - 1;
      assert (s + t)[..|s + t| - 1] == s + t[..last];
      SumConcat(a, b, s, t[..last]);
    }
  }

  /** The sums depend on their starting values linearly. */
  lemma {:induction false} SumShift(a: nat, b: nat, s: seq<byte>)
    ensures SumA(a, s) == SumA(1, s) + a - 1
    ensures SumB(a, b, s) == SumB(1, 0, s) + b + |s| * a - |s|
  {
    if s != [] {
      var n := |s| - 1;
      SumShift(a, b, s[..n]);
      assert |s| * a == n * a + a;
    }
  }

  // ---- remainders

  predicate Same(x: int, y: int) { x % BASE == y % BASE }

  lemma SameBy(x: int, y: int, k: int)
    requires x == y + k * BASE
    ensures Same(x, y)
  { }

  lemma SameAdd(x: int, y: int, u: int, v: int)
    requires Same(x, y) && Same(u, v)
    ensures Same(x + u, y + v)
  {
    SameBy(x + u, y + v, x / BASE - y / BASE + u / BASE - v / BASE);
  }

  lemma SameTimes(x: int, y: int, k: int)
    requires Same(x, y)
    ensures Same(k * x, k * y)
  {
    var q := x / BASE - y / BASE;
    assert x == y + q * BASE;
    assert k * (y + q * BASE) == k * y + (k * q) * BASE;
    SameBy(k * x, k * y, k * q);
  }

  lemma SameSmall(r: nat, x: int)
    requires Same(r, x) && r < BASE
    ensures r == x % BASE
  { }

  lemma SameRemainder(x: int)
    ensures Same(x % BASE, x) && 0 <= x % BASE < BASE
  { }

  // ---- the reductions without a division: 65536 is 15 modulo BASE

  /** `CHOP`. */
  method Chop(x: u32) returns (a: u32)
    ensures Same(a, x)
    ensures x < 0x1000_0000 ==> a < 2 * BASE
    ensures a < 0x1000_0000
  {
    var tmp := x / 65536;
    a := x % 65536;
    SameBy(x, a + 15 * tmp, tmp);
    a := a + (16 * tmp - tmp);
  }

  /** `MOD28`: for values below 2^28 and, with a division, any value. */
  method Mod28(x: u32, divide: bool) returns (a: u32)
    requires divide || x < 0x1000_0000
    ensures a == x % BASE
  {
    if divide { return x % BASE; }
    a := Chop(x);
    if a >= BASE {
      SameBy(a, a - BASE, 1);
      a := a - BASE;
    }
    SameSmall(a, x);
  }

  /** `MOD`: every 32-bit value. */
  method Mod(x: u32, divide: bool) returns (a: u32)
    ensures a == x % BASE
  {
    if divide { return x % BASE; }
    a := Chop(x);
    a := Mod28(a, false);
  }

  /** `MOD63`: every value of a signed 64-bit length that is not negative. */
  method Mod63(x: int, divide: bool) returns (a: int)
    requires 0 <= x < 0x8000_0000_0000_0000
    ensures a == x % BASE
  {
    if divide { return x % BASE; }
    var tmp := x / 0x1_0000_0000;
    a := x % 0x1_0000_0000;
    SameBy(x, a + 225 * tmp, 65551 * tmp);
    a := a + (256 * tmp - 32 * tmp + tmp);
    tmp := a / 65536;
    SameBy(a, a % 65536 + 15 * tmp, tmp);
    a := a % 65536;
    a := a + (16 * tmp - tmp);
    tmp := a / 65536;
    SameBy(a, a % 65536 + 15 * tmp, tmp);
    a := a % 65536;
    a := a + (16 * tmp - tmp);
    if a >= BASE {
      SameBy(a, a - BASE, 1);
      a := a - BASE;
    }
    SameSmall(a, x);
  }

  // ---- NMAX bytes between two reductions

  /** The largest second sum after `n` bytes of 255, the sums starting from `top`. */
  function Peak(top: nat, n: nat): nat {
    if n == 0 then top else Peak(top, n - 1) + top + 255 * n
  }

  lemma {:induction false} PeakClosed(top: nat, n: nat)
    ensures 2 * Peak(top, n) == 255 * n * (n + 1) + 2 * (n + 1) * top
    decreases n
  {
    if n > 0 {
      PeakClosed(top, n - 1);
      assert 255 * n * (n + 1) == 255 * (n - 1) * n + 510 * n;
      assert 2 * (n + 1) * top == 2 * n * top + 2 * top;
    }
  }

  lemma {:induction false} PeakMonotone(top: nat, m: nat, n: nat)
    requires m <= n
    ensures Peak(top, m) + (n - m) <= Peak(top, n) || m == n
    ensures Peak(top, m) <= Peak(top, n)
    decreases n
  {
    if m < n { PeakMonotone(top, m, n - 1); }
  }

  /** NMAX is the largest number of bytes whose sums are sure to fit in 32 bits. */
  lemma NmaxIsLargest(n: nat)
    ensures Peak(BASE - 1, n) <= 0xffff_ffff <==> n <= NMAX
  {
    hide Peak;
    PeakClosed(BASE - 1, NMAX);
    PeakClosed(BASE - 1, NMAX + 1);
    if n <= NMAX {
      PeakMonotone(BASE - 1, n, NMAX);
    } else {
      PeakMonotone(BASE - 1, NMAX + 1, n);
    }
  }

  /** Sums that start from any 16-bit halves fit too. */
  lemma NmaxFits(n: nat)
    requires n <= NMAX
    ensures Peak(65535, n) <= 0xffff_ffff
  {
    hide Peak;
    PeakClosed(65535, NMAX);
    PeakMonotone(65535, n, NMAX);
  }

  /** The pair of sums after a prefix, up to a multiple of BASE. */
  ghost predicate Tracks(adler: u32, sum2: u32, start: u32, s: seq<byte>) {
    Same(adler, SumA(Low(start), s)) && Same(sum2, SumB(Low(start), High(start), s))
  }

  /** Up to NMAX bytes added without a reduction. */
  method AddBytes(buf: array<byte>, from: nat, n: nat, adler0: u32, sum0: u32, ghost start: u32)
    returns (adler: u32, sum2: u32)
    requires from + n <= buf.Length && n <= NMAX
    requires adler0 < 65536 && sum0 < 65536
    requires Tracks(adler0, sum0, start, buf[..from])
    ensures Tracks(adler, sum2, start, buf[..from + n])
    ensures adler <= adler0 + 255 * n && sum2 <= Peak(65535, n)
  {
    hide Same, SumA, SumB;
    adler, sum2 := adler0, sum0;
    for i := 0 to n
      invariant adler <= adler0 + 255 * i && sum2 <= Peak(65535, i)
      invariant Tracks(adler, sum2, start, buf[..from + i])
    {
      NmaxFits(i + 1);
      ghost var s := buf[..];
      assert s[..from + i] == buf[..from + i] && s[..from + i + 1] == buf[..from + i + 1];
      SumStep(Low(start), High(start), s, from + i);
      SameSelf(buf[from + i]);
      SameAdd(adler, SumA(Low(start), s[..from + i]), buf[from + i], buf[from + i]);
      adler := adler + buf[from + i];
      SameAdd(sum2, SumB(Low(start), High(start), s[..from + i]), adler, SumA(Low(start), s[..from + i + 1]));
      sum2 := sum2 + adler;
    }
  }

  lemma SameSelf(x: int)
    ensures Same(x, x)
  { }

  /** Both reductions after a block. */
  method ReduceBoth(adler0: u32, sum0: u32, divide: bool, ghost start: u32, ghost s: seq<byte>)
    returns (adler: u32, sum2: u32)
    requires Tracks(adler0, sum0, start, s)
    ensures adler < BASE && sum2 < BASE && Tracks(adler, sum2, start, s)
  {
    hide SumA, SumB;
    adler := Mod(adler0, divide);
    sum2 := Mod(sum0, divide);
  }

  lemma JoinIs(adler: u32, sum2: u32, start: u32, s: seq<byte>)
    requires Tracks(adler, sum2, start, s) && adler < BASE && sum2 < BASE
    ensures Join(adler, sum2) == Checksum(start, s)
  { hide SumA, SumB, Join; }

  /**
   * `adler32`: the sums reduced once. A single byte is folded in with one subtraction from each
   * sum; that is enough exactly if OneByteFits.
   */
  method Adler32(adler: u32, buf: array?<byte>, len: nat, divide: bool) returns (r: u32)
    requires buf == null ==> len != 1
    requires buf != null ==> len <= buf.Length
    ensures buf == null ==> r == 1
    ensures buf != null && len != 1 ==> r == Checksum(adler, buf[..len])
    ensures buf != null && len == 1 ==> (r == Checksum(adler, buf[..len]) <==> OneByteFits(adler, buf[0]))
    ensures buf != null && Reduced(adler) ==> r == Checksum(adler, buf[..len])
  {
    hide Same, SumA, SumB, Join, Checksum;
    var sum2: u32 := High(adler);
    var sum1: u32 := Low(adler);
    if len == 1 {
      r := OneByte(adler, buf[0]);
      assert buf[..1] == [buf[0]];
      ReducedFits(adler, buf[0]);
      return;
    }
    if buf == null { return 1; }
    Start(adler);
    assert buf[..0] == [];
    if len < 16 {
      r := FewBytes(adler, buf, len, divide);
      return;
    }
    var at := 0;
    while len - at >= NMAX
      invariant at <= len && sum1 < 65536 && sum2 < 65536
      invariant Tracks(sum1, sum2, adler, buf[..at])
      invariant at > 0 ==> sum1 < BASE && sum2 < BASE
    {
      sum1, sum2 := AddBytes(buf, at, NMAX, sum1, sum2, adler);
      at := at + NMAX;
      sum1, sum2 := ReduceBoth(sum1, sum2, divide, adler, buf[..at]);
    }
    if at < len {
      sum1, sum2 := AddBytes(buf, at, len - at, sum1, sum2, adler);
      at := len;
      sum1, sum2 := ReduceBoth(sum1, sum2, divide, adler, buf[..at]);
    }
    JoinIs(sum1, sum2, adler, buf[..len]);
    r := Join(sum1, sum2);
  }

  lemma Start(adler: u32)
    ensures Tracks(Low(adler), High(adler), adler, [])
  { }

  lemma OneByteSums(adler: u32, b: byte)
    ensures SumA(Low(adler), [b]) == Low(adler) + b
    ensures SumB(Low(adler), High(adler), [b]) == High(adler) + Low(adler) + b
  {
    assert [b][..0] == [];
  }

  /** One subtraction of BASE reduces the second sum. */
  predicate OneByteFits(adler: u32, b: byte) { High(adler) + (Low(adler) + b) % BASE < 2 * BASE }

  lemma ReducedFits(adler: u32, b: byte)
    ensures Reduced(adler) ==> OneByteFits(adler, b)
  { }

  /** A running checksum for which it is not: 65534 is left in the upper half where 13 is due. */
  lemma OneByteMisfit()
    ensures var adler := 0xffff_fff0; !OneByteFits(adler, 0) && !Reduced(adler)
    ensures High(Checksum(0xffff_fff0, [0])) == 13
  {
    hide SumA, SumB, Join;
    OneByteSums(0xffff_fff0, 0);
  }

  method OneByte(adler: u32, b: byte) returns (r: u32)
    ensures Low(r) == Low(Checksum(adler, [b]))
    ensures r == Checksum(adler, [b]) <==> OneByteFits(adler, b)
    ensures !OneByteFits(adler, b) ==> High(r) == High(Checksum(adler, [b])) + BASE
  {
    hide SumA, SumB, Join;
    OneByteSums(adler, b);
    var sum2: u32 := High(adler);
    var sum1: u32 := Low(adler);
    sum1 := sum1 + b;
    if sum1 >= BASE { sum1 := sum1 - BASE; }
    assert sum1 == (Low(adler) + b) % BASE;
    SecondSum(High(adler), Low(adler) + b);
    sum2 := sum2 + sum1;
    if sum2 >= BASE { sum2 := sum2 - BASE; }
    r := Join(sum1, sum2);
  }

  lemma SecondSum(high: nat, sum1: nat)
    requires high < 65536
    ensures var full := high + sum1 % BASE;
      (full < BASE ==> full == (high + sum1) % BASE) &&
          (BASE <= full < 2 * BASE ==> full - BASE == (high + sum1) % BASE)
      && (full >= 2 * BASE ==> full - 2 * BASE == (high + sum1) % BASE)
  {
    SameBy(high + sum1 % BASE, high + sum1, -(sum1 / BASE));
  }

  /** Fewer than 16 bytes: the first sum exceeds BASE at most once. */
  method FewBytes(adler: u32, buf: array<byte>, len: nat, divide: bool) returns (r: u32)
    requires len < 16 && len <= buf.Length
    ensures r == Checksum(adler, buf[..len])
  {
    hide SumA, SumB, Join, Checksum, Same;
    Start(adler);
    assert buf[..0] == [];
    var sum1: u32, sum2: u32 := AddBytes(buf, 0, len, Low(adler), High(adler), adler);
    PeakFew(len);
    if sum1 >= BASE {
      SameBy(sum1, sum1 - BASE, 1);
      SameThrough(sum1 - BASE, sum1, SumA(Low(adler), buf[..len]));
      sum1 := sum1 - BASE;
    }
    SameRemainder(sum2);
    SameThrough(sum2 % BASE, sum2, SumB(Low(adler), High(adler), buf[..len]));
    sum2 := Mod28(sum2, divide);
    JoinIs(sum1, sum2, adler, buf[..len]);
    r := Join(sum1, sum2);
  }

  lemma SameThrough(x: int, y: int, z: int)
    requires Same(x, y) || Same(y, x)
    requires Same(y, z)
    ensures Same(x, z)
  { }

  lemma PeakFew(n: nat)
    requires n < 16
    ensures Peak(65535, n) < 0x1000_0000
  {
    hide Peak;
    PeakClosed(65535, 15);
    PeakMonotone(65535, n, 15);
  }

  // ---- concatenation

  lemma SumSame(a: nat, b: nat, c: nat, d: nat, s: seq<byte>)
    requires Same(a, c) && Same(b, d)
    ensures Same(SumA(a, s), SumA(c, s)) && Same(SumB(a, b, s), SumB(c, d, s))
  {
    hide Same, SumA, SumB;
    SumShift(a, b, s);
    SumShift(c, d, s);
    SameSelf(SumA(1, s) - 1);
    SameAdd(a, c, SumA(1, s) - 1, SumA(1, s) - 1);
    SameTimes(a, c, |s|);
    SameAdd(b, d, |s| * a, |s| * c);
    SameSelf(SumB(1, 0, s) - |s|);
    SameAdd(b + |s| * a, d + |s| * c, SumB(1, 0, s) - |s|, SumB(1, 0, s) - |s|);
  }

  /** A checksum may be computed piece by piece. */
  lemma ChecksumConcat(start: u32, s: seq<byte>, t: seq<byte>)
    ensures Checksum(Checksum(start, s), t) == Checksum(start, s + t)
  {
    hide SumA, SumB, Join;
    var a, b := SumA(Low(start), s), SumB(Low(start), High(start), s);
    SumConcat(Low(start), High(start), s, t);
    SumSame(a % BASE, b % BASE, a, b, t);
  }

  /** What the halves of a combination are, up to multiples of BASE. */
  lemma CombineSums(adler1: u32, t: seq<byte>)
    ensures var adler2 := Checksum(1, t);
      Same(Low(adler1) + Low(adler2) - 1, SumA(Low(adler1), t))
      && Same(|t| * Low(adler1) - |t| + High(adler1) + High(adler2), SumB(Low(adler1), High(adler1), t))
  {
    hide SumA, SumB, Join;
    SumShift(Low(adler1), High(adler1), t);
    var a, b := SumA(1, t), SumB(1, 0, t);
    SameBy(Low(adler1) + a % BASE - 1, Low(adler1) + a - 1, -(a / BASE));
    SameBy(|t| * Low(adler1) - |t| + High(adler1) + b % BASE, |t| * Low(adler1) - |t| + High(adler1) + b, -(b / BASE));
  }

  lemma CapProduct(rem: nat, sum1: nat)
    requires rem < BASE && sum1 < 65536
    ensures 0 <= rem * sum1 < 0x1_0000_0000
  {
    assert rem * sum1 <= BASE * sum1;
  }

  /** `a | (b << 16)` in a word of 32 bits, also where a half has more than 16. */
  function OrHalves(a: nat, b: nat): (r: u32)
    requires a < 0x2_0000
    ensures a < 65536 && b < 65536 ==> r == Join(a, b)
  {
    a % 65536 + 65536 * ((if a >= 65536 && b % 2 == 0 then b + 1 else b) % 65536)
  }

  /** Two subtractions of BASE reduce the first half, three the second. */
  predicate Combines(adler1: u32, adler2: u32, len: nat) {
    && Low(adler1) + Low(adler2) <= 2 * BASE
    && (len % BASE * Low(adler1)) % BASE + High(adler1) + High(adler2) + BASE - len % BASE < 4 * BASE
  }

  lemma ReducedCombines(adler1: u32, adler2: u32, len: nat)
    ensures Reduced(adler1) && Reduced(adler2) ==> Combines(adler1, adler2, len)
  { }

  /**
   * `adler32_combine_`: the checksum of a concatenation from those of its parts. The conditional
   * subtractions fully reduce both halves of any two checksums, and of other words if they Combine.
   */
  method Adler32Combine(adler1: u32, adler2: u32, len2: int, divide: bool) returns (r: u32)
    requires len2 < 0x8000_0000_0000_0000
    ensures len2 < 0 ==> r == 0xffff_ffff
    ensures len2 >= 0 && Combines(adler1, adler2, len2) ==> Reduced(r)
    ensures len2 >= 0 && Reduced(adler1) && Reduced(adler2) ==> Reduced(r)
    ensures forall t: seq<byte> :: len2 == |t| && adler2 == Checksum(1, t) ==>
              (r == Checksum(adler1, t) <==> Combines(adler1, adler2, len2))
    ensures forall s: seq<byte>, t: seq<byte> ::
              adler1 == Checksum(1, s) && adler2 == Checksum(1, t) && len2 == |t| ==> r == Checksum(1, s + t)
  {
    hide SumA, SumB, Join, Same, Checksum, Combines, OrHalves;
    if len2 < 0 { return 0xffff_ffff; }
    ReducedCombines(adler1, adler2, len2);
    var rem: u32 := Mod63(len2, divide);
    var sum1: u32 := Low(adler1);
    CapProduct(rem, sum1);
    var sum2: u32 := rem * sum1;
    sum2 := Mod(sum2, divide);
    CombineHalves(adler1, adler2, len2, rem, sum2);
    sum1 := sum1 + (Low(adler2) + BASE - 1);
    sum2 := sum2 + (High(adler1) + High(adler2) + BASE - rem);
    ghost var full1, full2 := sum1, sum2;
    CombinesIs(adler1, adler2, len2, full1, full2);
    if sum1 >= BASE { sum1 := sum1 - BASE; }
    if sum1 >= BASE { sum1 := sum1 - BASE; }
    if sum2 >= 2 * BASE { sum2 := sum2 - 2 * BASE; }
    if sum2 >= BASE { sum2 := sum2 - BASE; }
    r := OrHalves(sum1, sum2);
    forall t: seq<byte> | len2 == |t| && adler2 == Checksum(1, t)
      ensures r == Checksum(adler1, t) <==> Combines(adler1, adler2, len2)
    {
      Conclude(adler1, adler2, t, full1, full2, sum1, sum2);
    }
    forall s: seq<byte>, t: seq<byte> | adler1 == Checksum(1, s) && adler2 == Checksum(1, t) && len2 == |t|
      ensures r == Checksum(1, s + t)
    {
      ChecksumReduced(1, s);
      ChecksumReduced(1, t);
      ChecksumConcat(1, s, t);
    }
  }

  lemma ChecksumReduced(start: u32, s: seq<byte>)
    ensures Reduced(Checksum(start, s))
  { hide SumA, SumB, Join; }

  lemma CombinesIs(adler1: u32, adler2: u32, len: nat, full1: int, full2: int)
    requires full1 == Low(adler1) + (Low(adler2) + BASE - 1)
    requires full2 == (len % BASE * Low(adler1)) % BASE + (High(adler1) + High(adler2) + BASE - len % BASE)
    ensures Combines(adler1, adler2, len) <==> full1 < 3 * BASE && full2 < 4 * BASE
    ensures 0 <= full1 && 0 <= full2
  { }

  /** The unreduced halves against the sums of the parts. */
  lemma CombineHalves(adler1: u32, adler2: u32, len: nat, rem: nat, product: nat)
    requires rem == len % BASE && product == (rem * Low(adler1)) % BASE
    ensures Same(Low(adler1) + (Low(adler2) + BASE - 1), Low(adler1) + Low(adler2) - 1)
    ensures Same(product + (High(adler1) + High(adler2) + BASE - rem),
        len * Low(adler1) - len + High(adler1) + High(adler2))
  {
    SameBy(Low(adler1) + (Low(adler2) + BASE - 1), Low(adler1) + Low(adler2) - 1, 1);
    hide Same;
    var q := len / BASE;
    var p := (rem * Low(adler1)) / BASE;
    assert len == rem + q * BASE;
    assert (rem + q * BASE) * Low(adler1) == rem * Low(adler1) + (q * Low(adler1)) * BASE;
    var x := product + (High(adler1) + High(adler2) + BASE - rem);
    var y := len * Low(adler1) - len + High(adler1) + High(adler2);
    assert x == y + (1 - p + q - q * Low(adler1)) * BASE;
    SameBy(x, y, 1 - p + q - q * Low(adler1));
  }

  /** A value reduced by subtractions is the remainder exactly if it has become small enough. */
  lemma Subtracted(full: int, k: int, sum: nat, y: int)
    requires full == sum + k * BASE && Same(full, y)
    ensures sum < BASE <==> sum == y % BASE
  { }

  lemma Conclude(adler1: u32, adler2: u32, t: seq<byte>, full1: int, full2: int, sum1: nat, sum2: nat)
    requires adler2 == Checksum(1, t)
    requires full1 == Low(adler1) + (Low(adler2) + BASE - 1) && Same(full1, Low(adler1) + Low(adler2) - 1)
    requires full2 == (|t| % BASE * Low(adler1)) % BASE + (High(adler1) + High(adler2) + BASE - |t| % BASE)
    requires Same(full2, |t| * Low(adler1) - |t| + High(adler1) + High(adler2))
    requires sum1 == if full1 < BASE then full1 else if full1 < 2 * BASE then full1 - BASE else full1 - 2 * BASE
    requires sum2 == if full2 < BASE then full2
                     else if full2 < 2 * BASE then full2 - BASE
                     else if full2 < 3 * BASE then full2 - 2 * BASE
                     else full2 - 3 * BASE
    ensures sum1 < 0x2_0000 && (OrHalves(sum1, sum2) == Checksum(adler1, t) <==> Combines(adler1, adler2, |t|))
  {
    hide Join, SumA, SumB;
    ChecksumReduced(1, t);
    CombineSums(adler1, t);
    CombinesIs(adler1, adler2, |t|, full1, full2);
    var a, b := SumA(Low(adler1), t), SumB(Low(adler1), High(adler1), t);
    var k1 := if full1 < BASE then 0 else if full1 < 2 * BASE then 1 else 2;
    var k2 := if full2 < BASE then 0 else if full2 < 2 * BASE then 1 else if full2 < 3 * BASE then 2 else 3;
    Subtracted(full1, k1, sum1, a);
    Subtracted(full2, k2, sum2, b);
  }

  lemma {:induction false} SumOfCopies(a: nat, c: byte, n: nat)
    ensures SumA(a, seq(n, _ => c)) == a + n * c
  {
    var s := seq(n, _ => c);
    if n > 0 {
      assert s[..n - 1] == seq(n - 1, _ => c);
      SumOfCopies(a, c, n - 1);
    }
  }

  /** Words that do not Combine: 256 bytes of 255 and one of 230 behind the word 65535. */
  lemma CombineMisfit()
    ensures var t := seq(256, _ => 255) + [230]; !Combines(65535, Checksum(1, t), |t|)
  {
    hide SumB;
    var s: seq<byte> := seq(256, _ => 255);
    var t: seq<byte> := s + [230];
    SumOfCopies(1, 255, 256);
    assert t[..256] == s;
    assert SumA(1, t) == SumA(1, s) + 230 == 65511;
    assert Low(65535) == 65535;
  }

  // ----- A known value -----

  /** The checksum of the nine bytes "123456789". */
  lemma KnownChecksum(s: seq<byte>)
    requires s == [0x31, 0x32, 0x33, 0x34, 0x35, 0x36, 0x37, 0x38, 0x39]
    ensures Checksum(1, s) == 0x091e01de
  {
    hide SumA, SumB;
    SumNone(1, 0, s);
    FedNext(s, 0, 49, 1, 0);
    FedNext(s, 1, 50, 50, 50);
    FedNext(s, 2, 51, 100, 150);
    FedNext(s, 3, 52, 151, 301);
    FedNext(s, 4, 53, 203, 504);
    FedNext(s, 5, 54, 256, 760);
    FedNext(s, 6, 55, 310, 1070);
    FedNext(s, 7, 56, 365, 1435);
    FedNext(s, 8, 57, 421, 1856);
    assert s[..9] == s;
  }

  lemma FedNext(s: seq<byte>, k: nat, c: byte, a: nat, b: nat)
    requires k < |s| && s[k] == c && SumA(1, s[..k]) == a && SumB(1, 0, s[..k]) == b
    ensures SumA(1, s[..k + 1]) == a + c && SumB(1, 0, s[..k + 1]) == b + a + c
  {
    hide SumA, SumB;
    SumStep(1, 0, s, k);
  }

  lemma SumNone(a: nat, b: nat, s: seq<byte>)
    ensures SumA(a, s[..0]) == a && SumB(a, b, s[..0]) == b
  { }
}
