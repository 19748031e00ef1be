/** Permutations of 0..n-1 held in sequences, and the counting arguments the codec relies on. */
module Permutations {

  ghost predicate Distinct<T>(s: seq<T>) {
    forall x, y :: 0 <= x < y < |s| ==> s[x] != s[y]
  }

  ghost predicate IsPerm(p: seq<int>, n: nat) {
    && |p| == n
    && (forall x :: 0 <= x < n ==> 0 <= p[x] < n)
    && Distinct(p)
  }

  ghost function Elems<T(!new)>(s: seq<T>): set<T> {
    set x | x in s
  }

  /** The set {0, ..., n-1}. */
  ghost function Range(n: nat): (r: set<int>)
    ensures forall v :: v in r <==> 0 <= v < n
  {
    if n == 0 then {} else Range(n - 1) + {n - 1}
  }

  lemma {:induction false} RangeSize(n: nat)
    ensures |Range(n)| == n
  {
    if n == 0 {
      assert Range(0) == {};
    } else {
      RangeSize(n - 1);
      assert Range(n) == Range(n - 1) + {n - 1};
    }
  }

  lemma {:induction false} DistinctSize<T(!new)>(s: seq<T>)
    requires Distinct(s)
    ensures |Elems(s)| == |s|
  {
    if s == [] {
      assert Elems(s) == {};
    } else {
      DistinctSize(s[1..]);
      assert s == [s[0]] + s[1..];
      assert Elems(s) == Elems(s[1..]) + {s[0]};
      assert s[0] !in s[1..];
    }
  }

  lemma SubsetSize<T>(a: set<T>, b: set<T>)
    requires a <= b
    ensures |a| <= |b|
    ensures |a| == |b| ==> a == b
  {
    assert b == a + (b - a);
    assert |b| == |a| + |b - a|;
  }

  /** A permutation hits every value. */
  lemma PermOnto(p: seq<int>, n: nat, v: int)
    requires IsPerm(p, n) && 0 <= v < n
    ensures v in p
  {
    DistinctSize(p);
    RangeSize(n);
    assert Elems(p) <= Range(n);
    SubsetSize(Elems(p), Range(n));
    assert v in Range(n);
  }

  /** The position of `v` in a permutation. */
  ghost function IndexOf(p: seq<int>, n: nat, v: int): (x: nat)
    requires IsPerm(p, n) && 0 <= v < n
    ensures x < n && p[x] == v
  {
    PermOnto(p, n, v);
    var x :| 0 <= x < n && p[x] == v;
    x
  }

  /** Distinct values drawn from a set bound the length of a sequence. */
  lemma Pigeonhole<T(!new)>(s: seq<T>, pool: set<T>)
    requires Distinct(s) && Elems(s) <= pool
    ensures |s| <= |pool|
    ensures |s| == |pool| ==> Elems(s) == pool
  {
    DistinctSize(s);
    SubsetSize(Elems(s), pool);
  }

  lemma {:induction false} SeqSetSize<T(!new)>(s: seq<T>)
    ensures |Elems(s)| <= |s|
  {
    if s == [] {
      assert Elems(s) == {};
    } else {
      SeqSetSize(s[1..]);
      assert s == [s[0]] + s[1..];
      assert Elems(s) == Elems(s[1..]) + {s[0]};
    }
  }

  /** A rearrangement of a permutation is a permutation. */
  lemma MultisetPerm(p: seq<int>, q: seq<int>, n: nat)
    requires IsPerm(p, n) && multiset(p) == multiset(q)
    ensures IsPerm(q, n)
  {
    assert |multiset(p)| == |p| && |multiset(q)| == |q|;
    forall x | 0 <= x < |q|
      ensures 0 <= q[x] < n
    {
      assert q[x] in multiset(q);
      assert q[x] in p;
    }
    forall x, y | 0 <= x < y < |q|
      ensures q[x] != q[y]
    {
      if q[x] == q[y] {
        assert q == q[..y] + q[y..];
        assert q[x] in multiset(q[..y]) && q[y] in multiset(q[y..]);
        assert multiset(q)[q[x]] >= 2;
        DistinctCount(p, q[x]);
      }
    }
  }

  lemma {:induction false} DistinctCount<T>(p: seq<T>, v: T)
    requires Distinct(p)
    ensures multiset(p)[v] <= 1
  {
    if p != [] {
      DistinctCount(p[1..], v);
      assert p == [p[0]] + p[1..];
      assert p[0] !in p[1..];
    }
  }

  /** Rearranging distinct values keeps them distinct and keeps the set of them. */
  lemma BagDistinct<T(!new)>(p: seq<T>, q: seq<T>)
    requires multiset(p) == multiset(q) && Distinct(p)
    ensures Distinct(q) && Elems(p) == Elems(q) && |p| == |q|
  {
    assert |multiset(p)| == |p| && |multiset(q)| == |q|;
    forall x, y | 0 <= x < y < |q|
      ensures q[x] != q[y]
    {
      if q[x] == q[y] {
        assert q == q[..y] + q[y..];
        assert q[x] in multiset(q[..y]) && q[y] in multiset(q[y..]);
        DistinctCount(p, q[x]);
      }
    }
    forall v
      ensures v in p <==> v in q
    {
      assert v in multiset(p) <==> v in multiset(q);
    }
  }
}
