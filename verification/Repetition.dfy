/** Equal rotations of a block: how many there are of each, and what sets of rotations they can fill. */
module Repetition {
  import opened Rotations
  import opened Permutations
  import opened Bwt
  import opened Multiples

  /** The rotations equal to rotation `i`, itself included. */
  ghost function EqualTo(b: seq<int>, i: nat): set<int>
    requires i < |b|
  {
    set j | 0 <= j < |b| && RotEq(b, i, j)
  }

  /** How many rotations equal the original: how often the block repeats what it is a repetition of. */
  ghost function Repeats(b: seq<int>): nat {
    if b == [] then 0 else |EqualTo(b, 0)|
  }

  lemma EqualNext(b: seq<int>, i: nat, j: nat)
    requires i < |b| && j < |b|
    ensures RotEq(b, i, j) <==> RotEq(b, Next(|b|, i), Next(|b|, j))
  {
    if RotEq(b, i, j) { CmpStep(b, i, j); }
    if RotEq(b, Next(|b|, i), Next(|b|, j)) { EqualRotationsBefore(b, Next(|b|, i), Next(|b|, j)); }
  }

  lemma {:induction false} NextSize(n: nat, a: set<int>)
    requires forall j :: j in a ==> 0 <= j < n
    ensures |set j | j in a :: Next(n, j)| == |a|
  {
    var next := set j | j in a :: Next(n, j);
    if exists i: int :: i in a {
      var i: int :| i in a;
      NextSize(n, a - {i});
      var rest := set j | j in a - {i} :: Next(n, j);
      assert Next(n, i) !in rest;
      assert next == rest + {Next(n, i)};
    } else {
      assert |a| == 0;
    }
  }

  /** There are equally many of each. */
  lemma {:induction false} SameNumber(b: seq<int>, i: nat)
    requires i < |b|
    ensures |EqualTo(b, i)| == Repeats(b)
  {
    if i > 0 {
      SameNumber(b, i - 1);
      var before := EqualTo(b, i - 1);
      forall j | 0 <= j < |b|
        ensures j in EqualTo(b, i) <==> Prev(|b|, j) in before
      {
        EqualNext(b, i - 1, Prev(|b|, j));
      }
      NextSize(|b|, before);
      assert (set j | j in before :: Next(|b|, j)) == EqualTo(b, i) by {
        forall j | j in EqualTo(b, i)
          ensures j in set k | k in before :: Next(|b|, k)
        {
          assert Next(|b|, Prev(|b|, j)) == j;
        }
      }
    }
  }

  /** With a rotation the set holds all equal to it. */
  ghost predicate Closed(b: seq<int>, s: set<int>) {
    && (forall i :: i in s ==> 0 <= i < |b|)
    && forall i, j :: i in s && 0 <= j < |b| && RotEq(b, i, j) ==> j in s
  }

  /** Such a set holds a multiple of that number. */
  lemma {:induction false} ClosedSize(b: seq<int>, s: set<int>)
    requires Closed(b, s)
    ensures Divides(Repeats(b), |s|)
  {
    hide Divides, RotEq;
    if exists i: int :: i in s {
      var i: int :| i in s;
      var e := EqualTo(b, i);
      SameNumber(b, i);
      RestClosed(b, s, i);
      ClosedSize(b, s - e);
      DividesSelf(Repeats(b));
      DividesSum(Repeats(b), |s - e|, |e|);
      assert s == (s - e) + e;
    } else {
      assert |s| == 0;
      DividesZero(Repeats(b));
    }
  }

  lemma RestClosed(b: seq<int>, s: set<int>, i: int)
    requires Closed(b, s) && i in s
    ensures i in EqualTo(b, i) && EqualTo(b, i) <= s && Closed(b, s - EqualTo(b, i))
  {
    var e := EqualTo(b, i);
    EqualSelf(b, i);
    forall j, k | j in s - e && 0 <= k < |b| && RotEq(b, j, k)
      ensures k in s - e
    {
      if k in e {
        EqualBoth(b, i, k, j);
      }
    }
  }

  lemma EqualSelf(b: seq<int>, i: nat)
    requires i < |b|
    ensures RotEq(b, i, i)
  {
    CmpReflexive(b, i, |b|);
  }

  lemma EqualBoth(b: seq<int>, i: nat, j: nat, k: nat)
    requires i < |b| && j < |b| && k < |b| && RotEq(b, i, j) && RotEq(b, k, j)
    ensures RotEq(b, i, k)
  {
    CmpAntisymmetric(b, k, j, |b|);
    CmpAntisymmetric(b, i, j, |b|);
    CmpTransitive(b, i, j, k, |b|);
    CmpTransitive(b, k, j, i, |b|);
    CmpAntisymmetric(b, i, k, |b|);
  }

  /** Some but not all of the rotations equal to one are too few for a multiple. */
  lemma SomeEqual(b: seq<int>, i: nat, j: nat, c: set<int>)
    requires i < |b| && j < |b| && c <= EqualTo(b, i) && i in c && RotEq(b, i, j) && j !in c
    ensures !Divides(Repeats(b), |c|)
  {
    hide RotEq;
    SameNumber(b, i);
    var e := EqualTo(b, i);
    assert j in e;
    SubsetSize(c, e - {j});
    assert |c| < |e|;
    assert c != {};
    if Divides(Repeats(b), |c|) {
      DividesZero(Repeats(b));
      StepBelow(Repeats(b), 0, |c|);
    }
  }

  /** The block repeats nothing exactly if every rotation is the only one of its kind. */
  lemma OnceIfPrimitive(b: seq<int>)
    requires b != []
    ensures Primitive(b) <==> Repeats(b) == 1
  {
    EqualSelf(b, 0);
    var e := EqualTo(b, 0);
    assert 0 in e;
    if Primitive(b) {
      assert e == {0};
    } else {
      var i :| 0 < i < |b| && RotEq(b, 0, i);
      SubsetSize({0, i}, e);
    }
  }
}
