/** Products of variables, and multiples: kept apart from the arithmetic around them. */
module Multiples {

  function Times(n: int, x: int): int { n * x }

  lemma TimesStep(n: nat, x: int)
    ensures Times(0, x) == 0 && (n > 0 ==> Times(n, x) == Times(n - 1, x) + x)
  {
  }

  lemma TimesMonotone(m: int, n: int, x: int)
    requires m <= n && x >= 0
    ensures Times(m, x) <= Times(n, x)
  {
    assert (n - m) * x >= 0;
  }

  lemma TimesAdd(m: int, n: int, x: int)
    ensures Times(m + n, x) == Times(m, x) + Times(n, x)
  {
  }

  /** `v` is a multiple of `m`. */
  ghost predicate Divides(m: nat, v: int) {
    exists q: int :: Times(q, m) == v
  }

  lemma DividesZero(m: nat)
    ensures Divides(m, 0)
  {
    assert Times(0, m) == 0;
  }

  lemma DividesSelf(m: nat)
    ensures Divides(m, m)
  {
    assert Times(1, m) == m;
  }

  lemma DividesSum(m: nat, u: int, v: int)
    requires Divides(m, u) && Divides(m, v)
    ensures Divides(m, u + v) && Divides(m, u - v)
  {
    hide Times;
    var p, q :| Times(p, m) == u && Times(q, m) == v;
    TimesAdd(p, q, m);
    TimesAdd(p - q, q, m);
    assert Times(p + q, m) == u + v && Times(p - q, m) == u - v;
  }

  /** A multiple of a multiple. */
  lemma DividesTimes(m: nat, n: int, v: int)
    requires Divides(m, v)
    ensures Divides(m, Times(n, v))
  {
    var q :| Times(q, m) == v;
    assert n * (q * m) == (n * q) * m;
    assert Times(n * q, m) == Times(n, v);
  }

  /** A multiple below another is a whole step below it. */
  lemma StepBelow(m: nat, u: int, v: int)
    requires Divides(m, u) && Divides(m, v) && u < v
    ensures u + m <= v
  {
    hide Times;
    var p, q :| Times(p, m) == u && Times(q, m) == v;
    TimesAdd(p, 1, m);
    assert Times(1, m) == m by { TimesStep(1, m); }
    if p < q {
      TimesMonotone(p + 1, q, m);
    } else {
      TimesMonotone(q, p, m);
    }
  }
}
