/** Congruences modulo a positive m, written as equality of remainders so that chains of
    congruences are chains of equalities. */
module ModularArithmetic {

  /** a and b have the same remainder modulo m. */
  ghost predicate Congruent(a: int, b: int, m: int)
    requires m > 0
  {
    a % m == b % m
  }

  lemma DivisionIsUnique(m: int, q: int, r: int, q': int, r': int)
    requires m > 0 && q * m + r == q' * m + r'
    requires 0 <= r < m && 0 <= r' < m
    ensures q == q' && r == r'
  {
    if q > q' {
      MultipleIsLarge(q - q', m, q * m - q' * m);
    } else if q < q' {
      MultipleIsLarge(q' - q, m, q' * m - q * m);
    }
  }

  lemma MultipleIsLarge(k: int, m: int, d: int)
    requires k >= 1 && m >= 1 && d == k * m
    ensures d >= m
  {
  }

  lemma AddMultiple(a: int, k: int, m: int)
    requires m > 0
    ensures Congruent(a + k * m, a, m)
  {
    var b := a + k * m;
    assert (a / m + k) * m == (a / m) * m + k * m;
    DivisionIsUnique(m, a / m + k, a % m, b / m, b % m);
  }

  /** Congruent numbers differ by a multiple of m. */
  lemma Difference(a: int, b: int, m: int) returns (k: int)
    requires m > 0 && Congruent(a, b, m)
    ensures a == b + k * m
  {
    k := a / m - b / m;
    assert k * m == (a / m) * m - (b / m) * m;
  }

  lemma Reduce(a: int, m: int)
    requires m > 0
    ensures 0 <= a % m < m && Congruent(a % m, a, m)
  {
    DivisionIsUnique(m, 0, a % m, (a % m) / m, (a % m) % m);
  }

  lemma Small(a: int, m: int)
    requires 0 <= a < m
    ensures a % m == a
  {
    DivisionIsUnique(m, 0, a, a / m, a % m);
  }

  lemma AddCongruent(a: int, a': int, b: int, b': int, m: int)
    requires m > 0 && Congruent(a, a', m) && Congruent(b, b', m)
    ensures Congruent(a + b, a' + b', m)
  {
    var j := Difference(a, a', m);
    var k := Difference(b, b', m);
    AddMultiple(a' + b, j, m);
    AddMultiple(a' + b', k, m);
  }

  lemma SubCongruent(a: int, a': int, b: int, b': int, m: int)
    requires m > 0 && Congruent(a, a', m) && Congruent(b, b', m)
    ensures Congruent(a - b, a' - b', m)
  {
    var j := Difference(a, a', m);
    var k := Difference(b', b, m);
    AddMultiple(a' - b, j, m);
    AddMultiple(a' - b', k, m);
  }

  lemma MulCongruent(a: int, a': int, b: int, b': int, m: int)
    requires m > 0 && Congruent(a, a', m) && Congruent(b, b', m)
    ensures Congruent(a * b, a' * b', m)
  {
    var j := Difference(a, a', m);
    var k := Difference(b, b', m);
    ExpandProduct(a', b', j, k, m);
    AddMultiple(a' * b', j * b' + a' * k + j * k * m, m);
  }

  lemma ExpandProduct(a: int, b: int, j: int, k: int, m: int)
    ensures (a + j * m) * (b + k * m) == a * b + (j * b + a * k + j * k * m) * m
  {
  }
}
