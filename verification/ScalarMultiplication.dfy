/** The double-and-add loop, the recovery of a point from its abscissa, and the facts about
    multiples of a point that key agreement and signatures rest on. */
module ScalarMultiplication {
  import opened Secp256k1
  import opened Wrappers
  import Mod = ModularArithmetic

  // ---- Hypotheses on the group ---------------------------------------------------------

  /** The affine law is associative on the curve. */
  ghost predicate Associative(c: Curve)
    requires c.p > 2
  {
    forall a, b, d :: AssociativeAt(c, a, b, d)
  }

  ghost predicate AssociativeAt(c: Curve, a: Point, b: Point, d: Point)
    requires c.p > 2
  {
    c.OnCurve(a) && c.OnCurve(b) && c.OnCurve(d) ==> c.Add(c.Add(a, b), d) == c.Add(a, c.Add(b, d))
  }

  /** No point of the curve has abscissa zero: 7 is not a square. */
  ghost predicate SevenIsNotASquare(c: Curve)
    requires c.p > 0
  {
    forall y: int :: !RootOfSeven(c, y)
  }

  ghost predicate RootOfSeven(c: Curve, y: int)
    requires c.p > 0
  {
    c.Eq(y * y, 7)
  }

  ghost function G(c: Curve): Point { Affine(c.gx, c.gy) }

  /** What is assumed of the curve: the field inverse, associativity, a base point on the curve
      whose n-fold sum is the point at infinity, and no point with abscissa zero. */
  ghost predicate Group(c: Curve) {
    && c.Field()
    && c.n > 1
    && Associative(c)
    && c.OnCurve(G(c))
    && Multiple(c, c.n, G(c)) == Infinity
    && SevenIsNotASquare(c)
  }

  // ---- Multiples -----------------------------------------------------------------------

  /** a + a + ... + a, k times. */
  ghost function Multiple(c: Curve, k: nat, a: Point): Point
    requires c.p > 2
  {
    if k == 0 then Infinity else c.Add(Multiple(c, k - 1, a), a)
  }

  lemma {:induction false} MultipleOnCurve(c: Curve, k: nat, a: Point)
    requires c.Field() && c.OnCurve(a)
    ensures c.OnCurve(Multiple(c, k, a))
  {
    if k > 0 {
      MultipleOnCurve(c, k - 1, a);
      c.AddOnCurve(Multiple(c, k - 1, a), a);
    }
  }

  lemma {:induction false} MultipleAdd(c: Curve, j: nat, k: nat, a: Point)
    requires c.Field() && Associative(c) && c.OnCurve(a)
    ensures Multiple(c, j + k, a) == c.Add(Multiple(c, j, a), Multiple(c, k, a))
  {
    if k > 0 {
      hide Curve.Add, Curve.OnCurve;
      MultipleAdd(c, j, k - 1, a);
      MultipleOnCurve(c, j, a);
      MultipleOnCurve(c, k - 1, a);
      assert AssociativeAt(c, Multiple(c, j, a), Multiple(c, k - 1, a), a);
      assert j + k - 1 == j + (k - 1);
    }
  }

  lemma {:induction false} MultipleMul(c: Curve, j: nat, k: nat, a: Point)
    requires c.Field() && Associative(c) && c.OnCurve(a)
    ensures j * k >= 0 && Multiple(c, j * k, a) == Multiple(c, j, Multiple(c, k, a))
    decreases j
  {
    if j > 0 {
      var b := Multiple(c, k, a);
      assert Multiple(c, j, b) == c.Add(Multiple(c, j - 1, b), b);
      hide Curve.Add, Curve.OnCurve, Multiple;
      MultipleMul(c, j - 1, k, a);
      var m := (j - 1) * k;
      MultipleAdd(c, m, k, a);
      assert m + k == j * k;
    } else {
      assert j * k == 0;
    }
  }

  lemma {:induction false} MultipleOfInfinity(c: Curve, k: nat)
    requires c.p > 2
    ensures Multiple(c, k, Infinity) == Infinity
  {
    if k > 0 { MultipleOfInfinity(c, k - 1); }
  }

  /** Scalars count modulo n once n times the point is infinity. */
  lemma MultipleMod(c: Curve, k: nat, a: Point)
    requires c.Field() && Associative(c) && c.OnCurve(a)
    requires c.n > 0 && Multiple(c, c.n, a) == Infinity
    ensures Multiple(c, k % c.n, a) == Multiple(c, k, a)
  {
    var q, r := k / c.n, k % c.n;
    var b := Multiple(c, r, a);
    assert c.Add(Infinity, b) == b;
    hide Curve.Add, Curve.OnCurve, Multiple;
    MultipleOfInfinity(c, q);
    MultipleMul(c, q, c.n, a);
    var m := q * c.n;
    MultipleAdd(c, m, r, a);
    assert k == m + r;
  }

  // ---- Opposite points -----------------------------------------------------------------

  lemma AddNeg(c: Curve, a: Point)
    requires c.Field() && c.OnCurve(a)
    ensures c.Add(a, c.Neg(a)) == Infinity && c.OnCurve(c.Neg(a))
  {
    if a.Affine? {
      NegResidue(c, a.y, (c.p - a.y) % c.p);
    }
  }

  lemma NegResidue(c: Curve, y: int, y': int)
    requires c.p > 0 && y' == (c.p - y) % c.p
    ensures 0 <= y' < c.p && c.Eq(y + y', 0) && c.Eq(y' * y', y * y)
  {
    c.EqRed(c.p - y);
    c.EqAdd(y, y, y', c.p - y);
    Mod.AddMultiple(0, 1, c.p);
    c.EqMul(y', c.p - y, y', c.p - y);
    NegSquare(c.p, y);
    Mod.AddMultiple(y * y, c.p - 2 * y, c.p);
  }

  lemma NegSquare(p: int, y: int)
    ensures (p - y) * (p - y) == y * y + (p - 2 * y) * p
  {
  }

  /** The only point that cancels a is its opposite. */
  lemma NegUnique(c: Curve, a: Point, b: Point)
    requires c.Field() && c.OnCurve(a) && c.OnCurve(b) && c.Add(a, b) == Infinity
    ensures b == c.Neg(a)
  {
    if a.Affine? && b.Affine? {
      c.EqRed(c.p - a.y);
      Mod.AddMultiple(0, 1, c.p);
      c.EqSub(a.y + b.y, 0, a.y, a.y);
      c.EqAdd(0 - a.y, 0 - a.y, c.p, 0);
      c.EqSmall(b.y, (c.p - a.y) % c.p);
    }
  }

  /** -(k a) = k (-a). */
  lemma {:induction false} NegMultiple(c: Curve, k: nat, a: Point)
    requires c.Field() && Associative(c) && c.OnCurve(a)
    ensures c.Neg(Multiple(c, k, a)) == Multiple(c, k, c.Neg(a))
  {
    AddNeg(c, a);
    MultipleOnCurve(c, k, a);
    MultipleOnCurve(c, k, c.Neg(a));
    OppositeMultiplesCancel(c, k, a);
    NegUnique(c, Multiple(c, k, a), Multiple(c, k, c.Neg(a)));
  }

  lemma {:induction false} OppositeMultiplesCancel(c: Curve, k: nat, a: Point)
    requires c.Field() && Associative(c) && c.OnCurve(a) && c.OnCurve(c.Neg(a))
    ensures c.Add(Multiple(c, k, a), Multiple(c, k, c.Neg(a))) == Infinity
  {
    if k > 0 {
      var b := c.Neg(a);
      var u := Multiple(c, k - 1, a);
      var v := Multiple(c, k - 1, b);
      assert Multiple(c, k, a) == c.Add(u, a);
      AddNeg(c, a);
      hide Curve.Add, Curve.OnCurve, Curve.Neg, Multiple;
      OppositeMultiplesCancel(c, k - 1, a);
      MultipleOnCurve(c, k - 1, a);
      MultipleOnCurve(c, k - 1, b);
      MultipleAdd(c, 1, k - 1, b);
      MultipleOne(c, b);
      CancelMiddle(c, u, a, b, v);
    }
  }

  lemma CancelMiddle(c: Curve, u: Point, a: Point, b: Point, v: Point)
    requires c.Field() && Associative(c)
    requires c.OnCurve(u) && c.OnCurve(a) && c.OnCurve(b) && c.OnCurve(v) && c.Add(a, b) == Infinity
    ensures c.Add(c.Add(u, a), c.Add(b, v)) == c.Add(u, v)
  {
    assert c.Add(Infinity, v) == v;
    hide Curve.Add, Curve.OnCurve;
    c.AddOnCurve(b, v);
    assert AssociativeAt(c, u, a, c.Add(b, v));
    assert AssociativeAt(c, a, b, v);
  }

  /** n - k times the base point is the opposite of k times the base point. */
  lemma ComplementIsNeg(c: Curve, j: nat, k: nat)
    requires Group(c) && (j + k) % c.n == 0
    ensures Multiple(c, j, G(c)) == c.Neg(Multiple(c, k, G(c)))
  {
    MultipleMod(c, k + j, G(c));
    MultipleAdd(c, k, j, G(c));
    MultipleOnCurve(c, j, G(c));
    MultipleOnCurve(c, k, G(c));
    NegUnique(c, Multiple(c, k, G(c)), Multiple(c, j, G(c)));
  }

  /** A point with denominator one stands for itself. */
  lemma UnitDenominator(c: Curve, a: Point)
    requires c.Field() && c.OnCurve(a) && a.Affine?
    ensures var q := Jacobian(a.x, a.y, 1); c.Reduced(q) && c.JacOnCurve(q) && c.ToAffine(q) == a
  {
    var q := Jacobian(a.x, a.y, 1);
    assert c.Represents(q, a);
    c.RepresentsUnique(q, a);
    c.JacOnCurveIff(q);
  }

  // ---- The double-and-add loop ---------------------------------------------------------

  method JacMul(c: Curve, k: int, q: Jacobian) returns (result: Jacobian)
    requires c.Field() && c.n > 0 && Associative(c)
    requires c.Reduced(q) && c.JacOnCurve(q)
    ensures c.Reduced(result) && c.JacOnCurve(result)
    ensures c.ToAffine(result) == Multiple(c, k % c.n, c.ToAffine(q))
  {
    var k' := k % c.n;
    ghost var a := c.ToAffine(q);
    c.JacOnCurveIff(q);
    if k' == 0 || q.z == 0 {
      MultipleOfInfinity(c, k');
      return INF;
    }
    result := INF;
    var addend := q;
    ghost var total, done, weight := k', 0, 1;
    MultipleOne(c, a);
    while k' != 0
      invariant k' >= 0 && done >= 0 && weight >= 1 && done + k' * weight == total
      invariant IsMultiple(c, result, done, a)
      invariant IsMultiple(c, addend, weight, a)
      decreases k'
    {
      HalveStep(k', weight, k' % 2);
      if k' % 2 == 1 {
        AddStep(c, result, addend, done, weight, a);
        result := c.JacAdd(result, addend);
        done := done + weight;
      }
      DoubleStep(c, addend, weight, a);
      addend := c.JacDouble(addend);
      weight := 2 * weight;
      k' := k' / 2;
    }
  }

  /** q is a well-formed triple for k times a. */
  ghost predicate IsMultiple(c: Curve, q: Jacobian, k: int, a: Point)
    requires c.p > 2
  {
    k >= 0 && c.Reduced(q) && c.JacOnCurve(q) && c.ToAffine(q) == Multiple(c, k, a)
  }

  lemma MultipleOne(c: Curve, a: Point)
    requires c.p > 2
    ensures Multiple(c, 1, a) == a
  {
    assert Multiple(c, 0, a) == Infinity;
  }

  lemma AddStep(c: Curve, q: Jacobian, r: Jacobian, j: nat, k: nat, a: Point)
    requires c.Field() && Associative(c) && c.OnCurve(a)
    requires IsMultiple(c, q, j, a) && IsMultiple(c, r, k, a)
    ensures IsMultiple(c, c.JacAdd(q, r), j + k, a)
  {
    hide Multiple, Curve.Add, Curve.OnCurve, Curve.JacAdd, Curve.JacOnCurve, Curve.ToAffine;
    c.JacAddIsGroupAdd(q, r);
    MultipleAdd(c, j, k, a);
  }

  lemma DoubleStep(c: Curve, q: Jacobian, k: nat, a: Point)
    requires c.Field() && Associative(c) && c.OnCurve(a)
    requires IsMultiple(c, q, k, a)
    ensures IsMultiple(c, c.JacDouble(q), 2 * k, a)
  {
    hide Multiple, Curve.Add, Curve.OnCurve, Curve.JacDouble, Curve.JacOnCurve, Curve.ToAffine;
    c.JacDoubleIsGroupDouble(q);
    MultipleAdd(c, k, k, a);
  }

  lemma HalveStep(k: int, w: int, bit: int)
    requires k >= 0 && bit == k % 2
    ensures k * w == bit * w + (k / 2) * (2 * w)
  {
    assert k == 2 * (k / 2) + bit;
    assert (2 * (k / 2) + bit) * w == (k / 2) * (2 * w) + bit * w;
  }
}
