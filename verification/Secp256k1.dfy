/** Point arithmetic on y^2 = x^3 + 7 over the integers modulo p: the Jacobian formulas of the
    Nostr module, and the affine tangent/chord group law they stand for. */
module Secp256k1 {
  import Mod = ModularArithmetic

  /** (x, y, z) stands for the affine point (x/z^2, y/z^3); z == 0 is the point at infinity. */
  datatype Jacobian = Jacobian(x: int, y: int, z: int)

  datatype Point = Infinity | Affine(x: int, y: int)

  const INF := Jacobian(0, 1, 0)

  function Pow(b: int, e: nat): int
  {
    if e == 0 then 1 else b * Pow(b, e - 1)
  }

  /** Field modulus, group order and base point; the module-level constants of nwc_nostr.py are
      the instance SECP256K1. */
  datatype Curve = Curve(p: int, n: int, gx: int, gy: int) {

    // ---- Hypotheses on the field -------------------------------------------------------

    /** Fermat: z^(p-2) is the inverse of every nonzero z. Together with the size and the
        residue of p modulo 4 this is all that is assumed of the field. */
    ghost predicate Field() {
      && p > 3
      && p % 4 == 3
      && (forall z :: 0 < z < p ==> FermatInverse(z))
    }

    ghost predicate FermatInverse(z: int)
      requires p > 2
    {
      (z * Pow(z, p - 2)) % p == 1
    }

    // ---- The formulas of nwc_nostr.py ---------------------------------------------------------

    function JacDouble(q: Jacobian): Jacobian
      requires p > 0
    {
      var Jacobian(X1, Y1, Z1) := q;
      if Z1 == 0 || Y1 == 0 then INF
      else
        var Y1sq := (Y1 * Y1) % p;
        var S := (4 * X1 * Y1sq) % p;
        var M := (3 * X1 * X1) % p;
        var X3 := (M * M - 2 * S) % p;
        var Y14 := (Y1sq * Y1sq) % p;
        var Y3 := (M * (S - X3) - 8 * Y14) % p;
        var Z3 := (2 * Y1 * Z1) % p;
        Jacobian(X3, Y3, Z3)
    }

    function JacAdd(q: Jacobian, r: Jacobian): Jacobian
      requires p > 0
    {
      var Jacobian(X1, Y1, Z1) := q;
      var Jacobian(X2, Y2, Z2) := r;
      if Z1 == 0 then r
      else if Z2 == 0 then q
      else
        var Z1sq := (Z1 * Z1) % p;
        var Z2sq := (Z2 * Z2) % p;
        var U1 := (X1 * Z2sq) % p;
        var U2 := (X2 * Z1sq) % p;
        var S1 := (Y1 * Z2sq * Z2) % p;
        var S2 := (Y2 * Z1sq * Z1) % p;
        if U1 == U2 then
          if S1 != S2 then INF else JacDouble(q)
        else
          var H := (U2 - U1) % p;
          var R := (S2 - S1) % p;
          var Hsq := (H * H) % p;
          var Hcu := (H * Hsq) % p;
          var U1Hsq := (U1 * Hsq) % p;
          var X3 := (R * R - Hcu - 2 * U1Hsq) % p;
          var Y3 := (R * (U1Hsq - X3) - S1 * Hcu) % p;
          var Z3 := (H * Z1 * Z2) % p;
          Jacobian(X3, Y3, Z3)
    }

    function ToAffine(q: Jacobian): Point
      requires p > 2
    {
      if q.z == 0 then Infinity
      else
        var zInv := Pow(q.z, p - 2) % p;
        var zInv2 := (zInv * zInv) % p;
        var zInv3 := (zInv2 * zInv) % p;
        Affine((q.x * zInv2) % p, (q.y * zInv3) % p)
    }

    // ---- The group law they stand for --------------------------------------------------

    ghost predicate Eq(a: int, b: int)
      requires p > 0
    {
      Mod.Congruent(a, b, p)
    }

    ghost function Inv(z: int): int
      requires p > 2
    {
      Pow(z % p, p - 2) % p
    }

    ghost predicate OnCurve(a: Point)
      requires p > 0
    {
      a.Affine? ==> 0 <= a.x < p && 0 <= a.y < p && Eq(a.y * a.y, a.x * a.x * a.x + 7)
    }

    /** Slope of the tangent (equal abscissas) or of the chord. */
    ghost function Slope(a: Point, b: Point): int
      requires p > 2 && a.Affine? && b.Affine?
    {
      if a.x == b.x then 3 * a.x * a.x * Inv(2 * a.y) else (b.y - a.y) * Inv(b.x - a.x)
    }

    /** The tangent/chord law. */
    ghost function Add(a: Point, b: Point): Point
      requires p > 2
    {
      if a.Infinity? then b
      else if b.Infinity? then a
      else if a.x == b.x && Eq(a.y + b.y, 0) then Infinity
      else
        var l := Slope(a, b);
        var x3 := (l * l - a.x - b.x) % p;
        Affine(x3, (l * (a.x - x3) - a.y) % p)
    }

    ghost function Neg(a: Point): Point
      requires p > 0
    {
      if a.Infinity? then a else Affine(a.x, (p - a.y) % p)
    }

    /** Components are residues. */
    ghost predicate Reduced(q: Jacobian) {
      0 <= q.x < p && 0 <= q.y < p && 0 <= q.z < p
    }

    /** Y^2 = X^3 + 7 Z^6, or the point at infinity. */
    ghost predicate JacOnCurve(q: Jacobian)
      requires p > 0
    {
      q.z != 0 ==> Eq(q.y * q.y, q.x * q.x * q.x + 7 * (q.z * q.z * q.z) * (q.z * q.z * q.z))
    }

    // ---- Congruences modulo p ----------------------------------------------------------

    lemma EqRed(a: int)
      requires p > 0
      ensures Eq(a % p, a) && 0 <= a % p < p
    {
      Mod.Reduce(a, p);
    }

    lemma EqAdd(a: int, a': int, b: int, b': int)
      requires p > 0 && Eq(a, a') && Eq(b, b')
      ensures Eq(a + b, a' + b')
    {
      Mod.AddCongruent(a, a', b, b', p);
    }

    lemma EqSub(a: int, a': int, b: int, b': int)
      requires p > 0 && Eq(a, a') && Eq(b, b')
      ensures Eq(a - b, a' - b')
    {
      Mod.SubCongruent(a, a', b, b', p);
    }

    lemma EqMul(a: int, a': int, b: int, b': int)
      requires p > 0 && Eq(a, a') && Eq(b, b')
      ensures Eq(a * b, a' * b')
    {
      Mod.MulCongruent(a, a', b, b', p);
    }

    lemma EqSmall(a: int, b: int)
      requires p > 0 && 0 <= a < p && 0 <= b < p && Eq(a, b)
      ensures a == b
    {
      Mod.Small(a, p);
      Mod.Small(b, p);
    }

    lemma Nonzero(a: int)
      requires p > 0 && 0 < a < p
      ensures !Eq(a, 0)
    {
      Mod.Small(a, p);
      Mod.Small(0, p);
    }

    lemma InvIsInverse(z: int)
      requires Field() && !Eq(z, 0)
      ensures Eq(z * Inv(z), 1)
    {
      var r := z % p;
      EqRed(z);
      Mod.Small(0, p);
      var w := Pow(r, p - 2);
      assert FermatInverse(r);
      Mod.Small(1, p);
      EqRed(w);
      EqMul(z, r, Inv(z), w);
    }

    lemma Cancel(a: int, b: int, c: int)
      requires Field() && !Eq(c, 0) && Eq(a * c, b * c)
      ensures Eq(a, b)
    {
      InvIsInverse(c);
      var i := Inv(c);
      EqMul(a * c, b * c, i, i);
      AssociateRight(a, c, i);
      AssociateRight(b, c, i);
      EqMul(a, a, c * i, 1);
      EqMul(b, b, c * i, 1);
    }

    lemma NoZeroDivisors(a: int, b: int)
      requires Field() && Eq(a * b, 0) && !Eq(b, 0)
      ensures Eq(a, 0)
    {
      assert 0 * b == 0;
      Cancel(a, 0, b);
    }

    /** p is odd, so doubling is injective. */
    lemma TwiceNonzero(a: int)
      requires Field() && !Eq(a, 0)
      ensures !Eq(2 * a, 0)
    {
      Nonzero(2);
      if Eq(a * 2, 0) {
        NoZeroDivisors(a, 2);
      }
    }

    // ---- Jacobian triples and the points they represent --------------------------------

    ghost predicate Represents(q: Jacobian, a: Point)
      requires p > 0
    {
      a.Affine? && Eq(a.x * (q.z * q.z), q.x) && Eq(a.y * (q.z * q.z * q.z), q.y)
    }

    lemma InverseSquareAndCube(z: int)
      requires Field() && 0 < z < p
      ensures var i := Pow(z, p - 2) % p;
              Eq((i * i) % p * (z * z), 1) && Eq((i * i) % p * i % p * (z * z * z), 1)
    {
      Nonzero(z);
      Mod.Small(z, p);
      InvIsInverse(z);
      var i := Inv(z);
      EqRed(i * i);
      EqMul((i * i) % p, i * i, i, i);
      EqRed((i * i) % p * i);
      SquareOfUnit(z, i, (i * i) % p);
      CubeOfUnit(z, i, (i * i) % p * i % p);
    }

    lemma SquareOfUnit(z: int, i: int, i2: int)
      requires p > 0 && Eq(z * i, 1) && Eq(i2, i * i)
      ensures Eq(i2 * (z * z), 1)
    {
      EqMul(z * i, 1, z * i, 1);
      assert z * i * (z * i) == i * i * (z * z);
      EqMul(i2, i * i, z * z, z * z);
    }

    lemma CubeOfUnit(z: int, i: int, i3: int)
      requires p > 0 && Eq(z * i, 1) && Eq(i3, i * i * i)
      ensures Eq(i3 * (z * z * z), 1)
    {
      SquareOfUnit(z, i, i * i);
      EqMul(i * i * (z * z), 1, z * i, 1);
      RegroupCube(z, i);
      EqMul(i3, i * i * i, z * z * z, z * z * z);
    }

    lemma RegroupCube(z: int, i: int)
      ensures i * i * (z * z) * (z * i) == i * i * i * (z * z * z)
    {
    }

    lemma ToAffineRepresents(q: Jacobian)
      requires Field() && Reduced(q) && q.z != 0
      ensures Represents(q, ToAffine(q))
      ensures 0 <= ToAffine(q).x < p && 0 <= ToAffine(q).y < p
    {
      InverseSquareAndCube(q.z);
      var i := Pow(q.z, p - 2) % p;
      var i2 := (i * i) % p;
      var i3 := (i2 * i) % p;
      Scale(q.x, i2, q.z * q.z);
      Scale(q.y, i3, q.z * q.z * q.z);
    }

    lemma Scale(x: int, i: int, z: int)
      requires p > 0 && Eq(i * z, 1)
      ensures Eq((x * i) % p * z, x) && 0 <= (x * i) % p < p
    {
      EqRed(x * i);
      EqMul((x * i) % p, x * i, z, z);
      assert x * i * z == x * (i * z);
      EqMul(x, x, i * z, 1);
    }

    lemma RepresentsUnique(q: Jacobian, a: Point)
      requires Field() && Reduced(q) && q.z != 0 && Represents(q, a)
      requires 0 <= a.x < p && 0 <= a.y < p
      ensures ToAffine(q) == a
    {
      ToAffineRepresents(q);
      var b := ToAffine(q);
      Nonzero(q.z);
      PowersNonzero(q.z);
      Cancel(a.x, b.x, q.z * q.z);
      Cancel(a.y, b.y, q.z * q.z * q.z);
      EqSmall(a.x, b.x);
      EqSmall(a.y, b.y);
    }

    lemma PowersNonzero(z: int)
      requires Field() && !Eq(z, 0)
      ensures !Eq(z * z, 0) && !Eq(z * z * z, 0)
    {
      if Eq(z * z, 0) { NoZeroDivisors(z, z); }
      if Eq(z * z * z, 0) { NoZeroDivisors(z * z, z); }
    }

    // ---- Tangent and chord in scaled coordinates ---------------------------------------

    /** The last step shared by doubling and addition: M, S, T, X3 and Y3 are the slope, the
        first point and the result scaled by z3, z3^2 and z3^3. */
    lemma ScaledChord(x1: int, y1: int, x2: int, l: int, M: int, S: int, S': int, T: int, q: Jacobian)
      requires p > 3
      requires Eq(M, l * q.z) && Eq(S, x1 * (q.z * q.z)) && Eq(S', x2 * (q.z * q.z))
      requires Eq(T, y1 * (q.z * q.z * q.z))
      requires Eq(q.x, M * M - S - S') && Eq(q.y, M * (S - q.x) - T)
      ensures var x3 := (l * l - x1 - x2) % p;
              Represents(q, Affine(x3, (l * (x1 - x3) - y1) % p))
    {
      var z := q.z;
      var z2 := z * z;
      var z3 := z * z * z;
      var x3 := (l * l - x1 - x2) % p;
      var y3 := (l * (x1 - x3) - y1) % p;
      assert Eq(q.x, x3 * z2) by {
        EqMul(M, l * z, M, l * z);
        EqSub(M * M, l * z * (l * z), S, x1 * z2);
        EqSub(M * M - S, l * z * (l * z) - x1 * z2, S', x2 * z2);
        DistributeSquare(l, z, x1, x2);
        EqRed(l * l - x1 - x2);
        EqMul(x3, l * l - x1 - x2, z2, z2);
      }
      assert Eq(q.y, y3 * z3) by {
        EqSub(S, x1 * z2, q.x, x3 * z2);
        EqMul(M, l * z, S - q.x, x1 * z2 - x3 * z2);
        EqSub(M * (S - q.x), l * z * (x1 * z2 - x3 * z2), T, y1 * z3);
        DistributeCube(l, z, x1, x3, y1);
        EqRed(l * (x1 - x3) - y1);
        EqMul(y3, l * (x1 - x3) - y1, z3, z3);
      }
    }

    lemma DistributeSquare(l: int, z: int, x1: int, x2: int)
      ensures l * z * (l * z) - x1 * (z * z) - x2 * (z * z) == (l * l - x1 - x2) * (z * z)
    {
      assert l * z * (l * z) == l * l * (z * z);
    }

    lemma DistributeCube(l: int, z: int, x1: int, x3: int, y1: int)
      ensures l * z * (x1 * (z * z) - x3 * (z * z)) - y1 * (z * z * z) == (l * (x1 - x3) - y1) * (z * z * z)
    {
      assert x1 * (z * z) - x3 * (z * z) == (x1 - x3) * (z * z);
      assert l * z * ((x1 - x3) * (z * z)) == l * (x1 - x3) * (z * z * z);
    }

    lemma Regroup3(a: int, b: int, c: int)
      ensures a * (b * c) == b * (a * c)
    {
    }

    /** The slope solves the tangent equation. */
    lemma TangentSlope(a: Point)
      requires Field() && a.Affine? && !Eq(a.y, 0)
      ensures Eq(2 * a.y * Slope(a, a), 3 * a.x * a.x)
    {
      TwiceNonzero(a.y);
      InvIsInverse(2 * a.y);
      var i := Inv(2 * a.y);
      Regroup3(2 * a.y, 3 * a.x * a.x, i);
      EqMul(3 * a.x * a.x, 3 * a.x * a.x, 2 * a.y * i, 1);
    }

    /** The slope solves the chord equation. */
    lemma ChordSlope(a: Point, b: Point)
      requires Field() && a.Affine? && b.Affine? && 0 <= a.x < p && 0 <= b.x < p && a.x != b.x
      ensures Eq((b.x - a.x) * Slope(a, b), b.y - a.y) && !Eq(b.x - a.x, 0)
    {
      var d := b.x - a.x;
      if Eq(d, 0) {
        EqAdd(d, 0, a.x, a.x);
        EqSmall(b.x, a.x);
      }
      InvIsInverse(d);
      Regroup3(d, b.y - a.y, Inv(d));
      EqMul(b.y - a.y, b.y - a.y, d * Inv(d), 1);
    }

    // ---- Doubling ----------------------------------------------------------------------

    lemma DoubleScaled(q: Jacobian, a: Point)
      requires Field() && Reduced(q) && q.z != 0 && q.y != 0
      requires Represents(q, a) && 0 <= a.x < p && 0 <= a.y < p && !Eq(a.y, 0)
      ensures Represents(JacDouble(q), Add(a, a)) && Add(a, a).Affine?
    {
      var Jacobian(X, Y, Z) := q;
      var r := JacDouble(q);
      var l := Slope(a, a);
      var Y1sq := (Y * Y) % p;
      var S := (4 * X * Y1sq) % p;
      var M := (3 * X * X) % p;
      var Y14 := (Y1sq * Y1sq) % p;
      var z3 := 2 * Y * Z;
      TwiceNonzero(a.y);
      EqRed(z3);
      EqRed(Y * Y);
      DoubleM(a, q, l, M);
      EqMul(r.z, z3, l, l);
      assert Eq(M, l * r.z);
      DoubleS(a, q, S);
      EqMul(r.z, z3, r.z, z3);
      EqMul(a.x, a.x, r.z * r.z, z3 * z3);
      assert Eq(S, a.x * (r.z * r.z));
      DoubleT(a, q, 8 * Y14);
      EqMul(r.z * r.z, z3 * z3, r.z, z3);
      EqMul(a.y, a.y, r.z * r.z * r.z, z3 * z3 * z3);
      EqRed(M * M - 2 * S);
      EqRed(M * (S - r.x) - 8 * Y14);
      ScaledChord(a.x, a.y, a.x, l, M, S, S, 8 * Y14, r);
    }

    lemma DoubleM(a: Point, q: Jacobian, l: int, M: int)
      requires Field() && Represents(q, a) && !Eq(a.y, 0) && l == Slope(a, a)
      requires M == (3 * q.x * q.x) % p
      ensures Eq(M, l * (2 * q.y * q.z))
    {
      var z2 := q.z * q.z;
      var w := a.x * z2;
      EqRed(3 * q.x * q.x);
      EqMul(3 * q.x, 3 * w, q.x, w) by { EqMul(3, 3, q.x, w); }
      TangentSlope(a);
      EqMul(2 * a.y * l, 3 * a.x * a.x, z2 * z2, z2 * z2);
      RegroupX(a.x, z2);
      RegroupM(a.y, l, q.z);
      EqMul(l * (2 * q.z), l * (2 * q.z), a.y * (q.z * z2), q.y) by { assert q.z * z2 == q.z * q.z * q.z; }
      RegroupYZ(l, q.y, q.z);
    }

    lemma RegroupX(x: int, z2: int)
      ensures 3 * (x * z2) * (x * z2) == 3 * x * x * (z2 * z2)
    {
    }

    lemma RegroupM(y: int, l: int, z: int)
      ensures 2 * y * l * (z * z * (z * z)) == l * (2 * z) * (y * (z * (z * z)))
    {
    }

    lemma RegroupYZ(l: int, y: int, z: int)
      ensures l * (2 * z) * y == l * (2 * y * z)
    {
    }

    lemma DoubleS(a: Point, q: Jacobian, S: int)
      requires Field() && Represents(q, a)
      requires S == (4 * q.x * ((q.y * q.y) % p)) % p
      ensures var z3 := 2 * q.y * q.z; Eq(S, a.x * (z3 * z3))
    {
      var Y1sq := (q.y * q.y) % p;
      EqRed(q.y * q.y);
      EqRed(4 * q.x * Y1sq);
      EqMul(q.x, a.x * (q.z * q.z), Y1sq, q.y * q.y);
      EqMul(4, 4, q.x * Y1sq, a.x * (q.z * q.z) * (q.y * q.y));
      AssociateRight(4, q.x, Y1sq);
      RegroupS(a.x, q.y, q.z);
    }

    lemma RegroupS(x: int, y: int, z: int)
      ensures 4 * (x * (z * z) * (y * y)) == x * (2 * y * z * (2 * y * z))
    {
    }

    lemma DoubleT(a: Point, q: Jacobian, T: int)
      requires Field() && Represents(q, a)
      requires var Y1sq := (q.y * q.y) % p; T == 8 * ((Y1sq * Y1sq) % p)
      ensures var z3 := 2 * q.y * q.z; Eq(T, a.y * (z3 * z3 * z3))
    {
      var y := q.y;
      var Y1sq := (y * y) % p;
      var v := a.y * (q.z * q.z * q.z);
      EqRed(y * y);
      EqRed(Y1sq * Y1sq);
      EqMul(Y1sq, y * y, Y1sq, y * y);
      EqMul(8, 8, (Y1sq * Y1sq) % p, y * y * (y * y));
      RegroupFourth(y);
      EqMul(8 * (y * y * y), 8 * (y * y * y), y, v);
      RegroupT(a.y, y, q.z);
    }

    lemma RegroupFourth(y: int)
      ensures 8 * (y * y * (y * y)) == 8 * (y * y * y) * y
    {
    }

    lemma RegroupT(y: int, Y: int, z: int)
      ensures 8 * (Y * Y * Y) * (y * (z * z * z)) == y * (2 * Y * z * (2 * Y * z) * (2 * Y * z))
    {
      var d := Y * z;
      assert 2 * Y * z == 2 * d;
      assert 2 * d * (2 * d) * (2 * d) == 8 * (d * d * d);
      assert d * d * d == Y * Y * Y * (z * z * z);
    }

    // ---- Addition of points with distinct abscissas ------------------------------------

    /** X1 Z2^2 and Y1 Z2^3 rescale the first point to the common denominator w = Z1 Z2. */
    lemma Rescale(q: Jacobian, a: Point, z: int, U: int, S: int)
      requires p > 0 && Represents(q, a)
      requires U == (q.x * ((z * z) % p)) % p && S == (q.y * ((z * z) % p) * z) % p
      ensures var w := q.z * z; Eq(U, a.x * (w * w)) && Eq(S, a.y * (w * w * w))
    {
      var zsq := (z * z) % p;
      EqRed(z * z);
      EqRed(q.x * zsq);
      EqRed(q.y * zsq * z);
      EqMul(q.x, a.x * (q.z * q.z), zsq, z * z);
      EqMul(q.y, a.y * (q.z * q.z * q.z), zsq, z * z);
      EqMul(q.y * zsq, a.y * (q.z * q.z * q.z) * (z * z), z, z);
      RescaleSquare(a.x, q.z, z);
      RescaleCube(a.y, q.z, z);
    }

    lemma RescaleSquare(x: int, z: int, u: int)
      ensures x * (z * z) * (u * u) == x * (z * u * (z * u))
    {
    }

    lemma RescaleCube(y: int, z: int, u: int)
      ensures y * (z * z * z) * (u * u) * u == y * (z * u * (z * u) * (z * u))
    {
      CubeOfProduct(z, u);
      AssociateRight(y * (z * z * z), u * u, u);
      AssociateRight(y, z * z * z, u * u * u);
    }

    lemma CubeOfProduct(z: int, u: int)
      ensures var w := z * u; w * w * w == z * z * z * (u * u * u)
    {
    }

    function ScaledX(q: Jacobian, z: int): int
      requires p > 0
    {
      (q.x * ((z * z) % p)) % p
    }

    function ScaledY(q: Jacobian, z: int): int
      requires p > 0
    {
      (q.y * ((z * z) % p) * z) % p
    }

    /** Both points over the denominator w = Z1 Z2: their abscissas still differ. */
    lemma CommonDenominator(q: Jacobian, r: Jacobian, a: Point, b: Point)
      requires Field() && Reduced(q) && q.z != 0 && Reduced(r) && r.z != 0
      requires Represents(q, a) && Represents(r, b)
      requires 0 <= a.x < p && 0 <= b.x < p && a.x != b.x
      ensures var w := q.z * r.z;
              && Eq(ScaledX(q, r.z), a.x * (w * w)) && Eq(ScaledX(r, q.z), b.x * (w * w))
              && Eq(ScaledY(q, r.z), a.y * (w * w * w)) && Eq(ScaledY(r, q.z), b.y * (w * w * w))
      ensures ScaledX(q, r.z) != ScaledX(r, q.z)
    {
      assert p > 3;
      var w := q.z * r.z;
      hide Field, Eq;
      Rescale(q, a, r.z, ScaledX(q, r.z), ScaledY(q, r.z));
      Rescale(r, b, q.z, ScaledX(r, q.z), ScaledY(r, q.z));
      assert r.z * q.z == w;
      DistinctAbscissas(a, b, w, ScaledX(q, r.z), ScaledX(r, q.z), q.z, r.z);
    }

    lemma AddScaled(q: Jacobian, r: Jacobian, a: Point, b: Point)
      requires Field() && Reduced(q) && q.z != 0 && Reduced(r) && r.z != 0
      requires Represents(q, a) && Represents(r, b)
      requires 0 <= a.x < p && 0 <= b.x < p && a.x != b.x
      ensures Represents(JacAdd(q, r), Add(a, b)) && Add(a, b).Affine?
    {
      assert p > 3;
      hide Field, Eq, JacAdd, Add, ChordTriple, ScaledX, ScaledY;
      CommonDenominator(q, r, a, b);
      JacAddChord(q, r);
      AddFromCommonDenominator(a, b, q.z * r.z, ScaledX(q, r.z), ScaledX(r, q.z), ScaledY(q, r.z), ScaledY(r, q.z),
                               JacAdd(q, r));
    }

    lemma JacAddChord(q: Jacobian, r: Jacobian)
      requires p > 0 && q.z != 0 && r.z != 0 && ScaledX(q, r.z) != ScaledX(r, q.z)
      ensures ChordTriple(q.z * r.z, ScaledX(q, r.z), ScaledX(r, q.z), ScaledY(q, r.z), ScaledY(r, q.z), JacAdd(q, r))
    {
      AssociateRight((ScaledX(r, q.z) - ScaledX(q, r.z)) % p, q.z, r.z);
    }

    /** The triple the chord branch builds once both points share the denominator w. */
    ghost predicate ChordTriple(w: int, U1: int, U2: int, S1: int, S2: int, s: Jacobian)
      requires p > 0
    {
      var H := (U2 - U1) % p;
      var R := (S2 - S1) % p;
      var Hsq := (H * H) % p;
      var Hcu := (H * Hsq) % p;
      var U1Hsq := (U1 * Hsq) % p;
      && s.x == (R * R - Hcu - 2 * U1Hsq) % p
      && s.y == (R * (U1Hsq - s.x) - S1 * Hcu) % p
      && s.z == (H * w) % p
    }

    lemma AddFromCommonDenominator(a: Point, b: Point, w: int, U1: int, U2: int, S1: int, S2: int, s: Jacobian)
      requires Field() && a.Affine? && b.Affine?
      requires 0 <= a.x < p && 0 <= b.x < p && a.x != b.x
      requires Eq(U1, a.x * (w * w)) && Eq(U2, b.x * (w * w))
      requires Eq(S1, a.y * (w * w * w)) && Eq(S2, b.y * (w * w * w))
      requires ChordTriple(w, U1, U2, S1, S2, s)
      ensures Represents(s, Add(a, b)) && Add(a, b).Affine?
    {
      var H := (U2 - U1) % p;
      var R := (S2 - S1) % p;
      var Hsq := (H * H) % p;
      var Hcu := (H * Hsq) % p;
      var U1Hsq := (U1 * Hsq) % p;
      var l := Slope(a, b);
      EqRed(H * w);
      EqRed(H * H);
      EqRed(H * Hsq);
      EqRed(U1 * Hsq);
      EqRed(R * R - Hcu - 2 * U1Hsq);
      EqRed(R * (U1Hsq - s.x) - S1 * Hcu);
      AddSlope(a, b, w, U1, U2, S1, S2, H, R);
      EqMul(l, l, s.z, H * w);
      ScaleAbscissa(a.x, U1, H, Hsq, w, s.z);
      ScaleAbscissa(b.x, U2, H, Hsq, w, s.z);
      ScaleOrdinate(a.y, S1, H, Hsq, Hcu, w, s.z);
      SecondAbscissa(U1, U2, H, Hsq, Hcu, U1Hsq);
      ScaledChord(a.x, a.y, b.x, l, R, U1Hsq, Hcu + U1Hsq, S1 * Hcu, s);
    }

    lemma DistinctAbscissas(a: Point, b: Point, w: int, U1: int, U2: int, z1: int, z2: int)
      requires Field() && a.Affine? && b.Affine?
      requires 0 <= a.x < p && 0 <= b.x < p && a.x != b.x
      requires 0 < z1 < p && 0 < z2 < p && w == z1 * z2
      requires Eq(U1, a.x * (w * w)) && Eq(U2, b.x * (w * w))
      ensures U1 != U2
    {
      if U1 == U2 {
        Nonzero(z1);
        Nonzero(z2);
        if Eq(w, 0) { NoZeroDivisors(z1, z2); }
        PowersNonzero(w);
        Cancel(a.x, b.x, w * w);
        EqSmall(a.x, b.x);
      }
    }

    /** R is the chord's slope scaled by the new denominator H w. */
    lemma AddSlope(a: Point, b: Point, w: int, U1: int, U2: int, S1: int, S2: int, H: int, R: int)
      requires Field() && a.Affine? && b.Affine?
      requires 0 <= a.x < p && 0 <= b.x < p && a.x != b.x
      requires Eq(U1, a.x * (w * w)) && Eq(U2, b.x * (w * w))
      requires Eq(S1, a.y * (w * w * w)) && Eq(S2, b.y * (w * w * w))
      requires H == (U2 - U1) % p && R == (S2 - S1) % p
      ensures Eq(R, Slope(a, b) * (H * w))
    {
      ChordSlope(a, b);
      ScaledDifference(a.x, b.x, w * w, U1, U2, H);
      ScaledDifference(a.y, b.y, w * w * w, S1, S2, R);
      SlopeFromDifferences(b.x - a.x, b.y - a.y, Slope(a, b), w, H, R);
    }

    lemma ScaledDifference(x: int, y: int, s: int, U: int, V: int, D: int)
      requires p > 0 && Eq(U, x * s) && Eq(V, y * s) && D == (V - U) % p
      ensures Eq(D, (y - x) * s)
    {
      EqRed(V - U);
      EqSub(V, y * s, U, x * s);
      DistributeDifference(x, y, s);
    }

    lemma SlopeFromDifferences(dx: int, dy: int, l: int, w: int, H: int, R: int)
      requires p > 0 && Eq(dx * l, dy) && Eq(H, dx * (w * w)) && Eq(R, dy * (w * w * w))
      ensures Eq(R, l * (H * w))
    {
      EqMul(dx * l, dy, w * w * w, w * w * w);
      EqMul(H, dx * (w * w), l * w, l * w);
      RegroupSlope(dx, l, w);
      Regroup3(H, l, w);
    }

    lemma Distribute(x: int, y: int, z: int)
      ensures x * z + y * z == (x + y) * z
    {
    }

    lemma DistributeDifference(x: int, y: int, z: int)
      ensures y * z - x * z == (y - x) * z
    {
    }

    lemma RegroupSlope(d: int, l: int, w: int)
      ensures d * (w * w) * (l * w) == d * l * (w * w * w)
    {
    }

    lemma ScaleAbscissa(x: int, U: int, H: int, Hsq: int, w: int, z: int)
      requires p > 0 && Eq(U, x * (w * w)) && Eq(Hsq, H * H) && Eq(z, H * w)
      ensures Eq(U * Hsq, x * (z * z))
    {
      EqMul(U, x * (w * w), Hsq, H * H);
      EqMul(z, H * w, z, H * w);
      EqMul(x, x, z * z, H * w * (H * w));
      RescaleSquare(x, w, H);
      assert w * H == H * w;
    }

    lemma ScaleOrdinate(y: int, S: int, H: int, Hsq: int, Hcu: int, w: int, z: int)
      requires p > 0 && Eq(S, y * (w * w * w)) && Eq(Hsq, H * H) && Eq(Hcu, H * Hsq) && Eq(z, H * w)
      ensures Eq(S * Hcu, y * (z * z * z))
    {
      EqMul(H, H, Hsq, H * H);
      assert H * (H * H) == H * H * H;
      EqMul(S, y * (w * w * w), Hcu, H * H * H);
      EqMul(z, H * w, z, H * w);
      EqMul(z * z, H * w * (H * w), z, H * w);
      EqMul(y, y, z * z * z, H * w * (H * w) * (H * w));
      RescaleCube(y, w, H);
      assert w * H == H * w;
      assert y * (w * w * w) * (H * H) * H == y * (w * w * w) * (H * H * H) by {
        AssociateRight(y * (w * w * w), H * H, H);
      }
    }

    lemma AssociateRight(a: int, b: int, c: int)
      ensures a * b * c == a * (b * c)
    {
    }

    /** H^3 + U1 H^2 is the second abscissa scaled: (H + U1) H^2 = U2 H^2. */
    lemma SecondAbscissa(U1: int, U2: int, H: int, Hsq: int, Hcu: int, U1Hsq: int)
      requires p > 0 && H == (U2 - U1) % p && Eq(Hcu, H * Hsq) && Eq(U1Hsq, U1 * Hsq)
      ensures Eq(Hcu + U1Hsq, U2 * Hsq)
    {
      EqRed(U2 - U1);
      EqAdd(H, U2 - U1, U1, U1);
      EqMul(H + U1, U2, Hsq, Hsq);
      EqAdd(Hcu, H * Hsq, U1Hsq, U1 * Hsq);
      Distribute(H, U1, Hsq);
    }

    // ---- The affine law stays on the curve ---------------------------------------------

    /** The cubic restricted to the line of slope l through (x1, y1), divided by x - x1. */
    ghost function Quotient(x1: int, y1: int, l: int, x: int): int
    {
      x * x + x * x1 + x1 * x1 - l * l * (x - x1) - 2 * l * y1
    }

    lemma LineMeetsCubic(x1: int, y1: int, l: int, x: int)
      ensures x * x * x + 7 - (l * (x - x1) + y1) * (l * (x - x1) + y1)
           == (x - x1) * Quotient(x1, y1, l, x) + (x1 * x1 * x1 + 7 - y1 * y1)
    {
      DifferenceOfCubes(x, x1);
      SquareOfLine(l, x - x1, y1);
      DistributeQuotient(x - x1, x * x + x * x1 + x1 * x1, l * l * (x - x1), 2 * l * y1);
    }

    lemma DifferenceOfCubes(x: int, y: int)
      ensures x * x * x - y * y * y == (x - y) * (x * x + x * y + y * y)
    {
    }

    lemma SquareOfLine(l: int, d: int, y: int)
      ensures (l * d + y) * (l * d + y) == d * (l * l * d) + d * (2 * l * y) + y * y
    {
    }

    lemma DistributeQuotient(d: int, a: int, b: int, e: int)
      ensures d * (a - b - e) == d * a - d * b - d * e
    {
    }

    lemma ThirdRoot(x1: int, y1: int, l: int, x2: int)
      ensures Quotient(x1, y1, l, l * l - x1 - x2) == Quotient(x1, y1, l, x2)
    {
      var t := l * l - x1 - x2;
      assert t * t + t * x1 - l * l * t - (x2 * x2 + x2 * x1 - l * l * x2) == (t - x2) * (t + x2 + x1 - l * l) by {
        assert (t - x2) * (t + x2 + x1 - l * l) == t * (t + x2 + x1 - l * l) - x2 * (t + x2 + x1 - l * l);
      }
      assert l * l * (t - x1) == l * l * t - l * l * x1;
      assert l * l * (x2 - x1) == l * l * x2 - l * l * x1;
    }

    lemma ThirdPointOnCurve(x1: int, y1: int, l: int, x2: int)
      requires p > 0 && Eq(y1 * y1, x1 * x1 * x1 + 7) && Eq(Quotient(x1, y1, l, x2), 0)
      ensures var x3 := (l * l - x1 - x2) % p; OnCurve(Affine(x3, (l * (x1 - x3) - y1) % p))
    {
      var t := l * l - x1 - x2;
      var u := l * (t - x1) + y1;
      ThirdRoot(x1, y1, l, x2);
      LineMeetsCubic(x1, y1, l, t);
      EqMul(t - x1, t - x1, Quotient(x1, y1, l, t), 0);
      EqSub(x1 * x1 * x1 + 7, y1 * y1, y1 * y1, y1 * y1);
      EqAdd((t - x1) * Quotient(x1, y1, l, t), 0, x1 * x1 * x1 + 7 - y1 * y1, 0);
      EqAdd(t * t * t + 7 - u * u, 0, u * u, u * u);
      assert Eq(t * t * t + 7, u * u);
      var x3 := t % p;
      var y3 := (l * (x1 - x3) - y1) % p;
      EqRed(t);
      EqRed(l * (x1 - x3) - y1);
      EqMul(x3, t, x3, t);
      EqMul(x3 * x3, t * t, x3, t);
      EqAdd(x3 * x3 * x3, t * t * t, 7, 7);
      EqSub(x1, x1, x3, t);
      EqMul(l, l, x1 - x3, x1 - t);
      EqSub(l * (x1 - x3), l * (x1 - t), y1, y1);
      assert l * (x1 - t) - y1 == -u by { assert l * (x1 - t) == -(l * (t - x1)); }
      EqMul(y3, -u, y3, -u);
      assert (-u) * (-u) == u * u;
    }

    lemma TangentQuotient(a: Point)
      requires Field() && a.Affine? && !Eq(a.y, 0)
      ensures Eq(Quotient(a.x, a.y, Slope(a, a), a.x), 0)
    {
      var l := Slope(a, a);
      TangentSlope(a);
      EqSub(3 * a.x * a.x, 2 * a.y * l, 2 * a.y * l, 2 * a.y * l);
      assert l * l * (a.x - a.x) == 0;
      assert 2 * a.y * l == 2 * l * a.y;
      assert 3 * a.x * a.x == a.x * a.x + a.x * a.x + a.x * a.x;
    }

    lemma ChordQuotient(a: Point, b: Point)
      requires Field() && OnCurve(a) && OnCurve(b) && a.Affine? && b.Affine? && a.x != b.x
      ensures Eq(Quotient(a.x, a.y, Slope(a, b), b.x), 0)
    {
      ChordSlope(a, b);
      ChordQuotientCore(a.x, a.y, b.x, b.y, Slope(a, b));
    }

    lemma ChordQuotientCore(x1: int, y1: int, x2: int, y2: int, l: int)
      requires Field() && Eq(y1 * y1, x1 * x1 * x1 + 7) && Eq(y2 * y2, x2 * x2 * x2 + 7)
      requires Eq((x2 - x1) * l, y2 - y1) && !Eq(x2 - x1, 0)
      ensures Eq(Quotient(x1, y1, l, x2), 0)
    {
      var g := Quotient(x1, y1, l, x2);
      var e := l * (x2 - x1) + y1;
      assert (x2 - x1) * l == l * (x2 - x1);
      EqAdd(l * (x2 - x1), y2 - y1, y1, y1);
      EqMul(e, y2, e, y2);
      EqSub(x2 * x2 * x2 + 7, y2 * y2, e * e, y2 * y2);
      EqSub(x1 * x1 * x1 + 7, y1 * y1, y1 * y1, y1 * y1);
      LineMeetsCubic(x1, y1, l, x2);
      EqSub(x2 * x2 * x2 + 7 - e * e, 0, x1 * x1 * x1 + 7 - y1 * y1, 0);
      assert (x2 - x1) * g == g * (x2 - x1);
      NoZeroDivisors(g, x2 - x1);
    }

    lemma DifferenceOfSquares(x: int, y: int)
      ensures x * x - y * y == (x - y) * (x + y)
    {
    }

    /** Points with equal abscissas are equal or opposite. */
    lemma EqualAbscissas(a: Point, b: Point)
      requires Field() && OnCurve(a) && OnCurve(b) && a.Affine? && b.Affine? && a.x == b.x
      ensures a.y == b.y || Eq(a.y + b.y, 0)
    {
      EqSub(a.y * a.y, b.y * b.y, b.y * b.y, b.y * b.y);
      DifferenceOfSquares(a.y, b.y);
      if !Eq(a.y + b.y, 0) {
        NoZeroDivisors(a.y - b.y, a.y + b.y);
        EqAdd(a.y - b.y, 0, b.y, b.y);
        EqSmall(a.y, b.y);
      }
    }

    /** y + y vanishes only at y = 0. */
    lemma SelfOpposite(y: int)
      requires Field()
      ensures Eq(y + y, 0) <==> Eq(y, 0)
    {
      if Eq(y, 0) {
        EqAdd(y, 0, y, 0);
      } else {
        TwiceNonzero(y);
      }
    }

    lemma AddOnCurve(a: Point, b: Point)
      requires Field() && OnCurve(a) && OnCurve(b)
      ensures OnCurve(Add(a, b))
    {
      if a.Affine? && b.Affine? && !(a.x == b.x && Eq(a.y + b.y, 0)) {
        if a.x == b.x {
          EqualAbscissas(a, b);
          SelfOpposite(a.y);
          TangentQuotient(a);
        } else {
          ChordQuotient(a, b);
        }
        ThirdPointOnCurve(a.x, a.y, Slope(a, b), b.x);
      }
    }

    // ---- Main results ------------------------------------------------------------------

    /** A triple satisfies the Jacobian equation exactly when its affine point is on the curve. */
    lemma JacOnCurveIff(q: Jacobian)
      requires Field() && Reduced(q)
      ensures JacOnCurve(q) <==> OnCurve(ToAffine(q))
    {
      if q.z != 0 {
        ToAffineRepresents(q);
        var a := ToAffine(q);
        var z3 := q.z * q.z * q.z;
        EqMul(a.y * z3, q.y, a.y * z3, q.y);
        SquareScaled(a.y, z3);
        var w := a.x * (q.z * q.z);
        EqMul(w, q.x, w, q.x);
        EqMul(w * w, q.x * q.x, w, q.x);
        EqAdd(w * w * w, q.x * q.x * q.x, 7 * z3 * z3, 7 * z3 * z3);
        CubeScaled(a.x, q.z);
        Nonzero(q.z);
        PowersNonzero(q.z);
        if Eq(z3 * z3, 0) { NoZeroDivisors(z3, z3); }
        if JacOnCurve(q) {
          Cancel(a.y * a.y, a.x * a.x * a.x + 7, z3 * z3);
        }
        if OnCurve(a) {
          EqMul(a.y * a.y, a.x * a.x * a.x + 7, z3 * z3, z3 * z3);
        }
      }
    }

    lemma SquareScaled(y: int, z3: int)
      ensures y * z3 * (y * z3) == y * y * (z3 * z3)
    {
    }

    lemma CubeScaled(x: int, z: int)
      ensures var w := x * (z * z); var z3 := z * z * z;
              w * w * w + 7 * z3 * z3 == (x * x * x + 7) * (z3 * z3)
    {
      var z2 := z * z;
      assert x * z2 * (x * z2) * (x * z2) == x * x * x * (z2 * z2 * z2);
      var z3 := z * z * z;
      assert z2 * z2 * z2 == z3 * z3;
    }

    lemma JacDoubleIsGroupDouble(q: Jacobian)
      requires Field() && Reduced(q) && JacOnCurve(q)
      ensures var r := JacDouble(q);
              Reduced(r) && JacOnCurve(r) && ToAffine(r) == Add(ToAffine(q), ToAffine(q))
    {
      JacOnCurveIff(q);
      var a := ToAffine(q);
      var r := JacDouble(q);
      DoubleReduced(q);
      if q.z != 0 {
        ToAffineRepresents(q);
        OrdinateZero(q, a);
        SelfOpposite(a.y);
        if q.y != 0 {
          DoubleScaled(q, a);
          DoubleDenominator(q);
          AddOnCurve(a, a);
          RepresentsUnique(r, Add(a, a));
          JacOnCurveIff(r);
        }
      }
    }

    /** Y vanishes exactly when the affine ordinate does. */
    lemma OrdinateZero(q: Jacobian, a: Point)
      requires Field() && Reduced(q) && q.z != 0 && Represents(q, a)
      ensures Eq(a.y, 0) <==> q.y == 0
    {
      var z3 := q.z * q.z * q.z;
      Nonzero(q.z);
      PowersNonzero(q.z);
      if Eq(a.y, 0) {
        EqMul(a.y, 0, z3, z3);
        EqSmall(q.y, 0);
      } else if q.y == 0 {
        NoZeroDivisors(a.y, z3);
      }
    }

    lemma DoubleReduced(q: Jacobian)
      requires Field() && Reduced(q)
      ensures Reduced(JacDouble(q))
    {
    }

    lemma DoubleDenominator(q: Jacobian)
      requires Field() && Reduced(q) && q.z != 0 && q.y != 0
      ensures JacDouble(q).z != 0
    {
      Nonzero(q.y);
      Nonzero(q.z);
      TwiceNonzero(q.y);
      EqRed(2 * q.y * q.z);
      if Eq(2 * q.y * q.z, 0) { NoZeroDivisors(2 * q.y, q.z); }
      Mod.Small(0, p);
    }

    lemma JacAddIsGroupAdd(q: Jacobian, r: Jacobian)
      requires Field() && Reduced(q) && JacOnCurve(q) && Reduced(r) && JacOnCurve(r)
      ensures var s := JacAdd(q, r);
              Reduced(s) && JacOnCurve(s) && ToAffine(s) == Add(ToAffine(q), ToAffine(r))
    {
      JacOnCurveIff(q);
      JacOnCurveIff(r);
      if q.z != 0 && r.z != 0 {
        var a := ToAffine(q);
        var b := ToAffine(r);
        ToAffineRepresents(q);
        ToAffineRepresents(r);
        if a.x == b.x {
          JacAddEqualAbscissas(q, r, a, b);
        } else {
          AddScaled(q, r, a, b);
          AddDenominator(q, r, a, b);
          AddOnCurve(a, b);
          RepresentsUnique(JacAdd(q, r), Add(a, b));
          JacOnCurveIff(JacAdd(q, r));
        }
      }
    }

    lemma AddDenominator(q: Jacobian, r: Jacobian, a: Point, b: Point)
      requires Field() && Reduced(q) && q.z != 0 && Reduced(r) && r.z != 0
      requires Represents(q, a) && Represents(r, b)
      requires 0 <= a.x < p && 0 <= b.x < p && a.x != b.x
      ensures JacAdd(q, r).z != 0 && Reduced(JacAdd(q, r))
    {
      CommonDenominator(q, r, a, b);
      var U1, U2 := ScaledX(q, r.z), ScaledX(r, q.z);
      var H := (U2 - U1) % p;
      EqRed(U2 - U1);
      if H == 0 {
        EqAdd(U2 - U1, 0, U1, U1);
        EqSmall(U2, U1);
      }
      Nonzero(H);
      Nonzero(q.z);
      Nonzero(r.z);
      EqRed(H * q.z * r.z);
      if Eq(H * q.z * r.z, 0) {
        NoZeroDivisors(H * q.z, r.z);
        NoZeroDivisors(H, q.z);
      }
      Mod.Small(0, p);
    }

    lemma JacAddEqualAbscissas(q: Jacobian, r: Jacobian, a: Point, b: Point)
      requires Field() && Reduced(q) && JacOnCurve(q) && Reduced(r) && JacOnCurve(r)
      requires q.z != 0 && r.z != 0 && a == ToAffine(q) && b == ToAffine(r)
      requires OnCurve(a) && OnCurve(b) && a.x == b.x
      ensures var s := JacAdd(q, r);
              Reduced(s) && JacOnCurve(s) && ToAffine(s) == Add(a, b)
    {
      ToAffineRepresents(q);
      ToAffineRepresents(r);
      var U1 := (q.x * ((r.z * r.z) % p)) % p;
      var U2 := (r.x * ((q.z * q.z) % p)) % p;
      var S1 := (q.y * ((r.z * r.z) % p) * r.z) % p;
      var S2 := (r.y * ((q.z * q.z) % p) * q.z) % p;
      var w := q.z * r.z;
      Rescale(q, a, r.z, U1, S1);
      Rescale(r, b, q.z, U2, S2);
      assert r.z * q.z == w;
      EqSmall(U1, U2);
      EqualAbscissas(a, b);
      EqualOrdinates(a.y, b.y, w, S1, S2, q.z, r.z);
      SelfOpposite(a.y);
      if S1 == S2 {
        JacDoubleIsGroupDouble(q);
      }
    }

    lemma EqualOrdinates(y1: int, y2: int, w: int, S1: int, S2: int, z1: int, z2: int)
      requires Field() && 0 <= y1 < p && 0 <= y2 < p && 0 <= S1 < p && 0 <= S2 < p
      requires 0 < z1 < p && 0 < z2 < p && w == z1 * z2
      requires Eq(S1, y1 * (w * w * w)) && Eq(S2, y2 * (w * w * w))
      ensures S1 == S2 <==> y1 == y2
    {
      Nonzero(z1);
      Nonzero(z2);
      if Eq(w, 0) { NoZeroDivisors(z1, z2); }
      PowersNonzero(w);
      if S1 == S2 {
        Cancel(y1, y2, w * w * w);
        EqSmall(y1, y2);
      }
      if y1 == y2 {
        EqSmall(S1, S2);
      }
    }
  }

  const SECP256K1 := Curve(
    0xFFFFFFFFFFFFFFFFFFFFFFFFFFFFFFFFFFFFFFFFFFFFFFFFFFFFFFFEFFFFFC2F,
    0xFFFFFFFFFFFFFFFFFFFFFFFFFFFFFFFEBAAEDCE6AF48A03BBFD25E8CD0364141,
    0x79BE667EF9DCBBAC55A06295CE870B07029BFCDB2DCE28D959F2815B16F81798,
    0x483ADA7726A3C4655DA4FBFC0E1108A8FD17B448A68554199C47D08FFB10D4B8)
}
