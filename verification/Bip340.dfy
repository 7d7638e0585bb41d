/** BIP-340 keys and signatures, and x-only key agreement, for any curve that satisfies the
    hypotheses of ScalarMultiplication.Group. */
module Bip340 {
  import opened Secp256k1
  import opened ScalarMultiplication
  import opened Bytes
  import opened Wrappers
  import Mod = ModularArithmetic

  /** tagged_hash: SHA-256 over the doubled tag digest and the message. Any function will do. */
  type TaggedHash = (string, seq<byte>) -> seq<byte>

  datatype Error =
    | MessageLength | KeyLength | AuxLength | ScalarRange
    | PublicPointAtInfinity | ZeroNonce | NoncePointAtInfinity
    | PeerKey | SharedPointAtInfinity

  /** Residues and scalars fit 32 bytes. */
  ghost predicate Fits(c: Curve) {
    c.p <= Pow256(32) && c.n <= Pow256(32)
  }

  // ---- Recovering a point from its abscissa --------------------------------------------

  function LiftX(c: Curve, x: int): Option<Point>
    requires c.p > 0
  {
    if x <= 0 || x >= c.p then None
    else
      var v := (Pow(x, 3) % c.p + 7) % c.p;
      var y := Pow(v, (c.p + 1) / 4) % c.p;
      if Pow(y, 2) % c.p != v then None
      else if y % 2 == 1 then Some(Affine(x, c.p - y))
      else Some(Affine(x, y))
  }

  /** Of a point and its opposite, the one with even ordinate. */
  ghost function EvenY(c: Curve, a: Point): Point
    requires c.p > 0
  {
    if a.Affine? && a.y % 2 == 1 then c.Neg(a) else a
  }

  lemma {:induction false} PowAdd(b: int, m: nat, k: nat)
    ensures Pow(b, m + k) == Pow(b, m) * Pow(b, k)
    decreases m
  {
    if m > 0 {
      PowAdd(b, m - 1, k);
      AssociateProduct(b, Pow(b, m - 1), Pow(b, k));
      assert m + k - 1 == m - 1 + k;
    }
  }

  lemma AssociateProduct(x: int, y: int, z: int)
    ensures x * y * z == x * (y * z)
  {
  }

  lemma {:induction false} PowSquare(b: int, k: nat)
    ensures Pow(b * b, k) == Pow(b, 2 * k)
  {
    if k > 0 {
      PowSquare(b, k - 1);
      assert Pow(b, 2 * k) == b * Pow(b, 2 * k - 1);
      assert Pow(b, 2 * k - 1) == b * Pow(b, 2 * (k - 1));
      AssociateProduct(b, b, Pow(b, 2 * (k - 1)));
    }
  }

  lemma {:induction false} PowCongruent(c: Curve, a: int, b: int, k: nat)
    requires c.p > 0 && c.Eq(a, b)
    ensures c.Eq(Pow(a, k), Pow(b, k))
  {
    if k > 0 {
      PowCongruent(c, a, b, k - 1);
      c.EqMul(a, b, Pow(a, k - 1), Pow(b, k - 1));
    }
  }

  /** Fermat: y^(p+1) = y^2. */
  lemma FermatSquare(c: Curve, y: int)
    requires c.Field() && 0 <= y < c.p
    ensures c.Eq(Pow(y, c.p + 1), y * y)
  {
    var w := Pow(y, c.p - 2);
    assert Pow(y, c.p + 1) == y * Pow(y, c.p);
    assert Pow(y, c.p) == y * Pow(y, c.p - 1);
    assert Pow(y, c.p - 1) == y * w;
    if y != 0 {
      assert c.FermatInverse(y);
      Mod.Small(1, c.p);
      c.EqMul(y, y, y * w, 1);
      c.EqMul(y, y, y * (y * w), y * 1);
    }
  }

  /** Whenever v is the square of y, v^((p+1)/4) is a square root of v. */
  lemma SquareRoot(c: Curve, v: int, y: int)
    requires c.Field() && 0 <= y < c.p && c.Eq(v, y * y)
    ensures var s := Pow(v, (c.p + 1) / 4) % c.p; c.Eq(s * s, y * y)
  {
    var k := (c.p + 1) / 4;
    var s := Pow(v, k) % c.p;
    c.EqRed(Pow(v, k));
    PowCongruent(c, v, y * y, k);
    PowSquare(y, k);
    c.EqMul(s, Pow(y, 2 * k), s, Pow(y, 2 * k));
    PowAdd(y, 2 * k, 2 * k);
    assert 2 * k + 2 * k == c.p + 1;
    FermatSquare(c, y);
  }

  lemma SmallPowers(b: int)
    ensures Pow(b, 2) == b * b && Pow(b, 3) == b * b * b
  {
    assert Pow(b, 0) == 1;
    assert Pow(b, 1) == b;
    assert Pow(b, 2) == b * b;
    AssociateProduct(b, b, b);
  }

  lemma CubicResidue(c: Curve, x: int)
    requires c.p > 3
    ensures var v := (Pow(x, 3) % c.p + 7) % c.p; 0 <= v < c.p && c.Eq(v, x * x * x + 7)
  {
    SmallPowers(x);
    c.EqRed(x * x * x);
    c.EqAdd(x * x * x % c.p, x * x * x, 7, 7);
    c.EqRed(x * x * x % c.p + 7);
  }

  /** _lift_x recovers every point of the curve up to sign: it returns the one with even y. */
  lemma LiftXRecovers(c: Curve, a: Point)
    requires c.Field() && c.OnCurve(a) && a.Affine? && a.x > 0
    ensures LiftX(c, a.x) == Some(EvenY(c, a))
  {
    var v := (Pow(a.x, 3) % c.p + 7) % c.p;
    CubicResidue(c, a.x);
    SquareRoot(c, v, a.y);
    var s := Pow(v, (c.p + 1) / 4) % c.p;
    c.EqRed(Pow(v, (c.p + 1) / 4));
    SmallPowers(s);
    c.EqRed(s * s);
    c.EqSmall((s * s) % c.p, v);
    var b := Affine(a.x, s);
    c.EqualAbscissas(a, b);
    EvenRepresentative(c, a, b);
  }

  /** Two points with the same abscissa have the same even representative. */
  lemma EvenRepresentative(c: Curve, a: Point, b: Point)
    requires c.Field() && a.Affine? && b.Affine? && a.x == b.x
    requires 0 <= a.y < c.p && 0 <= b.y < c.p
    requires a.y == b.y || c.Eq(a.y + b.y, 0)
    ensures EvenY(c, a) == EvenY(c, b)
    ensures EvenY(c, a) == Affine(a.x, if b.y % 2 == 1 then c.p - b.y else b.y)
    ensures EvenY(c, a).y % 2 == 0
  {
    NegOrdinate(c, a);
    NegOrdinate(c, b);
    hide Curve.Neg, Curve.Field, Mod.Congruent;
    OddComplement(c, a.y);
    OddComplement(c, b.y);
    if a.y != b.y {
      OppositeSum(c, a.y, b.y);
    }
  }

  lemma OddComplement(c: Curve, y: int)
    requires c.Field()
    ensures (c.p - y) % 2 == 1 - y % 2
  {
    assert c.p % 4 == 3;
    hide Curve.Field;
  }

  lemma OppositeSum(c: Curve, y: int, z: int)
    requires c.Field() && 0 <= y < c.p && 0 <= z < c.p && y != z && c.Eq(y + z, 0)
    ensures y + z == c.p
  {
    Mod.Small(0, c.p);
    if y + z < c.p {
      Mod.Small(y + z, c.p);
    } else {
      Mod.AddMultiple(y + z - c.p, 1, c.p);
      Mod.Small(y + z - c.p, c.p);
    }
  }

  lemma NegOrdinate(c: Curve, a: Point)
    requires c.Field() && a.Affine? && 0 <= a.y < c.p
    ensures c.Neg(a) == Affine(a.x, if a.y == 0 then 0 else c.p - a.y)
  {
    if a.y == 0 {
      Mod.AddMultiple(0, 1, c.p);
      Mod.Small(0, c.p);
    } else {
      Mod.Small(c.p - a.y, c.p);
    }
  }

  /** Conversely, whatever _lift_x returns is on the curve, with the abscissa asked for and even
      ordinate; it fails exactly when there is no such point with positive abscissa. */
  lemma LiftXSound(c: Curve, x: int)
    requires c.Field()
    ensures LiftX(c, x).Some? ==>
              var a := LiftX(c, x).value; 0 < x < c.p && a.Affine? && a.x == x && a.y % 2 == 0 && c.OnCurve(a)
    ensures LiftX(c, x).None? ==> forall y :: 0 < x ==> !c.OnCurve(Affine(x, y))
  {
    if LiftX(c, x).Some? {
      LiftedOnCurve(c, x);
    } else {
      forall y | 0 < x ensures !c.OnCurve(Affine(x, y)) {
        if c.OnCurve(Affine(x, y)) {
          LiftXRecovers(c, Affine(x, y));
        }
      }
    }
  }

  lemma LiftedOnCurve(c: Curve, x: int)
    requires c.Field() && LiftX(c, x).Some?
    ensures var a := LiftX(c, x).value; 0 < x < c.p && a.Affine? && a.x == x && a.y % 2 == 0 && c.OnCurve(a)
  {
    var v := (Pow(x, 3) % c.p + 7) % c.p;
    var s := Pow(v, (c.p + 1) / 4) % c.p;
    CubicResidue(c, x);
    c.EqRed(Pow(v, (c.p + 1) / 4));
    SmallPowers(s);
    c.EqRed(s * s);
    var b := Affine(x, s);
    assert c.OnCurve(b);
    AddNeg(c, b);
    EvenRepresentative(c, b, b);
    assert LiftX(c, x).value == EvenY(c, b);
  }

  // ---- Specification: BIP-340 in terms of points ---------------------------------------

  /** k times the base point, as a point of the curve. */
  ghost function BaseMultiple(c: Curve, k: nat): (a: Point)
    requires Group(c)
    ensures c.OnCurve(a) && a == Multiple(c, k, G(c))
  {
    MultipleOnCurve(c, k, G(c));
    Multiple(c, k, G(c))
  }

  ghost function PublicKey(c: Curve, priv: seq<byte>): (r: Result<seq<byte>, Error>)
    requires Group(c)
  {
    if |priv| != 32 then Err(KeyLength)
    else if !(1 <= FromBE(priv) < c.n) then Err(ScalarRange)
    else
      match BaseMultiple(c, FromBE(priv))
      case Infinity => Err(PublicPointAtInfinity)
      case Affine(x, _) => Ok(ToBE(x, 32))
  }

  /** Of k and n - k, the scalar whose multiple of the base point has even ordinate. */
  function EvenScalar(c: Curve, k: nat, y: int): int
  {
    if y % 2 == 0 then k else c.n - k
  }

  function Challenge(c: Curve, h: TaggedHash, rx: seq<byte>, px: seq<byte>, msg: seq<byte>): (e: nat)
    requires c.n > 0
    ensures e < c.n
  {
    FromBE(h("BIP0340/challenge", rx + px + msg)) % c.n
  }

  function Nonce(c: Curve, h: TaggedHash, d: nat, px: seq<byte>, msg: seq<byte>, aux: seq<byte>): (k: nat)
    requires c.n > 0
    ensures k < c.n
  {
    var t := XorBytes(ToBE(d, 32), h("BIP0340/aux", aux));
    FromBE(h("BIP0340/nonce", t + px + msg)) % c.n
  }

  /** "Default Signing". */
  ghost function Sign(c: Curve, h: TaggedHash, msg: seq<byte>, priv: seq<byte>, aux: seq<byte>): Result<seq<byte>, Error>
    requires Group(c)
  {
    if |msg| != 32 then Err(MessageLength)
    else if |priv| != 32 then Err(KeyLength)
    else if |aux| != 32 then Err(AuxLength)
    else if !(1 <= FromBE(priv) < c.n) then Err(ScalarRange)
    else
      match BaseMultiple(c, FromBE(priv))
      case Infinity => Err(PublicPointAtInfinity)
      case Affine(px, py) =>
        var d := EvenScalar(c, FromBE(priv), py);
        var pxBytes := ToBE(px, 32);
        var k0 := Nonce(c, h, d, pxBytes, msg, aux);
        if k0 == 0 then Err(ZeroNonce)
        else
          match BaseMultiple(c, k0)
          case Infinity => Err(NoncePointAtInfinity)
          case Affine(rx, ry) =>
            var k := EvenScalar(c, k0, ry);
            var rxBytes := ToBE(rx, 32);
            var e := Challenge(c, h, rxBytes, pxBytes, msg);
            Ok(rxBytes + ToBE((k + e * d) % c.n, 32))
  }

  /** "Verification": s G - e P is finite, has even ordinate and abscissa r. */
  ghost predicate Verify(c: Curve, h: TaggedHash, msg: seq<byte>, pub: seq<byte>, sig: seq<byte>)
    requires Group(c)
  {
    && |msg| == 32 && |pub| == 32 && |sig| == 64
    && LiftX(c, FromBE(pub)).Some?
    && FromBE(sig[..32]) < c.p
    && FromBE(sig[32..]) < c.n
    && var P := LiftX(c, FromBE(pub)).value;
       var e := Challenge(c, h, sig[..32], pub, msg);
       var R := c.Add(BaseMultiple(c, FromBE(sig[32..])), c.Neg(Multiple(c, e, P)));
       R.Affine? && R.y % 2 == 0 && R.x == FromBE(sig[..32])
  }

  /** The unhashed shared abscissa: the secret times the even point of the peer's key. */
  ghost function SharedX(c: Curve, priv: seq<byte>, peer: seq<byte>): Result<seq<byte>, Error>
    requires Group(c)
  {
    if |priv| != 32 || |peer| != 32 then Err(KeyLength)
    else if !(1 <= FromBE(priv) < c.n) then Err(ScalarRange)
    else if LiftX(c, FromBE(peer)).None? then Err(PeerKey)
    else
      var d := FromBE(priv);
      var P := LiftX(c, FromBE(peer)).value;
      LiftXSound(c, FromBE(peer));
      MultipleOnCurve(c, d, P);
      match Multiple(c, d, P)
      case Infinity => Err(SharedPointAtInfinity)
      case Affine(x, _) => Ok(ToBE(x, 32))
  }

  // ---- The procedures of nwc_nostr.py ---------------------------------------------------

  method MulBase(c: Curve, k: nat) returns (a: Point)
    requires Group(c) && k < c.n
    ensures a == BaseMultiple(c, k) && (a.Affine? ==> a.x >= 0)
  {
    var q := JacMulBase(c, k);
    a := c.ToAffine(q);
  }

  method PubkeyFromPrivkey(c: Curve, priv: seq<byte>) returns (r: Result<seq<byte>, Error>)
    requires Group(c)
    ensures r == PublicKey(c, priv)
  {
    if |priv| != 32 { return Err(KeyLength); }
    var d0 := FromBE(priv);
    if !(1 <= d0 < c.n) { return Err(ScalarRange); }
    var pt := MulBase(c, d0);
    if pt.Infinity? { return Err(PublicPointAtInfinity); }
    return Ok(ToBE(pt.x, 32));
  }

  /** aux is the caller's auxiliary randomness, or the 32 random bytes schnorr_sign draws itself. */
  method SchnorrSign(c: Curve, h: TaggedHash, msg: seq<byte>, priv: seq<byte>, aux: seq<byte>)
    returns (r: Result<seq<byte>, Error>)
    requires Group(c)
    ensures r == Sign(c, h, msg, priv, aux)
  {
    hide FromBE, ToBE, BaseMultiple, Associative, SevenIsNotASquare, Curve.OnCurve, Curve.Field, Multiple, XorBytes;
    if |msg| != 32 { return Err(MessageLength); }
    if |priv| != 32 { return Err(KeyLength); }
    if |aux| != 32 { return Err(AuxLength); }
    var d0 := FromBE(priv);
    if !(1 <= d0 < c.n) { return Err(ScalarRange); }
    var P := MulBase(c, d0);
    if P.Infinity? { return Err(PublicPointAtInfinity); }
    var d := if P.y % 2 == 0 then d0 else c.n - d0;
    var pxBytes := ToBE(P.x, 32);
    var t := XorBytes(ToBE(d, 32), h("BIP0340/aux", aux));
    var k0 := FromBE(h("BIP0340/nonce", t + pxBytes + msg)) % c.n;
    if k0 == 0 { return Err(ZeroNonce); }
    var R := MulBase(c, k0);
    if R.Infinity? { return Err(NoncePointAtInfinity); }
    var k := if R.y % 2 == 0 then k0 else c.n - k0;
    var rxBytes := ToBE(R.x, 32);
    var e := FromBE(h("BIP0340/challenge", rxBytes + pxBytes + msg)) % c.n;
    var s := (k + e * d) % c.n;
    return Ok(rxBytes + ToBE(s, 32));
  }

  method SchnorrVerify(c: Curve, h: TaggedHash, msg: seq<byte>, pub: seq<byte>, sig: seq<byte>)
    returns (ok: bool)
    requires Group(c)
    ensures ok <==> Verify(c, h, msg, pub, sig)
  {
    if |msg| != 32 || |pub| != 32 || |sig| != 64 { return false; }
    var lifted := LiftX(c, FromBE(pub));
    if lifted.None? { return false; }
    var P := lifted.value;
    var r := FromBE(sig[..32]);
    var s := FromBE(sig[32..]);
    if r >= c.p || s >= c.n { return false; }
    var e := FromBE(h("BIP0340/challenge", sig[..32] + pub + msg)) % c.n;
    LiftXSound(c, FromBE(pub));
    var sG := JacMulBase(c, s);
    AddNeg(c, P);
    UnitDenominator(c, c.Neg(P));
    Mod.Small(e, c.n);
    var negP := Jacobian(P.x, (c.p - P.y) % c.p, 1);
    var eNegP := JacMul(c, e, negP);
    NegMultiple(c, e, P);
    c.JacAddIsGroupAdd(sG, eNegP);
    var R := c.ToAffine(c.JacAdd(sG, eNegP));
    if R.Infinity? { return false; }
    if R.y % 2 != 0 || R.x != r { return false; }
    return true;
  }

  method JacMulBase(c: Curve, k: nat) returns (q: Jacobian)
    requires Group(c) && k < c.n
    ensures c.Reduced(q) && c.JacOnCurve(q) && c.ToAffine(q) == BaseMultiple(c, k)
  {
    UnitDenominator(c, G(c));
    q := JacMul(c, k, Jacobian(c.gx, c.gy, 1));
    Mod.Small(k, c.n);
  }

  method EcdhSharedX(c: Curve, priv: seq<byte>, peer: seq<byte>) returns (r: Result<seq<byte>, Error>)
    requires Group(c)
    ensures r == SharedX(c, priv, peer)
  {
    if |priv| != 32 || |peer| != 32 { return Err(KeyLength); }
    var d := FromBE(priv);
    if !(1 <= d < c.n) { return Err(ScalarRange); }
    var lifted := LiftX(c, FromBE(peer));
    if lifted.None? { return Err(PeerKey); }
    LiftXSound(c, FromBE(peer));
    UnitDenominator(c, lifted.value);
    Mod.Small(d, c.n);
    var q := JacMul(c, d, Jacobian(lifted.value.x, lifted.value.y, 1));
    var shared := c.ToAffine(q);
    MultipleOnCurve(c, d, lifted.value);
    if shared.Infinity? { return Err(SharedPointAtInfinity); }
    return Ok(ToBE(shared.x, 32));
  }

  // ---- Signatures verify ---------------------------------------------------------------

  /** The even scalar's point is the even point. */
  lemma EvenScalarPoint(c: Curve, k: nat)
    requires Group(c) && 0 < k < c.n && BaseMultiple(c, k).Affine?
    ensures var a := BaseMultiple(c, k);
            var k' := EvenScalar(c, k, a.y);
            0 < k' < c.n && BaseMultiple(c, k') == EvenY(c, a) && EvenY(c, a).Affine?
            && EvenY(c, a).x == a.x && EvenY(c, a).y % 2 == 0
  {
    var a := BaseMultiple(c, k);
    EvenRepresentative(c, a, a);
    if a.y % 2 != 0 {
      Mod.AddMultiple(0, 1, c.n);
      Mod.Small(0, c.n);
      ComplementIsNeg(c, c.n - k, k);
    }
  }

  /** (k + e d) G - e (d G) = k G. */
  lemma SignatureEquation(c: Curve, k: nat, d: nat, e: nat)
    requires Group(c)
    ensures c.Add(BaseMultiple(c, (k + e * d) % c.n), c.Neg(Multiple(c, e, BaseMultiple(c, d)))) == BaseMultiple(c, k)
  {
    var kG := BaseMultiple(c, k);
    assert c.Add(kG, Infinity) == kG;
    hide Curve.Add, Curve.Neg, Curve.OnCurve, Multiple;
    var m := e * d;
    var X := BaseMultiple(c, m);
    MultipleMod(c, k + m, G(c));
    MultipleAdd(c, k, m, G(c));
    MultipleMul(c, e, d, G(c));
    AddNeg(c, X);
    assert AssociativeAt(c, kG, X, c.Neg(X));
  }

  lemma AbscissaPositive(c: Curve, a: Point)
    requires c.p > 2 && SevenIsNotASquare(c) && c.OnCurve(a) && a.Affine?
    ensures 0 < a.x < c.p
  {
    assert !RootOfSeven(c, a.y);
  }

  /** The abscissa of a finite multiple of the base point survives encoding and _lift_x. */
  lemma EncodedPointLifts(c: Curve, k: nat)
    requires Group(c) && Fits(c) && BaseMultiple(c, k).Affine?
    ensures var a := BaseMultiple(c, k);
            0 < a.x < c.p && FromBE(ToBE(a.x, 32)) == a.x && LiftX(c, a.x) == Some(EvenY(c, a))
  {
    hide Pow256, FromBE, ToBE, LiftX, Multiple, EvenY, Curve.OnCurve, SevenIsNotASquare;
    var a := BaseMultiple(c, k);
    AbscissaPositive(c, a);
    FromToBE(a.x, 32);
    LiftXRecovers(c, a);
  }

  /** BIP-340 completeness: whatever signing returns, verification accepts under the signer's key. */
  lemma SchnorrCompleteness(c: Curve, h: TaggedHash, msg: seq<byte>, priv: seq<byte>, aux: seq<byte>)
    requires Group(c) && Fits(c)
    requires Sign(c, h, msg, priv, aux).Ok?
    ensures PublicKey(c, priv).Ok?
    ensures Verify(c, h, msg, PublicKey(c, priv).value, Sign(c, h, msg, priv, aux).value)
  {
    hide LiftX, Curve.Add, Curve.Neg, Curve.OnCurve, Multiple, EvenY, EvenScalar, Challenge, Nonce, Group, Pow256,
         FromBE, ToBE;
    var d0 := FromBE(priv);
    var P0 := BaseMultiple(c, d0);
    EvenScalarPoint(c, d0);
    EncodedPointLifts(c, d0);
    var d := EvenScalar(c, d0, P0.y);
    var px := ToBE(P0.x, 32);
    var k0 := Nonce(c, h, d, px, msg, aux);
    var R0 := BaseMultiple(c, k0);
    EvenScalarPoint(c, k0);
    EncodedPointLifts(c, k0);
    var k := EvenScalar(c, k0, R0.y);
    var rx := ToBE(R0.x, 32);
    var e := Challenge(c, h, rx, px, msg);
    SignatureEquation(c, k, d, e);
    var s := (k + e * d) % c.n;
    SplitSignature(c, rx, s);
  }

  lemma SplitSignature(c: Curve, rx: seq<byte>, s: nat)
    requires |rx| == 32 && s < c.n && Fits(c)
    ensures var sig := rx + ToBE(s, 32); |sig| == 64 && sig[..32] == rx && FromBE(sig[32..]) == s
  {
    var sig := rx + ToBE(s, 32);
    assert sig[..32] == rx;
    assert sig[32..] == ToBE(s, 32);
    FromToBE(s, 32);
  }

  // ---- What verification accepts -------------------------------------------------------

  lemma NegCancels(c: Curve, a: Point)
    requires c.Field() && c.OnCurve(a)
    ensures c.OnCurve(c.Neg(a)) && c.Add(c.Neg(a), a) == Infinity && c.Add(a, c.Neg(a)) == Infinity
  {
    AddNeg(c, a);
  }

  /** u - a = v exactly when u = v + a. */
  lemma MoveAcross(c: Curve, u: Point, a: Point, v: Point)
    requires c.Field() && Associative(c) && c.OnCurve(u) && c.OnCurve(a) && c.OnCurve(v)
    ensures c.Add(u, c.Neg(a)) == v <==> u == c.Add(v, a)
  {
    NegCancels(c, a);
    assert c.Add(u, Infinity) == u && c.Add(v, Infinity) == v;
    hide Curve.Add, Curve.Neg, Curve.OnCurve;
    assert AssociativeAt(c, u, c.Neg(a), a);
    assert AssociativeAt(c, v, a, c.Neg(a));
  }

  /** A point with even ordinate is what its abscissa lifts to. */
  lemma LiftsToIff(c: Curve, x: nat, R: Point)
    requires Group(c) && c.OnCurve(R)
    ensures R.Affine? && R.y % 2 == 0 && R.x == x <==> LiftX(c, x) == Some(R)
  {
    hide LiftX, Curve.OnCurve, SevenIsNotASquare, Associative;
    LiftXSound(c, x);
    if R.Affine? && R.y % 2 == 0 && R.x == x {
      AbscissaPositive(c, R);
      LiftXRecovers(c, R);
    }
  }

  /** "Verification", as an equation: a signature r | s is accepted exactly when the lengths are right, the key
      lifts to P, r lifts to R, s is reduced and s G = R + e P, where e is the challenge of r, the key and
      the message. */
  lemma VerifyIff(c: Curve, h: TaggedHash, msg: seq<byte>, pub: seq<byte>, sig: seq<byte>)
    requires Group(c)
    ensures Verify(c, h, msg, pub, sig) <==>
            && |msg| == 32 && |pub| == 32 && |sig| == 64
            && var e := FromBE(h("BIP0340/challenge", sig[..32] + pub + msg)) % c.n;
               var P, R, s := LiftX(c, FromBE(pub)), LiftX(c, FromBE(sig[..32])), FromBE(sig[32..]);
               P.Some? && R.Some? && s < c.n && Multiple(c, s, G(c)) == c.Add(R.value, Multiple(c, e, P.value))
  {
    hide LiftX, Curve.Add, Curve.Neg, Curve.OnCurve, Multiple, FromBE, Associative, SevenIsNotASquare;
    if |msg| == 32 && |pub| == 32 && |sig| == 64 && LiftX(c, FromBE(pub)).Some? {
      var P := LiftX(c, FromBE(pub)).value;
      var e := FromBE(h("BIP0340/challenge", sig[..32] + pub + msg)) % c.n;
      var r, sG := FromBE(sig[..32]), BaseMultiple(c, FromBE(sig[32..]));
      LiftXSound(c, FromBE(pub));
      MultipleOnCurve(c, e, P);
      var X := Multiple(c, e, P);
      NegCancels(c, X);
      var R := c.Add(sG, c.Neg(X));
      c.AddOnCurve(sG, c.Neg(X));
      LiftsToIff(c, r, R);
      LiftXSound(c, r);
      if LiftX(c, r).Some? { MoveAcross(c, sG, X, LiftX(c, r).value); }
    }
  }

  /** No point has abscissa 0, so the signature of 64 zero bytes is refused under every key. */
  lemma ZeroSignatureRefused(c: Curve, h: TaggedHash, msg: seq<byte>, pub: seq<byte>, sig: seq<byte>)
    requires Group(c) && |sig| >= 32 && FromBE(sig[..32]) == 0
    ensures !Verify(c, h, msg, pub, sig)
  {
    hide FromBE, Curve.Add, Curve.Neg, Curve.OnCurve, Multiple, Associative, SevenIsNotASquare;
    VerifyIff(c, h, msg, pub, sig);
  }

  /** An altered s is refused: for one message, key and r, every accepted s gives the same point, and when n is
      exactly the order of the base point there is at most one. */
  lemma AlteredScalarRefused(c: Curve, h: TaggedHash, msg: seq<byte>, pub: seq<byte>, sig: seq<byte>, sig': seq<byte>)
    requires Group(c) && Verify(c, h, msg, pub, sig) && Verify(c, h, msg, pub, sig') && sig[..32] == sig'[..32]
    ensures BaseMultiple(c, FromBE(sig[32..])) == BaseMultiple(c, FromBE(sig'[32..]))
    ensures (forall k :: 0 < k < c.n ==> BaseMultiple(c, k).Affine?) ==> sig == sig'
  {
    hide LiftX, FromBE, ToBE, Curve.Add, Curve.Neg, Curve.OnCurve, Multiple, Associative, SevenIsNotASquare;
    VerifyIff(c, h, msg, pub, sig);
    VerifyIff(c, h, msg, pub, sig');
    if forall k :: 0 < k < c.n ==> BaseMultiple(c, k).Affine? {
      var s, s' := FromBE(sig[32..]), FromBE(sig'[32..]);
      SameScalar(c, s, s');
      SameScalar(c, s', s);
      ToFromBE(sig[32..]);
      ToFromBE(sig'[32..]);
      assert sig == sig[..32] + sig[32..] && sig' == sig'[..32] + sig'[32..];
    }
  }

  /** An altered r is refused: for one s and one value of the challenge, at most one r is accepted. */
  lemma AlteredAbscissaRefused(c: Curve, h: TaggedHash, msg: seq<byte>, pub: seq<byte>, sig: seq<byte>, sig': seq<byte>)
    requires Group(c) && Verify(c, h, msg, pub, sig) && Verify(c, h, msg, pub, sig') && sig[32..] == sig'[32..]
    requires Challenge(c, h, sig[..32], pub, msg) == Challenge(c, h, sig'[..32], pub, msg)
    ensures sig == sig'
  {
    hide LiftX, FromBE, ToBE, Curve.Add, Curve.Neg, Curve.OnCurve, Multiple, Associative, SevenIsNotASquare, Challenge;
    ToFromBE(sig[..32]);
    ToFromBE(sig'[..32]);
    assert sig == sig[..32] + sig[32..] && sig' == sig'[..32] + sig'[32..];
  }

  lemma SameScalar(c: Curve, s: nat, s': nat)
    requires Group(c) && s < c.n && s' < c.n && BaseMultiple(c, s) == BaseMultiple(c, s')
    requires forall k :: 0 < k < c.n ==> BaseMultiple(c, k).Affine?
    ensures s <= s'
  {
    if s > s' {
      hide Curve.Add, Curve.Neg, Curve.OnCurve, Multiple;
      var k := s - s';
      MultipleAdd(c, k, s', G(c));
      MultipleOnCurve(c, s', G(c));
      var X := BaseMultiple(c, s');
      assert c.Add(BaseMultiple(c, k), X) == X;
      OnlyZeroKeeps(c, BaseMultiple(c, k), X);
    }
  }

  lemma OnlyZeroKeeps(c: Curve, a: Point, b: Point)
    requires Group(c) && c.OnCurve(a) && c.OnCurve(b) && c.Add(a, b) == b
    ensures a == Infinity
  {
    MoveAcross(c, b, b, a);
    NegCancels(c, b);
  }

  /** "Default Signing", in plain terms: the nonce is the tagged hash of the masked secret, the key and the message,
      where the mask is the tagged hash of the auxiliary bytes and the secret that of the even public point;
      the signature begins with the abscissa of the nonce's point. */
  lemma SignedNonce(c: Curve, h: TaggedHash, msg: seq<byte>, priv: seq<byte>, aux: seq<byte>, d: nat, t: seq<byte>)
    requires Group(c) && Sign(c, h, msg, priv, aux).Ok?
    requires var P := Multiple(c, FromBE(priv), G(c));
             P.Affine? && d == if P.y % 2 == 0 then FromBE(priv) else c.n - FromBE(priv)
    requires |t| == 32 && |h("BIP0340/aux", aux)| == 32
    requires forall i :: 0 <= i < 32 ==> t[i] == ToBE(d, 32)[i] ^ h("BIP0340/aux", aux)[i]
    ensures PublicKey(c, priv).Ok?
    ensures var k := FromBE(h("BIP0340/nonce", t + PublicKey(c, priv).value + msg)) % c.n;
            var a := Multiple(c, k, G(c));
            k > 0 && a.Affine? && |Sign(c, h, msg, priv, aux).value| == 64
            && Sign(c, h, msg, priv, aux).value[..32] == ToBE(a.x, 32)
  {
    hide FromBE, ToBE, Multiple, Group, Challenge;
    assert t == XorBytes(ToBE(d, 32), h("BIP0340/aux", aux));
  }

  /** When n is exactly the order of the base point, signing fails only for the documented
      reasons: a wrong length, a scalar out of range or a zero nonce. */
  lemma SignSucceedsIff(c: Curve, h: TaggedHash, msg: seq<byte>, priv: seq<byte>, aux: seq<byte>)
    requires Group(c)
    requires forall k :: 0 < k < c.n ==> BaseMultiple(c, k).Affine?
    ensures Sign(c, h, msg, priv, aux).Ok? <==>
            && |msg| == 32 && |priv| == 32 && |aux| == 32 && 1 <= FromBE(priv) < c.n
            && var P := BaseMultiple(c, FromBE(priv));
               var d := EvenScalar(c, FromBE(priv), P.y);
               Nonce(c, h, d, ToBE(P.x, 32), msg, aux) != 0
  {
  }

  // ---- Key agreement -------------------------------------------------------------------

  ghost function Abscissa(a: Point): Option<int> {
    if a.Infinity? then None else Some(a.x)
  }

  /** a (n - b) and a b times the base point are opposite. */
  lemma ProductComplement(c: Curve, a: nat, b: nat, b': nat)
    requires Group(c) && b' + b == c.n
    ensures a * b >= 0 && a * b' >= 0 && BaseMultiple(c, a * b') == c.Neg(BaseMultiple(c, a * b))
  {
    hide Curve.Add, Curve.Neg, Curve.OnCurve, Multiple;
    var m := a * b;
    var m' := a * b';
    assert m' + m == a * c.n by { assert a * b' + a * b == a * (b' + b); }
    Mod.AddMultiple(0, a, c.n);
    Mod.Small(0, c.n);
    ComplementIsNeg(c, m', m);
  }

  /** Taking the even representative of the peer's point changes the product at most by sign. */
  lemma EvenPeerAbscissa(c: Curve, a: nat, b: nat)
    requires Group(c) && 0 < b < c.n && BaseMultiple(c, b).Affine?
    ensures a * b >= 0
    ensures Abscissa(Multiple(c, a, EvenY(c, BaseMultiple(c, b)))) == Abscissa(BaseMultiple(c, a * b))
  {
    var y := BaseMultiple(c, b).y;
    var b' := EvenScalar(c, b, y);
    ProductComplement(c, a, b, c.n - b);
    hide Curve.Add, Curve.OnCurve, Multiple, EvenY;
    EvenScalarPoint(c, b);
    MultipleMul(c, a, b', G(c));
  }

  /** Both parties derive the same shared abscissa (or the same error) from the other's x-only
      key, whatever the parities of the two public points. */
  lemma EcdhAgreement(c: Curve, a: seq<byte>, b: seq<byte>)
    requires Group(c) && Fits(c) && PublicKey(c, a).Ok? && PublicKey(c, b).Ok?
    ensures SharedX(c, a, PublicKey(c, b).value) == SharedX(c, b, PublicKey(c, a).value)
  {
    var m, n := FromBE(a), FromBE(b);
    EncodedPointLifts(c, m);
    EncodedPointLifts(c, n);
    EvenPeerAbscissa(c, m, n);
    EvenPeerAbscissa(c, n, m);
    assert m * n == n * m;
  }

  /** The shared value is the abscissa of (a b) G, or the error when that is the point at infinity. */
  lemma SharedXIsProduct(c: Curve, a: seq<byte>, b: seq<byte>)
    requires Group(c) && Fits(c) && PublicKey(c, a).Ok? && PublicKey(c, b).Ok?
    ensures FromBE(a) * FromBE(b) >= 0
    ensures SharedX(c, a, PublicKey(c, b).value) ==
            match Multiple(c, FromBE(a) * FromBE(b), G(c))
            case Infinity => Err(SharedPointAtInfinity)
            case Affine(x, _) => Ok(ToBE(x, 32))
  {
    EncodedPointLifts(c, FromBE(b));
    EvenPeerAbscissa(c, FromBE(a), FromBE(b));
    hide Multiple, FromBE, ToBE, LiftX, EvenY, Curve.OnCurve, Curve.Add;
  }

  // ---- The instance --------------------------------------------------------------------

  /** The constants of nwc_nostr.py: sizes, residue of p modulo 4 and the base point on the curve
      hold by computation. */
  lemma Secp256k1Constants()
    ensures SECP256K1.p == Pow256(32) - 0x1_0000_0000 - 977
    ensures SECP256K1.n == Pow256(32) - 432420386565659656852420866394968145599
    ensures var c := SECP256K1; c.p > 3 && c.p % 4 == 3 && c.n > 1 && Fits(c) && c.OnCurve(G(c))
  {
    assert Pow256(8) == 0x1_0000000000000000;
    assert Pow256(16) == 0x1_00000000000000000000000000000000;
    assert Pow256(24) == 0x1_000000000000000000000000000000000000000000000000;
    assert Pow256(32) == 0x1_0000000000000000000000000000000000000000000000000000000000000000;
  }
}
