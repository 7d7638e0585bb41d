/** Byte strings and their big-endian and little-endian integer values. */
module Bytes {
  type byte = bv8

  // ---- Bytes and their values ------------------------------------------------------------

  /** The byte of value i, found by counting up to it. */
  function ByteAt(i: int): byte
    requires 0 <= i < 256
  {
    if i == 0 then 0 else ByteAt(i - 1) + 1
  }

  function Index(b: byte): (i: int)
    ensures 0 <= i < 256
  {
    b as int
  }

  lemma {:induction false} IndexByteAt(i: int)
    requires 0 <= i < 256
    ensures Index(ByteAt(i)) == i
  {
    if i > 0 {
      IndexByteAt(i - 1);
      NextByte(ByteAt(i - 1));
    }
  }

  lemma NextByte(b: byte)
    requires Index(b) < 255
    ensures Index(b + 1) == Index(b) + 1
  {
  }

  lemma IndexInjective(b: byte, c: byte)
    requires Index(b) == Index(c)
    ensures b == c
  {
  }

  lemma ByteAtIndex(b: byte)
    ensures ByteAt(Index(b)) == b
  {
    hide ByteAt, Index;
    IndexByteAt(Index(b));
    IndexInjective(ByteAt(Index(b)), b);
  }

  // ---- Big-endian numbers ----------------------------------------------------------------

  function Pow256(k: nat): (r: nat)
    ensures r >= 1
  {
    if k == 0 then 1 else 256 * Pow256(k - 1)
  }

  /** int.from_bytes(b, "big") */
  function FromBE(b: seq<byte>): (r: nat)
  {
    if b == [] then 0 else 256 * FromBE(b[..|b| - 1]) + Index(b[|b| - 1])
  }

  /** x.to_bytes(k, "big"), for an x that fits. */
  function ToBE(x: nat, k: nat): (b: seq<byte>)
    ensures |b| == k
  {
    if k == 0 then [] else ToBE(x / 256, k - 1) + [ByteAt(x % 256)]
  }

  lemma {:induction false} FromBEBound(b: seq<byte>)
    ensures FromBE(b) < Pow256(|b|)
  {
    hide Index;
    if b != [] {
      FromBEBound(b[..|b| - 1]);
    }
  }

  lemma {:induction false} FromToBE(x: nat, k: nat)
    requires x < Pow256(k)
    ensures FromBE(ToBE(x, k)) == x
  {
    hide ByteAt, Index;
    if k > 0 {
      var t := ToBE(x / 256, k - 1);
      assert (t + [ByteAt(x % 256)])[..k - 1] == t;
      FromToBE(x / 256, k - 1);
      IndexByteAt(x % 256);
    }
  }

  lemma {:induction false} ToFromBE(b: seq<byte>)
    ensures ToBE(FromBE(b), |b|) == b
  {
    hide ByteAt, Index;
    if b != [] {
      var h := b[..|b| - 1];
      ToFromBE(h);
      assert FromBE(b) / 256 == FromBE(h);
      assert FromBE(b) % 256 == Index(b[|b| - 1]);
      ByteAtIndex(b[|b| - 1]);
      assert h + [b[|b| - 1]] == b;
    }
  }

  // ---- Exclusive or ----------------------------------------------------------------------

  /** Exclusive or, under a name that a proof can leave closed. */
  function Xor(a: byte, b: byte): byte {
    a ^ b
  }

  /** bytes(a ^ b for a, b in zip(x, y)) */
  function XorBytes(x: seq<byte>, y: seq<byte>): (z: seq<byte>)
    ensures |z| == if |x| <= |y| then |x| else |y|
    ensures forall i :: 0 <= i < |z| ==> z[i] == Xor(x[i], y[i])
  {
    seq(if |x| <= |y| then |x| else |y|, i requires 0 <= i < |x| && i < |y| => Xor(x[i], y[i]))
  }

  lemma XorTwice(x: seq<byte>, y: seq<byte>)
    requires |x| <= |y|
    ensures XorBytes(XorBytes(x, y), y) == x
  {
    hide Xor;
    var z := XorBytes(x, y);
    forall i | 0 <= i < |x| ensures Xor(z[i], y[i]) == x[i] {
      XorCancels(x[i], y[i]);
    }
  }

  lemma XorCancels(a: byte, b: byte)
    ensures Xor(Xor(a, b), b) == a
  {
  }

  lemma XorAssociates(a: byte, b: byte, c: byte)
    ensures Xor(Xor(a, b), c) == Xor(a, Xor(b, c))
  {
  }

  lemma XorCommutes(a: byte, b: byte)
    ensures Xor(a, b) == Xor(b, a)
  {
  }

  lemma XorZero(a: byte)
    ensures Xor(a, 0) == a && Xor(0, a) == a && Xor(a, a) == 0
  {
  }
}
