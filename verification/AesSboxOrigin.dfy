/** Where the substitution table comes from: FIPS 197 section 5.1.1, the reciprocal in the field of 256
    elements followed by an affine map. */
module AesSboxOrigin {
  import opened AesSbox
  import opened Bytes
  import opened Gf256

  // ---- The affine map --------------------------------------------------------------------

  /** A byte turned left by k bits. */
  function Turned(b: byte, k: nat): byte
    requires 0 < k < 8
  {
    match k
    case 1 => (b << 1) | (b >> 7)
    case 2 => (b << 2) | (b >> 6)
    case 3 => (b << 3) | (b >> 5)
    case 4 => (b << 4) | (b >> 4)
    case 5 => (b << 5) | (b >> 3)
    case 6 => (b << 6) | (b >> 2)
    case _ => (b << 7) | (b >> 1)
  }

  /** Bit i of the result is the sum of bits i, i + 4, i + 5, i + 6 and i + 7 of y and of 0x63. */
  function Affine(y: byte): byte {
    y ^ Turned(y, 1) ^ Turned(y, 2) ^ Turned(y, 3) ^ Turned(y, 4) ^ 0x63
  }

  function Unaffine(s: byte): byte {
    Turned(s, 1) ^ Turned(s, 3) ^ Turned(s, 6) ^ 0x05
  }

  lemma AffineUnaffine(s: byte)
    ensures Affine(Unaffine(s)) == s
  {
  }

  // ---- The product in closed form --------------------------------------------------------

  function Term(a: byte, b: byte, mask: byte): byte {
    if b & mask != 0 then a else 0
  }

  /** The sum of a, 2a, ..., 128a over the bits of b. */
  function Product(a: byte, b: byte): byte {
    var a1 := Xtime(a);
    var a2 := Xtime(a1);
    var a3 := Xtime(a2);
    var a4 := Xtime(a3);
    var a5 := Xtime(a4);
    var a6 := Xtime(a5);
    var a7 := Xtime(a6);
    Xor(Four(Term(a, b, 1), Term(a1, b, 2), Term(a2, b, 4), Term(a3, b, 8)),
        Four(Term(a4, b, 16), Term(a5, b, 32), Term(a6, b, 64), Term(a7, b, 128)))
  }

  function Four(a: byte, b: byte, c: byte, d: byte): byte {
    a ^ b ^ c ^ d
  }

  lemma FourIsSum(a: byte, b: byte, c: byte, d: byte)
    ensures Four(a, b, c, d) == Sum4(a, b, c, d)
  {
  }

  lemma AddFour(p: byte, a: byte, b: byte, c: byte, d: byte)
    ensures Xor(Xor(Xor(Xor(p, a), b), c), d) == Xor(p, Four(a, b, c, d))
  {
    hide Xor, Four;
    FourIsSum(a, b, c, d);
    XorAssociates(p, a, b);
    XorAssociates(p, Xor(a, b), c);
    XorAssociates(p, Xor(Xor(a, b), c), d);
  }

  lemma HalvedBits(b: byte)
    ensures Odd(b) <==> b & 1 != 0
    ensures Odd(Half(b)) <==> b & 2 != 0
    ensures Odd(Half(Half(b))) <==> b & 4 != 0
    ensures Odd(Half(Half(Half(b)))) <==> b & 8 != 0
    ensures Odd(Half(Half(Half(Half(b))))) <==> b & 16 != 0
    ensures Odd(Half(Half(Half(Half(Half(b)))))) <==> b & 32 != 0
    ensures Odd(Half(Half(Half(Half(Half(Half(b))))))) <==> b & 64 != 0
    ensures Odd(Half(Half(Half(Half(Half(Half(Half(b)))))))) <==> b & 128 != 0
  {
  }

  /** One step of shift-and-add adds one term. */
  lemma StepAddsTerm(p: byte, a: byte, b: byte, n: nat, whole: byte, mask: byte)
    requires n > 0 && (Odd(b) <==> whole & mask != 0)
    ensures GmulFrom(p, a, b, n) == GmulFrom(Xor(p, Term(a, whole, mask)), Xtime(a), Half(b), n - 1)
  {
    GmulStep(p, a, b, n);
    XorZero(p);
    hide GmulFrom, Xor, Odd, Half, Xtime;
  }

  lemma ProductIsGmul(a: byte, b: byte)
    ensures Gmul(a, b) == Product(a, b)
  {
    hide GmulFrom, Xor, Odd, Half, Xtime, Term, Four;
    HalvedBits(b);
    var b1, p1 := Half(b), Xor(0, Term(a, b, 1));
    StepAddsTerm(0, a, b, 8, b, 1);
    var a1 := Xtime(a);
    var b2, p2 := Half(b1), Xor(p1, Term(a1, b, 2));
    StepAddsTerm(p1, a1, b1, 7, b, 2);
    var a2 := Xtime(a1);
    var b3, p3 := Half(b2), Xor(p2, Term(a2, b, 4));
    StepAddsTerm(p2, a2, b2, 6, b, 4);
    var a3 := Xtime(a2);
    var b4, p4 := Half(b3), Xor(p3, Term(a3, b, 8));
    StepAddsTerm(p3, a3, b3, 5, b, 8);
    var a4 := Xtime(a3);
    var b5, p5 := Half(b4), Xor(p4, Term(a4, b, 16));
    StepAddsTerm(p4, a4, b4, 4, b, 16);
    var a5 := Xtime(a4);
    var b6, p6 := Half(b5), Xor(p5, Term(a5, b, 32));
    StepAddsTerm(p5, a5, b5, 3, b, 32);
    var a6 := Xtime(a5);
    var b7, p7 := Half(b6), Xor(p6, Term(a6, b, 64));
    StepAddsTerm(p6, a6, b6, 2, b, 64);
    var a7 := Xtime(a6);
    var b8, p8 := Half(b7), Xor(p7, Term(a7, b, 128));
    StepAddsTerm(p7, a7, b7, 1, b, 128);
    GmulDone(p8, Xtime(a7), b8);
    AddFour(0, Term(a, b, 1), Term(a1, b, 2), Term(a2, b, 4), Term(a3, b, 8));
    XorZero(p4);
    XorZero(Four(Term(a, b, 1), Term(a1, b, 2), Term(a2, b, 4), Term(a3, b, 8)));
    AddFour(p4, Term(a4, b, 16), Term(a5, b, 32), Term(a6, b, 64), Term(a7, b, 128));
  }

  lemma GmulDone(p: byte, a: byte, b: byte)
    ensures GmulFrom(p, a, b, 0) == p
  {
  }

  // ---- Each entry, a row at a time ---------------------------------------------------------

  lemma Reciprocals0(b: byte)
    requires 0 < b < 0x10
    ensures Product(b, Unaffine(SubRow0(b))) == 1
  {
    if b == 0x01 {} else if b == 0x02 {} else if b == 0x03 {} else if b == 0x04 {} else
    if b == 0x05 {} else if b == 0x06 {} else if b == 0x07 {} else if b == 0x08 {} else
    if b == 0x09 {} else if b == 0x0A {} else if b == 0x0B {} else if b == 0x0C {} else
    if b == 0x0D {} else if b == 0x0E {} else {}
  }

  lemma Reciprocals1(b: byte)
    requires 0x10 <= b < 0x20
    ensures Product(b, Unaffine(SubRow1(b))) == 1
  {
    if b == 0x10 {} else if b == 0x11 {} else if b == 0x12 {} else if b == 0x13 {} else
    if b == 0x14 {} else if b == 0x15 {} else if b == 0x16 {} else if b == 0x17 {} else
    if b == 0x18 {} else if b == 0x19 {} else if b == 0x1A {} else if b == 0x1B {} else
    if b == 0x1C {} else if b == 0x1D {} else if b == 0x1E {} else {}
  }

  lemma Reciprocals2(b: byte)
    requires 0x20 <= b < 0x30
    ensures Product(b, Unaffine(SubRow2(b))) == 1
  {
    if b == 0x20 {} else if b == 0x21 {} else if b == 0x22 {} else if b == 0x23 {} else
    if b == 0x24 {} else if b == 0x25 {} else if b == 0x26 {} else if b == 0x27 {} else
    if b == 0x28 {} else if b == 0x29 {} else if b == 0x2A {} else if b == 0x2B {} else
    if b == 0x2C {} else if b == 0x2D {} else if b == 0x2E {} else {}
  }

  lemma Reciprocals3(b: byte)
    requires 0x30 <= b < 0x40
    ensures Product(b, Unaffine(SubRow3(b))) == 1
  {
    if b == 0x30 {} else if b == 0x31 {} else if b == 0x32 {} else if b == 0x33 {} else
    if b == 0x34 {} else if b == 0x35 {} else if b == 0x36 {} else if b == 0x37 {} else
    if b == 0x38 {} else if b == 0x39 {} else if b == 0x3A {} else if b == 0x3B {} else
    if b == 0x3C {} else if b == 0x3D {} else if b == 0x3E {} else {}
  }

  lemma Reciprocals4(b: byte)
    requires 0x40 <= b < 0x50
    ensures Product(b, Unaffine(SubRow4(b))) == 1
  {
    if b == 0x40 {} else if b == 0x41 {} else if b == 0x42 {} else if b == 0x43 {} else
    if b == 0x44 {} else if b == 0x45 {} else if b == 0x46 {} else if b == 0x47 {} else
    if b == 0x48 {} else if b == 0x49 {} else if b == 0x4A {} else if b == 0x4B {} else
    if b == 0x4C {} else if b == 0x4D {} else if b == 0x4E {} else {}
  }

  lemma Reciprocals5(b: byte)
    requires 0x50 <= b < 0x60
    ensures Product(b, Unaffine(SubRow5(b))) == 1
  {
    if b == 0x50 {} else if b == 0x51 {} else if b == 0x52 {} else if b == 0x53 {} else
    if b == 0x54 {} else if b == 0x55 {} else if b == 0x56 {} else if b == 0x57 {} else
    if b == 0x58 {} else if b == 0x59 {} else if b == 0x5A {} else if b == 0x5B {} else
    if b == 0x5C {} else if b == 0x5D {} else if b == 0x5E {} else {}
  }

  lemma Reciprocals6(b: byte)
    requires 0x60 <= b < 0x70
    ensures Product(b, Unaffine(SubRow6(b))) == 1
  {
    if b == 0x60 {} else if b == 0x61 {} else if b == 0x62 {} else if b == 0x63 {} else
    if b == 0x64 {} else if b == 0x65 {} else if b == 0x66 {} else if b == 0x67 {} else
    if b == 0x68 {} else if b == 0x69 {} else if b == 0x6A {} else if b == 0x6B {} else
    if b == 0x6C {} else if b == 0x6D {} else if b == 0x6E {} else {}
  }

  lemma Reciprocals7(b: byte)
    requires 0x70 <= b < 0x80
    ensures Product(b, Unaffine(SubRow7(b))) == 1
  {
    if b == 0x70 {} else if b == 0x71 {} else if b == 0x72 {} else if b == 0x73 {} else
    if b == 0x74 {} else if b == 0x75 {} else if b == 0x76 {} else if b == 0x77 {} else
    if b == 0x78 {} else if b == 0x79 {} else if b == 0x7A {} else if b == 0x7B {} else
    if b == 0x7C {} else if b == 0x7D {} else if b == 0x7E {} else {}
  }

  lemma Reciprocals8(b: byte)
    requires 0x80 <= b < 0x90
    ensures Product(b, Unaffine(SubRow8(b))) == 1
  {
    if b == 0x80 {} else if b == 0x81 {} else if b == 0x82 {} else if b == 0x83 {} else
    if b == 0x84 {} else if b == 0x85 {} else if b == 0x86 {} else if b == 0x87 {} else
    if b == 0x88 {} else if b == 0x89 {} else if b == 0x8A {} else if b == 0x8B {} else
    if b == 0x8C {} else if b == 0x8D {} else if b == 0x8E {} else {}
  }

  lemma Reciprocals9(b: byte)
    requires 0x90 <= b < 0xA0
    ensures Product(b, Unaffine(SubRow9(b))) == 1
  {
    if b == 0x90 {} else if b == 0x91 {} else if b == 0x92 {} else if b == 0x93 {} else
    if b == 0x94 {} else if b == 0x95 {} else if b == 0x96 {} else if b == 0x97 {} else
    if b == 0x98 {} else if b == 0x99 {} else if b == 0x9A {} else if b == 0x9B {} else
    if b == 0x9C {} else if b == 0x9D {} else if b == 0x9E {} else {}
  }

  lemma ReciprocalsA(b: byte)
    requires 0xA0 <= b < 0xB0
    ensures Product(b, Unaffine(SubRowA(b))) == 1
  {
    if b == 0xA0 {} else if b == 0xA1 {} else if b == 0xA2 {} else if b == 0xA3 {} else
    if b == 0xA4 {} else if b == 0xA5 {} else if b == 0xA6 {} else if b == 0xA7 {} else
    if b == 0xA8 {} else if b == 0xA9 {} else if b == 0xAA {} else if b == 0xAB {} else
    if b == 0xAC {} else if b == 0xAD {} else if b == 0xAE {} else {}
  }

  lemma ReciprocalsB(b: byte)
    requires 0xB0 <= b < 0xC0
    ensures Product(b, Unaffine(SubRowB(b))) == 1
  {
    if b == 0xB0 {} else if b == 0xB1 {} else if b == 0xB2 {} else if b == 0xB3 {} else
    if b == 0xB4 {} else if b == 0xB5 {} else if b == 0xB6 {} else if b == 0xB7 {} else
    if b == 0xB8 {} else if b == 0xB9 {} else if b == 0xBA {} else if b == 0xBB {} else
    if b == 0xBC {} else if b == 0xBD {} else if b == 0xBE {} else {}
  }

  lemma ReciprocalsC(b: byte)
    requires 0xC0 <= b < 0xD0
    ensures Product(b, Unaffine(SubRowC(b))) == 1
  {
    if b == 0xC0 {} else if b == 0xC1 {} else if b == 0xC2 {} else if b == 0xC3 {} else
    if b == 0xC4 {} else if b == 0xC5 {} else if b == 0xC6 {} else if b == 0xC7 {} else
    if b == 0xC8 {} else if b == 0xC9 {} else if b == 0xCA {} else if b == 0xCB {} else
    if b == 0xCC {} else if b == 0xCD {} else if b == 0xCE {} else {}
  }

  lemma ReciprocalsD(b: byte)
    requires 0xD0 <= b < 0xE0
    ensures Product(b, Unaffine(SubRowD(b))) == 1
  {
    if b == 0xD0 {} else if b == 0xD1 {} else if b == 0xD2 {} else if b == 0xD3 {} else
    if b == 0xD4 {} else if b == 0xD5 {} else if b == 0xD6 {} else if b == 0xD7 {} else
    if b == 0xD8 {} else if b == 0xD9 {} else if b == 0xDA {} else if b == 0xDB {} else
    if b == 0xDC {} else if b == 0xDD {} else if b == 0xDE {} else {}
  }

  lemma ReciprocalsE(b: byte)
    requires 0xE0 <= b < 0xF0
    ensures Product(b, Unaffine(SubRowE(b))) == 1
  {
    if b == 0xE0 {} else if b == 0xE1 {} else if b == 0xE2 {} else if b == 0xE3 {} else
    if b == 0xE4 {} else if b == 0xE5 {} else if b == 0xE6 {} else if b == 0xE7 {} else
    if b == 0xE8 {} else if b == 0xE9 {} else if b == 0xEA {} else if b == 0xEB {} else
    if b == 0xEC {} else if b == 0xED {} else if b == 0xEE {} else {}
  }

  lemma ReciprocalsF(b: byte)
    requires 0xF0 <= b
    ensures Product(b, Unaffine(SubRowF(b))) == 1
  {
    if b == 0xF0 {} else if b == 0xF1 {} else if b == 0xF2 {} else if b == 0xF3 {} else
    if b == 0xF4 {} else if b == 0xF5 {} else if b == 0xF6 {} else if b == 0xF7 {} else
    if b == 0xF8 {} else if b == 0xF9 {} else if b == 0xFA {} else if b == 0xFB {} else
    if b == 0xFC {} else if b == 0xFD {} else if b == 0xFE {} else {}
  }

  /** The table is the affine image of the reciprocal, zero counting as its own. */
  lemma SubFromReciprocal(b: byte) returns (y: byte)
    ensures if b == 0 then y == 0 else Gmul(b, y) == 1
    ensures Sub(b) == Affine(y)
  {
    y := Unaffine(Sub(b));
    AffineUnaffine(Sub(b));
    if b == 0 {
      ZeroEntry();
    } else {
      EntryReciprocal(b);
      ProductIsGmul(b, y);
    }
    hide *;
  }

  lemma ZeroEntry()
    ensures Unaffine(Sub(0)) == 0
  {
  }

  lemma EntryReciprocal(b: byte)
    requires b != 0
    ensures Product(b, Unaffine(Sub(b))) == 1
  {
    hide Product, Unaffine, SubRow0, SubRow1, SubRow2, SubRow3, SubRow4, SubRow5, SubRow6, SubRow7, SubRow8, SubRow9,
         SubRowA, SubRowB, SubRowC, SubRowD, SubRowE, SubRowF;
    if b < 0x10 {
      Reciprocals0(b);
    } else if b < 0x20 {
      Reciprocals1(b);
    } else if b < 0x30 {
      Reciprocals2(b);
    } else if b < 0x40 {
      Reciprocals3(b);
    } else if b < 0x50 {
      Reciprocals4(b);
    } else if b < 0x60 {
      Reciprocals5(b);
    } else if b < 0x70 {
      Reciprocals6(b);
    } else if b < 0x80 {
      Reciprocals7(b);
    } else if b < 0x90 {
      Reciprocals8(b);
    } else if b < 0xA0 {
      Reciprocals9(b);
    } else if b < 0xB0 {
      ReciprocalsA(b);
    } else if b < 0xC0 {
      ReciprocalsB(b);
    } else if b < 0xD0 {
      ReciprocalsC(b);
    } else if b < 0xE0 {
      ReciprocalsD(b);
    } else if b < 0xF0 {
      ReciprocalsE(b);
    } else {
      ReciprocalsF(b);
    }
  }
}
