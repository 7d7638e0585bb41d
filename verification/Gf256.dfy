/** Arithmetic of bytes as polynomials modulo x^8 + x^4 + x^3 + x + 1, and the column mixing of AES. */
module Gf256 {
  import opened Bytes

  function Xtime(a: byte): byte {
    if High(a) then Xor(Twice(a), 0x1B) else Twice(a)
  }

  predicate High(a: byte) {
    a & 0x80 != 0
  }

  function Twice(a: byte): byte {
    a << 1
  }

  /** n steps of shift-and-add. */
  function GmulFrom(p: byte, a: byte, b: byte, n: nat): byte
    decreases n
  {
    if n == 0 then p
    else GmulFrom(if Odd(b) then Xor(p, a) else p, Xtime(a), Half(b), n - 1)
  }

  predicate Odd(b: byte) {
    b & 1 != 0
  }

  function Half(b: byte): byte {
    b >> 1
  }

  function Gmul(a: byte, b: byte): byte {
    GmulFrom(0, a, b, 8)
  }

  method GmulLoop(a: byte, b: byte) returns (p: byte)
    ensures p == Gmul(a, b)
  {
    hide Xtime, Odd, Half, Xor;
    var x, y := a, b;
    p := 0;
    for i := 0 to 8
      invariant GmulFrom(p, x, y, 8 - i) == Gmul(a, b)
    {
      ghost var q := p;
      if Odd(y) {
        p := Xor(p, x);
      }
      assert GmulFrom(q, x, y, 8 - i) == GmulFrom(p, Xtime(x), Half(y), 8 - i - 1);
      x := Xtime(x);
      y := Half(y);
    }
  }

  // ---- Products with the constants of the inverse mixing ---------------------------------

  function Times9(a: byte): byte {
    Xor(a, Xtime(Xtime(Xtime(a))))
  }

  function Times11(a: byte): byte {
    Xor(Xor(a, Xtime(a)), Xtime(Xtime(Xtime(a))))
  }

  function Times13(a: byte): byte {
    Xor(Xor(a, Xtime(Xtime(a))), Xtime(Xtime(Xtime(a))))
  }

  function Times14(a: byte): byte {
    Xor(Xor(Xtime(a), Xtime(Xtime(a))), Xtime(Xtime(Xtime(a))))
  }

  lemma ConstantBits()
    ensures Odd(9) && Half(9) == 4 && !Odd(4) && Half(4) == 2 && !Odd(2) && Half(2) == 1 && Odd(1) && Half(1) == 0
    ensures Odd(11) && Half(11) == 5 && Odd(5) && Half(5) == 2
    ensures Odd(13) && Half(13) == 6 && !Odd(6) && Half(6) == 3 && Odd(3) && Half(3) == 1
    ensures !Odd(14) && Half(14) == 7 && Odd(7) && Half(7) == 3
    ensures !Odd(0) && Half(0) == 0
  {
  }

  lemma {:induction false} GmulFromZero(p: byte, a: byte, n: nat)
    ensures GmulFrom(p, a, 0, n) == p
    decreases n
  {
    hide Xtime, Odd, Half, Xor;
    ConstantBits();
    if n > 0 {
      GmulFromZero(p, Xtime(a), n - 1);
    }
  }

  lemma GmulStep(p: byte, a: byte, b: byte, n: nat)
    requires n > 0
    ensures GmulFrom(p, a, b, n) == GmulFrom(if Odd(b) then Xor(p, a) else p, Xtime(a), Half(b), n - 1)
  {
  }

  lemma GmulConstants(a: byte)
    ensures Gmul(a, 9) == Times9(a)
    ensures Gmul(a, 11) == Times11(a)
    ensures Gmul(a, 13) == Times13(a)
    ensures Gmul(a, 14) == Times14(a)
  {
    hide Xtime, Odd, Half, Xor, GmulFrom;
    ConstantBits();
    XorZero(a);
    var b := Xtime(a);
    XorZero(b);
    var c := Xtime(b);
    var d := Xtime(c);
    var e := Xtime(d);
    GmulFromZero(Times9(a), e, 4);
    GmulFromZero(Times11(a), e, 4);
    GmulFromZero(Times13(a), e, 4);
    GmulFromZero(Times14(a), e, 4);

    GmulStep(0, a, 9, 8);
    GmulStep(a, b, 4, 7);
    GmulStep(a, c, 2, 6);
    GmulStep(a, d, 1, 5);

    GmulStep(0, a, 11, 8);
    GmulStep(a, b, 5, 7);
    GmulStep(Xor(a, b), c, 2, 6);
    GmulStep(Xor(a, b), d, 1, 5);

    GmulStep(0, a, 13, 8);
    GmulStep(a, b, 6, 7);
    GmulStep(a, c, 3, 6);
    GmulStep(Xor(a, c), d, 1, 5);

    GmulStep(0, a, 14, 8);
    GmulStep(0, b, 7, 7);
    GmulStep(b, c, 3, 6);
    GmulStep(Xor(b, c), d, 1, 5);
  }

  // ---- Everything is linear ----------------------------------------------------------------

  lemma XtimeLinear(a: byte, b: byte)
    ensures Xtime(Xor(a, b)) == Xor(Xtime(a), Xtime(b))
  {
    hide High, Twice, Xor;
    PartsOfSum(a, b);
    var x, y := Twice(a), Twice(b);
    XorInterchange(x, 0x1B, y, 0x1B);
    XorZero(0x1B);
    XorZero(Xor(x, y));
    XorSwaps(x, y, 0x1B);
    XorAssociates(x, y, 0x1B);
  }

  lemma PartsOfSum(a: byte, b: byte)
    ensures High(Xor(a, b)) <==> High(a) != High(b)
    ensures Twice(Xor(a, b)) == Xor(Twice(a), Twice(b))
  {
  }

  lemma XorInterchange(a: byte, b: byte, c: byte, d: byte)
    ensures Xor(Xor(a, b), Xor(c, d)) == Xor(Xor(a, c), Xor(b, d))
  {
    hide Xor;
    XorAssociates(a, b, Xor(c, d));
    XorAssociates(b, c, d);
    XorCommutes(b, c);
    XorAssociates(c, b, d);
    XorAssociates(a, c, Xor(b, d));
  }

  lemma TimesLinear(a: byte, b: byte)
    ensures Times9(Xor(a, b)) == Xor(Times9(a), Times9(b))
    ensures Times11(Xor(a, b)) == Xor(Times11(a), Times11(b))
    ensures Times13(Xor(a, b)) == Xor(Times13(a), Times13(b))
    ensures Times14(Xor(a, b)) == Xor(Times14(a), Times14(b))
  {
    hide Xtime, Xor;
    XtimeLinear(a, b);
    var a2, b2 := Xtime(a), Xtime(b);
    XtimeLinear(a2, b2);
    var a4, b4 := Xtime(a2), Xtime(b2);
    XtimeLinear(a4, b4);
    var a8, b8 := Xtime(a4), Xtime(b4);
    XorInterchange(a, b, a8, b8);
    XorInterchange(a, b, a2, b2);
    XorInterchange(Xor(a, a2), Xor(b, b2), a8, b8);
    XorInterchange(a, b, a4, b4);
    XorInterchange(Xor(a, a4), Xor(b, b4), a8, b8);
    XorInterchange(a2, b2, a4, b4);
    XorInterchange(Xor(a2, a4), Xor(b2, b4), a8, b8);
  }

  function Sum4(a: byte, b: byte, c: byte, d: byte): byte {
    Xor(Xor(Xor(a, b), c), d)
  }

  lemma TimesSum(a: byte, b: byte, c: byte, d: byte)
    ensures Times9(Sum4(a, b, c, d)) == Sum4(Times9(a), Times9(b), Times9(c), Times9(d))
    ensures Times11(Sum4(a, b, c, d)) == Sum4(Times11(a), Times11(b), Times11(c), Times11(d))
    ensures Times13(Sum4(a, b, c, d)) == Sum4(Times13(a), Times13(b), Times13(c), Times13(d))
    ensures Times14(Sum4(a, b, c, d)) == Sum4(Times14(a), Times14(b), Times14(c), Times14(d))
  {
    hide Xtime, Xor, Times9, Times11, Times13, Times14;
    TimesLinear(Xor(Xor(a, b), c), d);
    TimesLinear(Xor(a, b), c);
    TimesLinear(a, b);
  }

  // ---- One column ----------------------------------------------------------------------------

  /** One byte of a mixed column; t is the sum of the column. */
  function MixByte(t: byte, a: byte, b: byte): byte {
    Xor(Xor(a, t), Xtime(Xor(a, b)))
  }

  /** The same byte as FIPS 197 section 5.1.3 has it: 2a + 3b + c + d. */
  function MixRow(a: byte, b: byte, c: byte, d: byte): byte {
    Sum4(Xtime(a), Xor(b, Xtime(b)), c, d)
  }

  function MixColumn(s: seq<byte>): (m: seq<byte>)
    requires |s| == 4
    ensures |m| == 4
  {
    var t := Sum4(s[0], s[1], s[2], s[3]);
    [MixByte(t, s[0], s[1]), MixByte(t, s[1], s[2]), MixByte(t, s[2], s[3]), MixByte(t, s[3], s[0])]
  }

  function InvMixColumn(s: seq<byte>): (m: seq<byte>)
    requires |s| == 4
    ensures |m| == 4
  {
    [Sum4(Gmul(s[0], 0x0E), Gmul(s[1], 0x0B), Gmul(s[2], 0x0D), Gmul(s[3], 0x09)),
     Sum4(Gmul(s[0], 0x09), Gmul(s[1], 0x0E), Gmul(s[2], 0x0B), Gmul(s[3], 0x0D)),
     Sum4(Gmul(s[0], 0x0D), Gmul(s[1], 0x09), Gmul(s[2], 0x0E), Gmul(s[3], 0x0B)),
     Sum4(Gmul(s[0], 0x0B), Gmul(s[1], 0x0D), Gmul(s[2], 0x09), Gmul(s[3], 0x0E))]
  }

  lemma MixByteIsRow(a: byte, b: byte, c: byte, d: byte)
    ensures MixByte(Sum4(a, b, c, d), a, b) == MixRow(a, b, c, d)
  {
    XtimeLinear(a, b);
    var x, y := Xtime(a), Xtime(b);
    hide Xtime;
    CancelFirst(a, b, c, d, x, y);
  }

  lemma CancelFirst(a: byte, b: byte, c: byte, d: byte, x: byte, y: byte)
    ensures Xor(Xor(a, Sum4(a, b, c, d)), Xor(x, y)) == Sum4(x, Xor(b, y), c, d)
  {
    hide Xor;
    var r := Xor(b, c);
    XorAssociates(a, b, c);
    XorAssociates(a, r, d);
    XorAssociates(a, a, Xor(r, d));
    XorZero(a);
    XorZero(Xor(r, d));
    // what is left of the column sum, in the standard's order
    XorCommutes(Xor(r, d), Xor(x, y));
    XorAssociates(Xor(x, y), r, d);
    XorAssociates(Xor(x, y), b, c);
    XorAssociates(x, y, b);
    XorCommutes(y, b);
  }

  lemma Rotate(a: byte, b: byte, c: byte, d: byte)
    ensures Sum4(a, b, c, d) == Sum4(b, c, d, a)
  {
    hide Sum4;
    Sum4Swaps(a, b, c, d);
    Sum4Swaps(b, a, c, d);
    Sum4Swaps(b, c, a, d);
  }

  lemma Sum4Swaps(a: byte, b: byte, c: byte, d: byte)
    ensures Sum4(a, b, c, d) == Sum4(b, a, c, d)
    ensures Sum4(a, b, c, d) == Sum4(a, c, b, d)
    ensures Sum4(a, b, c, d) == Sum4(a, b, d, c)
  {
    hide Xor;
    XorCommutes(a, b);
    XorSwaps(a, b, c);
    XorSwaps(Xor(a, b), c, d);
  }

  lemma XorSwaps(p: byte, a: byte, b: byte)
    ensures Xor(Xor(p, a), b) == Xor(Xor(p, b), a)
  {
    hide Xor;
    XorAssociates(p, a, b);
    XorCommutes(a, b);
    XorAssociates(p, b, a);
  }

  /** Mixing in the standard's terms. */
  lemma MixColumnRows(s: seq<byte>)
    requires |s| == 4
    ensures MixColumn(s) == [MixRow(s[0], s[1], s[2], s[3]), MixRow(s[1], s[2], s[3], s[0]),
                             MixRow(s[2], s[3], s[0], s[1]), MixRow(s[3], s[0], s[1], s[2])]
  {
    hide Sum4, MixByte, MixRow;
    MixByteIsRow(s[0], s[1], s[2], s[3]);
    MixByteIsRow(s[1], s[2], s[3], s[0]);
    MixByteIsRow(s[2], s[3], s[0], s[1]);
    MixByteIsRow(s[3], s[0], s[1], s[2]);
    Rotate(s[0], s[1], s[2], s[3]);
    Rotate(s[1], s[2], s[3], s[0]);
    Rotate(s[2], s[3], s[0], s[1]);
  }

  function InvRow(a: byte, b: byte, c: byte, d: byte): byte {
    Sum4(Times14(a), Times11(b), Times13(c), Times9(d))
  }

  lemma InvMixColumnRows(s: seq<byte>)
    requires |s| == 4
    ensures InvMixColumn(s) == [InvRow(s[0], s[1], s[2], s[3]), InvRow(s[1], s[2], s[3], s[0]),
                                InvRow(s[2], s[3], s[0], s[1]), InvRow(s[3], s[0], s[1], s[2])]
  {
    hide Sum4, Gmul, Times9, Times11, Times13, Times14;
    GmulConstants(s[0]);
    GmulConstants(s[1]);
    GmulConstants(s[2]);
    GmulConstants(s[3]);
    Rotate(Times9(s[0]), Times14(s[1]), Times11(s[2]), Times13(s[3]));
    Rotate(Times13(s[0]), Times9(s[1]), Times14(s[2]), Times11(s[3]));
    Rotate(Times9(s[1]), Times14(s[2]), Times11(s[3]), Times13(s[0]));
    Rotate(Times14(s[3]), Times11(s[0]), Times13(s[1]), Times9(s[2]));
  }

  // What each byte of a column contributes to the first byte of the round trip: itself, or nothing.

  lemma CancelRight(p: byte, q: byte, r: byte)
    ensures Xor(Xor(p, r), Xor(q, r)) == Xor(p, q)
  {
    hide Xor;
    XorInterchange(p, r, q, r);
    XorZero(r);
    XorZero(Xor(p, q));
  }

  lemma CancelLeft(p: byte, q: byte, r: byte)
    ensures Xor(Xor(r, p), Xor(r, q)) == Xor(p, q)
    ensures Xor(r, Xor(r, p)) == p
  {
    hide Xor;
    XorCommutes(r, p);
    XorCommutes(r, q);
    CancelRight(p, q, r);
    XorAssociates(r, r, p);
    XorZero(r);
    XorZero(p);
  }

  lemma Sum4Pairs(a: byte, b: byte, c: byte, d: byte)
    ensures Sum4(a, b, c, d) == Xor(Xor(a, b), Xor(c, d))
  {
    hide Xor;
    XorAssociates(Xor(a, b), c, d);
  }

  lemma OwnContribution(x: byte)
    ensures Sum4(Times14(Xtime(x)), Times9(Xor(x, Xtime(x))), Times13(x), Times11(x)) == x
  {
    hide Xtime, Xor;
    var a, b := Xtime(x), Xtime(Xtime(x));
    var c, d := Xtime(b), Xtime(Xtime(b));
    TimesLinear(x, a);
    Sum4Pairs(Xor(Xor(b, c), d), Xor(Xor(x, c), Xor(a, d)), Xor(Xor(x, b), c), Xor(Xor(x, a), c));
    CancelRight(Xor(x, b), Xor(x, a), c);
    CancelLeft(b, a, x);
    XorInterchange(x, c, a, d);
    XorAssociates(b, c, d);
    CancelRight(b, Xor(x, a), Xor(c, d));
    CancelLeft(Xor(x, a), a, b);
    XorCancels(x, a);
  }

  lemma NextContribution(x: byte)
    ensures Sum4(Times14(Xor(x, Xtime(x))), Times11(Xtime(x)), Times9(x), Times13(x)) == 0
  {
    hide Xtime, Xor;
    var a, b := Xtime(x), Xtime(Xtime(x));
    var c, d := Xtime(b), Xtime(Xtime(b));
    TimesLinear(x, a);
    Sum4Pairs(Xor(Xor(Xor(a, b), c), Xor(Xor(b, c), d)), Xor(Xor(a, b), d), Xor(x, c), Xor(Xor(x, b), c));
    CancelRight(x, Xor(x, b), c);
    CancelLeft(b, b, x);
    XorAssociates(a, b, c);
    XorCommutes(Xor(b, c), d);
    CancelRight(a, d, Xor(b, c));
    CancelRight(a, Xor(a, b), d);
    CancelLeft(b, b, a);
    XorZero(b);
  }

  lemma ThirdContribution(x: byte)
    ensures Sum4(Times14(x), Times11(Xor(x, Xtime(x))), Times13(Xtime(x)), Times9(x)) == 0
  {
    hide Xtime, Xor;
    var a, b := Xtime(x), Xtime(Xtime(x));
    var c, d := Xtime(b), Xtime(Xtime(b));
    TimesLinear(x, a);
    Sum4Pairs(Xor(Xor(a, b), c), Xor(Xor(Xor(x, a), c), Xor(Xor(a, b), d)), Xor(Xor(a, c), d), Xor(x, c));
    XorSwaps(a, c, d);
    CancelRight(Xor(a, d), x, c);
    XorAssociates(Xor(Xor(a, b), c), Xor(Xor(x, a), c), Xor(Xor(a, b), d));
    CancelRight(Xor(a, b), Xor(x, a), c);
    CancelLeft(Xor(x, a), d, Xor(a, b));
    XorAssociates(x, a, d);
    XorCommutes(x, Xor(a, d));
    XorZero(Xor(Xor(a, d), x));
  }

  lemma LastContribution(x: byte)
    ensures Sum4(Times14(x), Times11(x), Times13(Xor(x, Xtime(x))), Times9(Xtime(x))) == 0
  {
    hide Xtime, Xor;
    var a, b := Xtime(x), Xtime(Xtime(x));
    var c, d := Xtime(b), Xtime(Xtime(b));
    TimesLinear(x, a);
    Sum4Pairs(Xor(Xor(a, b), c), Xor(Xor(x, a), c), Xor(Xor(Xor(x, b), c), Xor(Xor(a, c), d)), Xor(a, d));
    CancelRight(Xor(a, b), Xor(x, a), c);
    XorCommutes(a, b);
    CancelRight(b, x, a);
    XorAssociates(Xor(Xor(x, b), c), Xor(Xor(a, c), d), Xor(a, d));
    CancelRight(Xor(a, c), a, d);
    XorCommutes(a, c);
    XorCancels(c, a);
    XorCancels(Xor(x, b), c);
    XorCommutes(b, x);
    XorZero(Xor(x, b));
  }

  /** Terms listed output by output, summed input by input. */
  lemma Transpose(a0: byte, b0: byte, c0: byte, d0: byte, b1: byte, c1: byte, d1: byte, a1: byte,
                  c2: byte, d2: byte, a2: byte, b2: byte, d3: byte, a3: byte, b3: byte, c3: byte)
    ensures Sum4(Sum4(a0, b0, c0, d0), Sum4(b1, c1, d1, a1), Sum4(c2, d2, a2, b2), Sum4(d3, a3, b3, c3))
         == Sum4(Sum4(a0, a3, a2, a1), Sum4(b0, b1, b3, b2), Sum4(c0, c1, c2, c3), Sum4(d0, d1, d2, d3))
  {
    hide Sum4;
    Sum4Transposes(a0, b0, c0, d0, a1, b1, c1, d1, a2, b2, c2, d2, a3, b3, c3, d3);
    Rotate(a1, b1, c1, d1);
    Rotate(a2, b2, c2, d2);
    Rotate(b2, c2, d2, a2);
    Rotate(d3, a3, b3, c3);
    Sum4Swaps(a0, a1, a2, a3);
    Sum4Swaps(a0, a2, a1, a3);
    Sum4Swaps(a0, a2, a3, a1);
    Sum4Swaps(b0, b1, b2, b3);
  }

  lemma Sum4Transposes(a: byte, b: byte, c: byte, d: byte, e: byte, f: byte, g: byte, h: byte,
                       i: byte, j: byte, k: byte, l: byte, m: byte, n: byte, o: byte, p: byte)
    ensures Sum4(Sum4(a, b, c, d), Sum4(e, f, g, h), Sum4(i, j, k, l), Sum4(m, n, o, p))
         == Sum4(Sum4(a, e, i, m), Sum4(b, f, j, n), Sum4(c, g, k, o), Sum4(d, h, l, p))
  {
    hide Sum4;
    Sum4Adds(a, b, c, d, e, f, g, h);
    Sum4Adds(Xor(a, e), Xor(b, f), Xor(c, g), Xor(d, h), i, j, k, l);
    Sum4Adds(Xor(Xor(a, e), i), Xor(Xor(b, f), j), Xor(Xor(c, g), k), Xor(Xor(d, h), l), m, n, o, p);
    hide Xor;
    Sum4Is(Sum4(a, b, c, d), Sum4(e, f, g, h), Sum4(i, j, k, l), Sum4(m, n, o, p));
    Sum4Is(a, e, i, m);
    Sum4Is(b, f, j, n);
    Sum4Is(c, g, k, o);
    Sum4Is(d, h, l, p);
  }

  lemma Sum4Is(a: byte, b: byte, c: byte, d: byte)
    ensures Sum4(a, b, c, d) == Xor(Xor(Xor(a, b), c), d)
  {
  }

  lemma Sum4Adds(a: byte, b: byte, c: byte, d: byte, e: byte, f: byte, g: byte, h: byte)
    ensures Xor(Sum4(a, b, c, d), Sum4(e, f, g, h)) == Sum4(Xor(a, e), Xor(b, f), Xor(c, g), Xor(d, h))
  {
    hide Xor;
    XorInterchange(Xor(Xor(a, b), c), d, Xor(Xor(e, f), g), h);
    XorInterchange(Xor(a, b), c, Xor(e, f), g);
    XorInterchange(a, b, e, f);
  }

  lemma RoundTripByte(a: byte, b: byte, c: byte, d: byte)
    ensures InvRow(MixRow(a, b, c, d), MixRow(b, c, d, a), MixRow(c, d, a, b), MixRow(d, a, b, c)) == a
  {
    hide Xtime, Xor, Sum4, Times9, Times11, Times13, Times14;
    TimesSum(Xtime(a), Xor(b, Xtime(b)), c, d);
    TimesSum(Xtime(b), Xor(c, Xtime(c)), d, a);
    TimesSum(Xtime(c), Xor(d, Xtime(d)), a, b);
    TimesSum(Xtime(d), Xor(a, Xtime(a)), b, c);
    Transpose(Times14(Xtime(a)), Times14(Xor(b, Xtime(b))), Times14(c), Times14(d),
              Times11(Xtime(b)), Times11(Xor(c, Xtime(c))), Times11(d), Times11(a),
              Times13(Xtime(c)), Times13(Xor(d, Xtime(d))), Times13(a), Times13(b),
              Times9(Xtime(d)), Times9(Xor(a, Xtime(a))), Times9(b), Times9(c));
    OwnContribution(a);
    NextContribution(b);
    ThirdContribution(c);
    LastContribution(d);
    SumZeros(a);
  }

  lemma SumZeros(a: byte)
    ensures Sum4(a, 0, 0, 0) == a
  {
  }

  /** The products with 9, 11, 13 and 14 undo the doubling and tripling. */
  lemma InvMixMix(s: seq<byte>)
    requires |s| == 4
    ensures InvMixColumn(MixColumn(s)) == s
  {
    hide MixColumn, InvMixColumn, InvRow, MixRow;
    MixColumnRows(s);
    InvMixColumnRows(MixColumn(s));
    RoundTripByte(s[0], s[1], s[2], s[3]);
    RoundTripByte(s[1], s[2], s[3], s[0]);
    RoundTripByte(s[2], s[3], s[0], s[1]);
    RoundTripByte(s[3], s[0], s[1], s[2]);
  }

  // ---- And the other way round ---------------------------------------------------------------

  lemma XtimeTimes(x: byte)
    ensures Xtime(Times9(x)) == Times9(Xtime(x))
    ensures Xtime(Times11(x)) == Times11(Xtime(x))
    ensures Xtime(Times13(x)) == Times13(Xtime(x))
    ensures Xtime(Times14(x)) == Times14(Xtime(x))
  {
    hide Xtime, Xor;
    var a, b := Xtime(x), Xtime(Xtime(x));
    var c := Xtime(b);
    XtimeLinear(x, c);
    XtimeLinear(Xor(x, a), c);
    XtimeLinear(x, a);
    XtimeLinear(Xor(x, b), c);
    XtimeLinear(x, b);
    XtimeLinear(Xor(a, b), c);
    XtimeLinear(a, b);
  }

  lemma XtimeSum(a: byte, b: byte, c: byte, d: byte)
    ensures Xtime(Sum4(a, b, c, d)) == Sum4(Xtime(a), Xtime(b), Xtime(c), Xtime(d))
  {
    hide Xtime, Xor;
    XtimeLinear(Xor(Xor(a, b), c), d);
    XtimeLinear(Xor(a, b), c);
    XtimeLinear(a, b);
  }

  lemma OwnReturn(x: byte)
    ensures Sum4(Xtime(Times14(x)), Xor(Times9(x), Xtime(Times9(x))), Times13(x), Times11(x)) == x
  {
    hide Xtime, Xor, Sum4, Times9, Times11, Times13, Times14;
    XtimeTimes(x);
    TimesLinear(x, Xtime(x));
    OwnContribution(x);
  }

  lemma NextReturn(x: byte)
    ensures Sum4(Xtime(Times11(x)), Xor(Times14(x), Xtime(Times14(x))), Times9(x), Times13(x)) == 0
  {
    hide Xtime, Xor, Sum4, Times9, Times11, Times13, Times14;
    XtimeTimes(x);
    TimesLinear(x, Xtime(x));
    NextContribution(x);
    Sum4Swaps(Times14(Xor(x, Xtime(x))), Times11(Xtime(x)), Times9(x), Times13(x));
  }

  lemma ThirdReturn(x: byte)
    ensures Sum4(Xtime(Times13(x)), Xor(Times11(x), Xtime(Times11(x))), Times14(x), Times9(x)) == 0
  {
    hide Xtime, Xor, Sum4, Times9, Times11, Times13, Times14;
    XtimeTimes(x);
    TimesLinear(x, Xtime(x));
    ThirdContribution(x);
    Sum4Swaps(Times14(x), Times11(Xor(x, Xtime(x))), Times13(Xtime(x)), Times9(x));
    Sum4Swaps(Times14(x), Times13(Xtime(x)), Times11(Xor(x, Xtime(x))), Times9(x));
    Sum4Swaps(Times13(Xtime(x)), Times14(x), Times11(Xor(x, Xtime(x))), Times9(x));
  }

  lemma LastReturn(x: byte)
    ensures Sum4(Xtime(Times9(x)), Xor(Times13(x), Xtime(Times13(x))), Times11(x), Times14(x)) == 0
  {
    hide Xtime, Xor, Sum4, Times9, Times11, Times13, Times14;
    XtimeTimes(x);
    TimesLinear(x, Xtime(x));
    LastContribution(x);
    Sum4Swaps(Times14(x), Times11(x), Times13(Xor(x, Xtime(x))), Times9(Xtime(x)));
    Sum4Swaps(Times14(x), Times11(x), Times9(Xtime(x)), Times13(Xor(x, Xtime(x))));
    Sum4Swaps(Times14(x), Times9(Xtime(x)), Times11(x), Times13(Xor(x, Xtime(x))));
    Sum4Swaps(Times9(Xtime(x)), Times14(x), Times11(x), Times13(Xor(x, Xtime(x))));
    Sum4Swaps(Times9(Xtime(x)), Times11(x), Times14(x), Times13(Xor(x, Xtime(x))));
    Sum4Swaps(Times9(Xtime(x)), Times11(x), Times13(Xor(x, Xtime(x))), Times14(x));
  }

  lemma TripleSum(a: byte, b: byte, c: byte, d: byte)
    ensures Xor(Sum4(a, b, c, d), Xtime(Sum4(a, b, c, d)))
         == Sum4(Xor(a, Xtime(a)), Xor(b, Xtime(b)), Xor(c, Xtime(c)), Xor(d, Xtime(d)))
  {
    hide Xtime, Xor, Sum4;
    XtimeSum(a, b, c, d);
    Sum4Adds(a, b, c, d, Xtime(a), Xtime(b), Xtime(c), Xtime(d));
  }

  lemma ReturnTripByte(a: byte, b: byte, c: byte, d: byte)
    ensures MixRow(InvRow(a, b, c, d), InvRow(b, c, d, a), InvRow(c, d, a, b), InvRow(d, a, b, c)) == a
  {
    hide Xtime, Xor, Sum4, Times9, Times11, Times13, Times14;
    XtimeSum(Times14(a), Times11(b), Times13(c), Times9(d));
    TripleSum(Times14(b), Times11(c), Times13(d), Times9(a));
    Transpose(Xtime(Times14(a)), Xtime(Times11(b)), Xtime(Times13(c)), Xtime(Times9(d)),
              Xor(Times14(b), Xtime(Times14(b))), Xor(Times11(c), Xtime(Times11(c))),
              Xor(Times13(d), Xtime(Times13(d))), Xor(Times9(a), Xtime(Times9(a))),
              Times14(c), Times11(d), Times13(a), Times9(b),
              Times14(d), Times11(a), Times13(b), Times9(c));
    OwnReturn(a);
    NextReturn(b);
    ThirdReturn(c);
    LastReturn(d);
    Sum4Swaps(Xtime(Times14(a)), Times11(a), Times13(a), Xor(Times9(a), Xtime(Times9(a))));
    Sum4Swaps(Xtime(Times14(a)), Times11(a), Xor(Times9(a), Xtime(Times9(a))), Times13(a));
    Sum4Swaps(Xtime(Times14(a)), Xor(Times9(a), Xtime(Times9(a))), Times11(a), Times13(a));
    Sum4Swaps(Xtime(Times11(b)), Xor(Times14(b), Xtime(Times14(b))), Times13(b), Times9(b));
    Sum4Swaps(Xtime(Times9(d)), Xor(Times13(d), Xtime(Times13(d))), Times11(d), Times14(d));
    SumZeros(a);
  }

  /** Doubling and tripling undo the products with 9, 11, 13 and 14. */
  lemma MixInvMix(s: seq<byte>)
    requires |s| == 4
    ensures MixColumn(InvMixColumn(s)) == s
  {
    hide MixColumn, InvMixColumn, InvRow, MixRow;
    InvMixColumnRows(s);
    MixColumnRows(InvMixColumn(s));
    ReturnTripByte(s[0], s[1], s[2], s[3]);
    ReturnTripByte(s[1], s[2], s[3], s[0]);
    ReturnTripByte(s[2], s[3], s[0], s[1]);
    ReturnTripByte(s[3], s[0], s[1], s[2]);
  }
}
