/** Bech32 as the LNURL helpers encode it: regrouping of octets into 5-bit symbols, the checksum, and
    the text form. */
module Bech32 {
  import opened BitRegrouping
  import opened Wrappers

  /** Checksum states and the values fed to them are below 2^30. */
  type word = bv30

  type symbol = d: int | 0 <= d < 32

  const CHARSET: string := "qpzry9x8gf2tvdw0s3jn54khce6mua7l"

  // ---- The checksum --------------------------------------------------------------------

  /** Exclusive or, under a name that a proof can leave closed. */
  function Xor(a: word, b: word): word {
    a ^ b
  }

  /** chk >> 25 */
  function Top(chk: word): word {
    chk >> 25
  }

  /** (chk & 0x1FFFFFF) << 5 */
  function Rest(chk: word): word {
    (chk & 0x1FFFFFF) << 5
  }

  function Generator(i: nat): word
    requires i < 5
  {
    match i
    case 0 => 0x3B6A57B2
    case 1 => 0x26508E6D
    case 2 => 0x1EA119FA
    case 3 => 0x3D4233DD
    case _ => 0x2A1462B3
  }

  /** (top >> i) & 1 */
  predicate Bit(top: word, i: nat)
    requires i < 5
  {
    match i
    case 0 => Under(top, 1)
    case 1 => Under(top, 2)
    case 2 => Under(top, 4)
    case 3 => Under(top, 8)
    case _ => Under(top, 16)
  }

  predicate Under(top: word, mask: word) {
    top & mask != 0
  }

  /** A state after the feedback of its lowest k taps. */
  function Fed(chk: word, top: word, k: nat): word
    requires k <= 5
  {
    if k == 0 then chk
    else if Bit(top, k - 1) then Xor(Fed(chk, top, k - 1), Generator(k - 1))
    else Fed(chk, top, k - 1)
  }

  /** One symbol enters the register. */
  function Step(chk: word, value: word): word {
    Fed(Xor(Rest(chk), value), Top(chk), 5)
  }

  function PolymodFrom(chk: word, values: seq<word>): word
    decreases |values|
  {
    if values == [] then chk else PolymodFrom(Step(chk, values[0]), values[1..])
  }

  method Polymod(values: seq<word>) returns (chk: word)
    ensures chk == PolymodFrom(1, values)
  {
    hide Bit, Generator, Xor, Top, Rest;
    chk := 1;
    for k := 0 to |values|
      invariant PolymodFrom(1, values) == PolymodFrom(chk, values[k..])
    {
      assert values[k..][0] == values[k] && values[k..][1..] == values[k + 1..];
      var top := Top(chk);
      ghost var next := Step(chk, values[k]);
      chk := Xor(Rest(chk), values[k]);
      ghost var shifted := chk;
      for i := 0 to 5
        invariant chk == Fed(shifted, top, i)
      {
        if Bit(top, i) {
          chk := Xor(chk, Generator(i));
        }
      }
      assert chk == next;
    }
  }

  function ToWord(d: symbol): word {
    FiveBits(d) as word
  }

  function FiveBits(d: symbol): bv5 {
    d as bv5
  }

  function Words(data: seq<symbol>): (values: seq<word>)
    ensures |values| == |data|
    ensures forall i :: 0 <= i < |data| ==> values[i] == ToWord(data[i])
  {
    seq(|data|, i requires 0 <= i < |data| => ToWord(data[i]))
  }

  function HighBits(c: char): word {
    ((c as int) / 32) as word
  }

  function LowBits(c: char): word {
    ToWord((c as int) % 32)
  }

  /** High bits of every character, a separator, low bits of every character. */
  function HrpExpand(hrp: string): seq<word> {
    seq(|hrp|, i requires 0 <= i < |hrp| => HighBits(hrp[i])) + [0]
    + seq(|hrp|, i requires 0 <= i < |hrp| => LowBits(hrp[i]))
  }

  const ZEROS: seq<symbol> := [0, 0, 0, 0, 0, 0]

  function CreateChecksum(hrp: string, data: seq<symbol>): (sum: seq<symbol>)
    ensures |sum| == 6
  {
    Unpack(Xor(PolymodFrom(1, HrpExpand(hrp) + Words(data) + Words(ZEROS)), 1))
  }

  /** The six symbols of a state, most significant first. */
  function Unpack(p: word): (s: seq<symbol>)
    ensures |s| == 6
  {
    [Low5(p >> 25), Low5(p >> 20), Low5(p >> 15), Low5(p >> 10), Low5(p >> 5), Low5(p)]
  }

  function Low5(p: word): symbol {
    FromFiveBits((p & 31) as bv5)
  }

  function FromFiveBits(b: bv5): symbol {
    b as int
  }

  // ---- The register is linear ----------------------------------------------------------

  /** The generator selected by bit i of top, or nothing. */
  function Tap(top: word, i: nat): word
    requires i < 5
  {
    if Bit(top, i) then Generator(i) else 0
  }

  function Feedback(top: word): word {
    Xor(Xor(Xor(Xor(Tap(top, 0), Tap(top, 1)), Tap(top, 2)), Tap(top, 3)), Tap(top, 4))
  }

  /** The register with nothing fed in. */
  function Shift(chk: word): word {
    Xor(Rest(chk), Feedback(Top(chk)))
  }

  lemma StepIsShift(chk: word, value: word)
    ensures Step(chk, value) == Xor(Shift(chk), value)
  {
    hide Fed, Feedback, Xor, Top, Rest;
    FedIsFeedback(Xor(Rest(chk), value), Top(chk));
    XorAssociates(Rest(chk), value, Feedback(Top(chk)));
    XorCommutes(value, Feedback(Top(chk)));
    XorAssociates(Rest(chk), Feedback(Top(chk)), value);
  }

  lemma FedIsFeedback(a: word, top: word)
    ensures Fed(a, top, 5) == Xor(a, Feedback(top))
  {
    hide Bit, Generator, Xor, Tap;
    FedNone(a, top);
    hide Fed;
    FedNext(a, top, 0);
    FedNext(a, top, 1);
    FedNext(a, top, 2);
    FedNext(a, top, 3);
    FedNext(a, top, 4);
    var p := Tap(top, 0);
    var q := Xor(p, Tap(top, 1));
    var r := Xor(q, Tap(top, 2));
    var s := Xor(r, Tap(top, 3));
    XorAssociates(a, p, Tap(top, 1));
    XorAssociates(a, q, Tap(top, 2));
    XorAssociates(a, r, Tap(top, 3));
    XorAssociates(a, s, Tap(top, 4));
  }

  lemma FedNone(a: word, top: word)
    ensures Fed(a, top, 0) == a
  {
  }

  lemma FedNext(a: word, top: word, k: nat)
    requires k < 5
    ensures Fed(a, top, k + 1) == Xor(Fed(a, top, k), Tap(top, k))
  {
    hide Bit, Generator, Xor;
    XorZero(Fed(a, top, k));
  }

  lemma XorAssociates(a: word, b: word, c: word)
    ensures Xor(Xor(a, b), c) == Xor(a, Xor(b, c))
  {
  }

  lemma XorCommutes(a: word, b: word)
    ensures Xor(a, b) == Xor(b, a)
  {
  }

  lemma XorZero(a: word)
    ensures Xor(a, 0) == a && Xor(0, a) == a && Xor(a, a) == 0
  {
  }

  lemma TapLinear(a: word, b: word, i: nat)
    requires i < 5
    ensures Tap(Xor(a, b), i) == Xor(Tap(a, i), Tap(b, i))
  {
    BitOfXor(a, b, i);
    XorZero(Generator(i));
    XorZero(0);
    hide Bit, Generator, Xor;
  }

  lemma BitOfXor(a: word, b: word, i: nat)
    requires i < 5
    ensures Bit(Xor(a, b), i) <==> Bit(a, i) != Bit(b, i)
  {
    hide Xor, Under;
    match i {
      case 0 => MaskXor(a, b, 1);
      case 1 => MaskXor(a, b, 2);
      case 2 => MaskXor(a, b, 4);
      case 3 => MaskXor(a, b, 8);
      case _ => MaskXor(a, b, 16);
    }
  }

  lemma MaskXor(a: word, b: word, m: word)
    requires m == 1 || m == 2 || m == 4 || m == 8 || m == 16
    ensures Under(Xor(a, b), m) <==> Under(a, m) != Under(b, m)
  {
  }

  lemma FeedbackLinear(a: word, b: word)
    ensures Feedback(Xor(a, b)) == Xor(Feedback(a), Feedback(b))
  {
    hide Tap, Xor;
    TapLinear(a, b, 0);
    TapLinear(a, b, 1);
    TapLinear(a, b, 2);
    TapLinear(a, b, 3);
    TapLinear(a, b, 4);
    var c, d := Xor(Tap(a, 0), Tap(a, 1)), Xor(Tap(b, 0), Tap(b, 1));
    XorInterchange(Tap(a, 0), Tap(b, 0), Tap(a, 1), Tap(b, 1));
    XorInterchange(c, d, Tap(a, 2), Tap(b, 2));
    var e, f := Xor(c, Tap(a, 2)), Xor(d, Tap(b, 2));
    XorInterchange(e, f, Tap(a, 3), Tap(b, 3));
    XorInterchange(Xor(e, Tap(a, 3)), Xor(f, Tap(b, 3)), Tap(a, 4), Tap(b, 4));
  }

  lemma XorInterchange(a: word, b: word, f: word, g: word)
    ensures Xor(Xor(a, b), Xor(f, g)) == Xor(Xor(a, f), Xor(b, g))
  {
    hide Xor;
    XorAssociates(a, b, Xor(f, g));
    XorAssociates(b, f, g);
    XorCommutes(b, f);
    XorAssociates(f, b, g);
    XorAssociates(a, f, Xor(b, g));
  }

  lemma PartsOfXor(a: word, b: word)
    ensures Top(Xor(a, b)) == Xor(Top(a), Top(b))
    ensures Rest(Xor(a, b)) == Xor(Rest(a), Rest(b))
  {
  }

  lemma ShiftLinear(a: word, b: word)
    ensures Shift(Xor(a, b)) == Xor(Shift(a), Shift(b))
  {
    hide Feedback, Xor, Top, Rest;
    PartsOfXor(a, b);
    FeedbackLinear(Top(a), Top(b));
    XorInterchange(Rest(a), Rest(b), Feedback(Top(a)), Feedback(Top(b)));
  }

  /** No nonzero state is shifted to zero: the low five bits of the feedback tell the five top bits. */
  lemma ShiftInjective(x: word)
    requires Shift(x) == 0
    ensures x == 0
  {
  }

  /** A state below 2^25 does not reach the taps. */
  lemma ShiftBelowTaps(x: word)
    requires Fits(x, 5)
    ensures Shift(x) == Left5(x)
  {
  }

  /** Every five-bit symbol doubled in the field of 32 elements, modulo x^5 + x^3 + 1. */
  function DoubledSymbols(p: word): word {
    var carries := (p & 0x21084210) >> 4;
    ((p & 0x1EF7BDEF) << 1) ^ carries ^ (carries << 3)
  }

  /** The taps are the generator polynomial of BIP-173 times 1, 2, 4, 8 and 16, symbol by symbol. */
  lemma TapsDouble(i: nat)
    requires i < 4
    ensures Generator(i + 1) == DoubledSymbols(Generator(i))
  {
    match i {
      case 0 =>
      case 1 =>
      case 2 =>
      case _ =>
    }
  }

  // ---- Six symbols at the end of the input -----------------------------------------------

  function Left5(x: word): word {
    x << 5
  }

  /** The state whose five-bit symbols are c. */
  function Pack(c: seq<symbol>): word {
    if c == [] then 0 else Xor(Left5(Pack(c[..|c| - 1])), ToWord(c[|c| - 1]))
  }

  function Cap(k: nat): word
    requires k <= 5
  {
    match k
    case 0 => 1
    case 1 => 0x20
    case 2 => 0x400
    case 3 => 0x8000
    case 4 => 0x100000
    case _ => 0x2000000
  }

  /** x holds no more than k symbols. */
  predicate Fits(x: word, k: nat)
    requires k <= 5
  {
    x < Cap(k)
  }

  lemma ToWordBound(d: symbol)
    ensures Fits(ToWord(d), 1)
  {
    hide FiveBits;
  }

  lemma ToWordInjective(d: symbol, e: symbol)
    requires ToWord(d) == ToWord(e)
    ensures d == e
  {
    hide FiveBits, FromFiveBits;
    FiveBitsValue(d);
    FiveBitsValue(e);
    WidenInjective(FiveBits(d), FiveBits(e));
  }

  lemma WidenInjective(a: bv5, b: bv5)
    requires a as word == b as word
    ensures a == b
  {
  }

  lemma FiveBitsValue(d: symbol)
    ensures FromFiveBits(FiveBits(d)) == d
  {
  }

  lemma ValueFiveBits(b: bv5)
    ensures FiveBits(FromFiveBits(b)) == b
  {
  }

  lemma JoinBound(x: word, d: word, k: nat)
    requires k < 5 && Fits(x, k) && Fits(d, 1)
    ensures Fits(Xor(Left5(x), d), k + 1)
  {
  }

  lemma JoinInjective(x: word, d: word, y: word, e: word)
    requires Fits(x, 5) && Fits(y, 5) && Fits(d, 1) && Fits(e, 1)
    requires Xor(Left5(x), d) == Xor(Left5(y), e)
    ensures x == y && d == e
  {
  }

  lemma {:induction false} PackBound(c: seq<symbol>)
    requires |c| <= 5
    ensures Fits(Pack(c), |c|)
  {
    hide Xor, Left5, ToWord, Fits;
    if c == [] {
      ZeroFits();
    } else {
      var i := c[..|c| - 1];
      PackBound(i);
      ToWordBound(c[|c| - 1]);
      JoinBound(Pack(i), ToWord(c[|c| - 1]), |i|);
    }
  }

  lemma ZeroFits()
    ensures Fits(0, 0)
  {
  }

  lemma FitsMore(x: word, k: nat)
    requires k <= 5 && Fits(x, k)
    ensures Fits(x, 5)
  {
  }

  lemma PackBelowTaps(c: seq<symbol>)
    requires |c| <= 5
    ensures Fits(Pack(c), 5)
  {
    hide Pack, Fits;
    PackBound(c);
    FitsMore(Pack(c), |c|);
  }

  lemma {:induction false} PackInjective(c: seq<symbol>, d: seq<symbol>)
    requires |c| == |d| <= 6
    requires Pack(c) == Pack(d)
    ensures c == d
  {
    if c != [] {
      hide Xor, Left5, ToWord, Fits;
      var i, j := c[..|c| - 1], d[..|d| - 1];
      var u, v := c[|c| - 1], d[|d| - 1];
      PackBelowTaps(i);
      PackBelowTaps(j);
      ToWordBound(u);
      ToWordBound(v);
      JoinInjective(Pack(i), ToWord(u), Pack(j), ToWord(v));
      hide Pack;
      ToWordInjective(u, v);
      PackInjective(i, j);
      assert c == i + [u] && d == j + [v];
    }
  }

  lemma ToWordOfLow5(p: word)
    ensures ToWord(Low5(p)) == p & 31
  {
    hide FiveBits, FromFiveBits;
    ValueFiveBits((p & 31) as bv5);
  }

  lemma Recompose(p: word)
    ensures Xor(Left5(Xor(Left5(Xor(Left5(Xor(Left5(Xor(Left5((p >> 25) & 31), (p >> 20) & 31)), (p >> 15) & 31)),
                (p >> 10) & 31)), (p >> 5) & 31)), p & 31) == p
  {
  }

  lemma PackLast(c: seq<symbol>, d: symbol)
    ensures Pack(c + [d]) == Xor(Left5(Pack(c)), ToWord(d))
  {
    hide Xor, Left5, ToWord;
    assert (c + [d])[..|c|] == c;
  }

  lemma PackFirst(d: symbol)
    ensures Pack([d]) == ToWord(d)
  {
    hide Xor, Left5, ToWord;
    PackLast([], d);
    assert [] + [d] == [d];
    LeftOfZero();
    XorZero(ToWord(d));
  }

  lemma LeftOfZero()
    ensures Left5(0) == 0
  {
  }

  lemma PackUnpack(p: word)
    ensures Pack(Unpack(p)) == p
  {
    hide Xor, Left5, ToWord, Low5, Pack;
    var a, b, c, d, e, f := Low5(p >> 25), Low5(p >> 20), Low5(p >> 15), Low5(p >> 10), Low5(p >> 5), Low5(p);
    assert Unpack(p) == [a] + [b] + [c] + [d] + [e] + [f];
    PackFirst(a);
    PackLast([a], b);
    PackLast([a] + [b], c);
    PackLast([a] + [b] + [c], d);
    PackLast([a] + [b] + [c] + [d], e);
    PackLast([a] + [b] + [c] + [d] + [e], f);
    ToWordOfLow5(p >> 25);
    ToWordOfLow5(p >> 20);
    ToWordOfLow5(p >> 15);
    ToWordOfLow5(p >> 10);
    ToWordOfLow5(p >> 5);
    ToWordOfLow5(p);
    Recompose(p);
  }

  lemma {:induction false} PackZeros(c: seq<symbol>)
    requires forall i :: 0 <= i < |c| ==> c[i] == 0
    ensures Pack(c) == 0
  {
    if c != [] {
      PackZeros(c[..|c| - 1]);
      hide Xor, Left5, ToWord;
      LeftOfZero();
      XorZero(0);
      assert ToWord(0) == 0 by { ZeroWord(); }
    }
  }

  lemma ZeroWord()
    ensures ToWord(0) == 0
  {
  }

  /** The register after k steps with nothing fed in. */
  function Shifts(chk: word, k: nat): word {
    if k == 0 then chk else Shift(Shifts(chk, k - 1))
  }

  lemma {:induction false} PolymodAppend(chk: word, u: seq<word>, v: seq<word>)
    ensures PolymodFrom(chk, u + v) == PolymodFrom(PolymodFrom(chk, u), v)
    decreases |u|
  {
    hide Step;
    if u == [] {
      assert u + v == v;
    } else {
      assert (u + v)[0] == u[0] && (u + v)[1..] == u[1..] + v;
      PolymodAppend(Step(chk, u[0]), u[1..], v);
    }
  }

  lemma PolymodOne(chk: word, v: word)
    ensures PolymodFrom(chk, [v]) == Step(chk, v)
  {
    hide Step;
    assert [v][0] == v && [v][1..] == [];
  }

  /** Up to six symbols fed in last never reach the taps. */
  lemma {:induction false} TailIsPack(chk: word, c: seq<symbol>)
    requires |c| <= 6
    ensures PolymodFrom(chk, Words(c)) == Xor(Shifts(chk, |c|), Pack(c))
    decreases |c|
  {
    if c == [] {
      XorZero(chk);
    } else {
      hide Words;
      var i, d := c[..|c| - 1], c[|c| - 1];
      TailIsPack(chk, i);
      assert c == i + [d];
      TailExtends(chk, i, d);
    }
  }

  lemma TailExtends(chk: word, i: seq<symbol>, d: symbol)
    requires |i| <= 5
    requires PolymodFrom(chk, Words(i)) == Xor(Shifts(chk, |i|), Pack(i))
    ensures PolymodFrom(chk, Words(i + [d])) == Xor(Shifts(chk, |i| + 1), Pack(i + [d]))
  {
    hide Step, Shift, Xor, Left5, ToWord, Fits, PolymodFrom, Pack, Words;
    var s, t := Shifts(chk, |i|), Pack(i);
    assert Shifts(chk, |i| + 1) == Shift(s);
    hide Shifts;
    PackLast(i, d);
    WordsLast(i, d);
    PolymodAppend(chk, Words(i), [ToWord(d)]);
    PolymodOne(Xor(s, t), ToWord(d));
    StepIsShift(Xor(s, t), ToWord(d));
    ShiftLinear(s, t);
    PackBelowTaps(i);
    ShiftBelowTaps(t);
    XorAssociates(Shift(s), Left5(t), ToWord(d));
  }

  lemma WordsLast(i: seq<symbol>, d: symbol)
    ensures Words(i + [d]) == Words(i) + [ToWord(d)]
  {
    hide ToWord;
  }

  // ---- What the checksum promises --------------------------------------------------------

  /** A reader's test of a string's symbols, checksum included. */
  predicate Verifies(hrp: string, symbols: seq<symbol>) {
    PolymodFrom(1, HrpExpand(hrp) + Words(symbols)) == 1
  }

  /** The one checksum that verifies is the one that is made. */
  lemma ChecksumUnique(hrp: string, data: seq<symbol>, sum: seq<symbol>)
    requires |sum| == 6
    ensures Verifies(hrp, data + sum) <==> sum == CreateChecksum(hrp, data)
  {
    hide PolymodFrom, Shifts, Pack, Unpack, Xor, HrpExpand;
    var before := HrpExpand(hrp) + Words(data);
    var s := Shifts(PolymodFrom(1, before), 6);
    PolymodAppend(1, before, Words(ZEROS));
    TailIsPack(PolymodFrom(1, before), ZEROS);
    PackZeros(ZEROS);
    XorZero(s);
    assert HrpExpand(hrp) + Words(data + sum) == before + Words(sum);
    PolymodAppend(1, before, Words(sum));
    TailIsPack(PolymodFrom(1, before), sum);
    var p := Xor(s, 1);
    assert CreateChecksum(hrp, data) == Unpack(p);
    PackUnpack(p);
    XorSolves(s, Pack(sum), 1);
    if Pack(sum) == p {
      PackInjective(sum, Unpack(p));
    }
  }

  lemma XorSolves(s: word, x: word, r: word)
    ensures Xor(s, x) == r <==> x == Xor(s, r)
  {
    hide Xor;
    XorAssociates(s, s, x);
    XorAssociates(s, s, r);
    XorZero(s);
    XorZero(x);
    XorZero(r);
  }

  lemma ChecksumValid(hrp: string, data: seq<symbol>)
    ensures Verifies(hrp, data + CreateChecksum(hrp, data))
  {
    hide Verifies, CreateChecksum;
    ChecksumUnique(hrp, data, CreateChecksum(hrp, data));
  }

  lemma StepInjective(a: word, b: word, v: word)
    requires Step(a, v) == Step(b, v)
    ensures a == b
  {
    hide Step, Shift, Xor;
    StepIsShift(a, v);
    StepIsShift(b, v);
    XorSolves(v, Shift(a), Step(a, v));
    XorSolves(v, Shift(b), Step(b, v));
    XorCommutes(v, Shift(a));
    XorCommutes(v, Shift(b));
    ShiftLinear(a, b);
    XorZero(Shift(a));
    ShiftInjective(Xor(a, b));
    XorSolves(a, b, 0);
    XorZero(a);
  }

  /** Two registers that differ stay different, whatever is fed to both. */
  lemma {:induction false} PolymodInjective(a: word, b: word, values: seq<word>)
    requires PolymodFrom(a, values) == PolymodFrom(b, values)
    ensures a == b
    decreases |values|
  {
    hide Step;
    if values != [] {
      PolymodInjective(Step(a, values[0]), Step(b, values[0]), values[1..]);
      StepInjective(a, b, values[0]);
    }
  }

  /** Up to six symbols between the same words: the checksum tells any two apart. */
  lemma BurstWords(before: seq<word>, x: seq<symbol>, y: seq<symbol>, after: seq<word>)
    requires |x| == |y| <= 6
    requires PolymodFrom(1, before + Words(x) + after) == PolymodFrom(1, before + Words(y) + after)
    ensures x == y
  {
    hide PolymodFrom, Shifts, Pack, Xor, Words;
    var a := PolymodFrom(1, before);
    PolymodAppend(1, before + Words(x), after);
    PolymodAppend(1, before, Words(x));
    PolymodAppend(1, before + Words(y), after);
    PolymodAppend(1, before, Words(y));
    TailIsPack(a, x);
    TailIsPack(a, y);
    PolymodInjective(PolymodFrom(a, Words(x)), PolymodFrom(a, Words(y)), after);
    XorSolves(Shifts(a, |x|), Pack(x), PolymodFrom(a, Words(x)));
    XorSolves(Shifts(a, |x|), Pack(y), PolymodFrom(a, Words(y)));
    PackInjective(x, y);
  }

  /** Any alteration confined to six consecutive symbols is noticed. */
  lemma BurstDetected(hrp: string, before: seq<symbol>, x: seq<symbol>, y: seq<symbol>, after: seq<symbol>)
    requires |x| == |y| <= 6 && x != y
    requires Verifies(hrp, before + x + after)
    ensures !Verifies(hrp, before + y + after)
  {
    hide PolymodFrom, HrpExpand;
    var start := HrpExpand(hrp) + Words(before);
    assert HrpExpand(hrp) + Words(before + x + after) == start + Words(x) + Words(after);
    assert HrpExpand(hrp) + Words(before + y + after) == start + Words(y) + Words(after);
    if Verifies(hrp, before + y + after) { BurstWords(start, x, y, Words(after)); }
  }

  // ---- The human-readable part -----------------------------------------------------------

  function Highs(text: string): (values: seq<word>)
    ensures |values| == |text|
  {
    seq(|text|, i requires 0 <= i < |text| => HighBits(text[i]))
  }

  function Lows(text: string): (data: seq<symbol>)
    ensures |data| == |text|
  {
    seq(|text|, i requires 0 <= i < |text| => (text[i] as int) % 32)
  }

  lemma Expanded(u: string, x: string, v: string)
    ensures HrpExpand(u + x + v) == Highs(u + x + v) + [0] + Words(Lows(u)) + Words(Lows(x)) + Words(Lows(v))
  {
    hide HighBits, ToWord;
  }

  /** An altered human-readable part is noticed: up to six consecutive characters, each replaced by one of the
      same row of 32, as letters of one case are. */
  lemma AlteredPrefixDetected(u: string, x: string, y: string, v: string, symbols: seq<symbol>)
    requires |x| == |y| <= 6 && x != y
    requires forall i :: 0 <= i < |x| ==> x[i] as int / 32 == y[i] as int / 32
    requires Verifies(u + x + v, symbols)
    ensures !Verifies(u + y + v, symbols)
  {
    hide PolymodFrom, HrpExpand, Words;
    Expanded(u, x, v);
    Expanded(u, y, v);
    SameHighs(u, x, y, v);
    var before := Highs(u + x + v) + [0] + Words(Lows(u));
    var after := Words(Lows(v)) + Words(symbols);
    assert HrpExpand(u + x + v) + Words(symbols) == before + Words(Lows(x)) + after;
    assert HrpExpand(u + y + v) + Words(symbols) == before + Words(Lows(y)) + after;
    if Verifies(u + y + v, symbols) {
      BurstWords(before, Lows(x), Lows(y), after);
      SameCharacters(x, y);
    }
  }

  lemma SameHighs(u: string, x: string, y: string, v: string)
    requires |x| == |y| && forall i :: 0 <= i < |x| ==> x[i] as int / 32 == y[i] as int / 32
    ensures Highs(u + x + v) == Highs(u + y + v)
  {
    var s, t := u + x + v, u + y + v;
    forall i | 0 <= i < |s| ensures s[i] as int / 32 == t[i] as int / 32 {
      if |u| <= i < |u| + |x| {
        assert s[i] == x[i - |u|] && t[i] == y[i - |u|];
      }
    }
    assert forall i :: 0 <= i < |s| ==> HighBits(s[i]) == HighBits(t[i]);
    hide HighBits;
  }

  lemma SameCharacters(x: string, y: string)
    requires |x| == |y| && Lows(x) == Lows(y)
    requires forall i :: 0 <= i < |x| ==> x[i] as int / 32 == y[i] as int / 32
    ensures x == y
  {
    forall i | 0 <= i < |x| ensures x[i] == y[i] {
      assert Lows(x)[i] == Lows(y)[i];
      assert x[i] as int == 32 * (x[i] as int / 32) + x[i] as int % 32;
      assert y[i] as int == 32 * (y[i] as int / 32) + y[i] as int % 32;
    }
  }

  // ---- The text form ---------------------------------------------------------------------

  function FiveBitGroups(octets: seq<nat>): (data: seq<symbol>)
    requires Below(octets, 256)
  {
    GroupsOfFive();
    Regrouped(octets, 8, 5)
  }

  lemma GroupsOfFive()
    ensures Pow2(5) == 32 && Pow2(8) == 256
  {
    assert Pow2(4) == 16;
    assert Pow2(7) == 128 by {
      assert Pow2(6) == 64;
    }
  }

  function Glyph(d: symbol): char {
    CHARSET[d]
  }

  function Glyphs(data: seq<symbol>): (text: string)
    ensures |text| == |data|
    ensures forall i :: 0 <= i < |data| ==> text[i] == Glyph(data[i])
  {
    seq(|data|, i requires 0 <= i < |data| => Glyph(data[i]))
  }

  function EncodeText(hrp: string, octets: seq<nat>): string
    requires Below(octets, 256)
  {
    var data := FiveBitGroups(octets);
    hrp + "1" + Glyphs(data + CreateChecksum(hrp, data))
  }

  method Encode(hrp: string, octets: seq<nat>) returns (text: string)
    requires Below(octets, 256)
    ensures text == EncodeText(hrp, octets)
  {
    hide CreateChecksum, Regrouped, Glyph;
    GroupsOfFive();
    var data := ConvertBits(octets, 8, 5);
    assert data == FiveBitGroups(octets);
    var combined := data + CreateChecksum(hrp, data);
    text := hrp + "1" + Glyphs(combined);
  }

  /** A reader of the text form, after BIP-173: the last '1' separates; every later character is a
      symbol; the checksum must verify; the remaining symbols must be the canonical groups of whole
      octets. */
  function Decode(text: string): Option<(string, seq<nat>)> {
    var k := LastSeparator(text);
    if k < 0 then None
    else
      match SymbolsOf(text[k + 1..])
      case None => None
      case Some(symbols) =>
        if |symbols| < 6 || !Verifies(text[..k], symbols) then None
        else
          var data := symbols[..|symbols| - 6];
          var octets := Ungrouped(data, 5, 8);
          if Regrouped(octets, 8, 5) == data then Some((text[..k], octets)) else None
  }

  function LastSeparator(text: string): (k: int)
    ensures -1 <= k < |text|
  {
    if text == "" then -1
    else if text[|text| - 1] == '1' then |text| - 1
    else LastSeparator(text[..|text| - 1])
  }

  function SymbolsOf(text: string): Option<seq<symbol>> {
    if text == "" then Some([])
    else
      match (SymbolsOf(text[..|text| - 1]), SymbolOf(text[|text| - 1]))
      case (Some(ds), Some(d)) => Some(ds + [d])
      case _ => None
  }

  function SymbolOf(c: char): Option<symbol> {
    match c
    case 'q' => Some(0)
    case 'p' => Some(1)
    case 'z' => Some(2)
    case 'r' => Some(3)
    case 'y' => Some(4)
    case '9' => Some(5)
    case 'x' => Some(6)
    case '8' => Some(7)
    case 'g' => Some(8)
    case 'f' => Some(9)
    case '2' => Some(10)
    case 't' => Some(11)
    case 'v' => Some(12)
    case 'd' => Some(13)
    case 'w' => Some(14)
    case '0' => Some(15)
    case 's' => Some(16)
    case '3' => Some(17)
    case 'j' => Some(18)
    case 'n' => Some(19)
    case '5' => Some(20)
    case '4' => Some(21)
    case 'k' => Some(22)
    case 'h' => Some(23)
    case 'c' => Some(24)
    case 'e' => Some(25)
    case '6' => Some(26)
    case 'm' => Some(27)
    case 'u' => Some(28)
    case 'a' => Some(29)
    case '7' => Some(30)
    case 'l' => Some(31)
    case _ => None
  }

  lemma SymbolOfGlyph(d: symbol)
    ensures SymbolOf(Glyph(d)) == Some(d)
    ensures Glyph(d) != '1'
  {
    match d {
      case 0 => assert CHARSET[0] == 'q';
      case 1 => assert CHARSET[1] == 'p';
      case 2 => assert CHARSET[2] == 'z';
      case 3 => assert CHARSET[3] == 'r';
      case 4 => assert CHARSET[4] == 'y';
      case 5 => assert CHARSET[5] == '9';
      case 6 => assert CHARSET[6] == 'x';
      case 7 => assert CHARSET[7] == '8';
      case 8 => assert CHARSET[8] == 'g';
      case 9 => assert CHARSET[9] == 'f';
      case 10 => assert CHARSET[10] == '2';
      case 11 => assert CHARSET[11] == 't';
      case 12 => assert CHARSET[12] == 'v';
      case 13 => assert CHARSET[13] == 'd';
      case 14 => assert CHARSET[14] == 'w';
      case 15 => assert CHARSET[15] == '0';
      case 16 => assert CHARSET[16] == 's';
      case 17 => assert CHARSET[17] == '3';
      case 18 => assert CHARSET[18] == 'j';
      case 19 => assert CHARSET[19] == 'n';
      case 20 => assert CHARSET[20] == '5';
      case 21 => assert CHARSET[21] == '4';
      case 22 => assert CHARSET[22] == 'k';
      case 23 => assert CHARSET[23] == 'h';
      case 24 => assert CHARSET[24] == 'c';
      case 25 => assert CHARSET[25] == 'e';
      case 26 => assert CHARSET[26] == '6';
      case 27 => assert CHARSET[27] == 'm';
      case 28 => assert CHARSET[28] == 'u';
      case 29 => assert CHARSET[29] == 'a';
      case 30 => assert CHARSET[30] == '7';
      case _ => assert CHARSET[31] == 'l';
    }
  }

  lemma {:induction false} GlyphsRead(hrp: string, symbols: seq<symbol>)
    ensures LastSeparator(hrp + "1" + Glyphs(symbols)) == |hrp|
    ensures SymbolsOf(Glyphs(symbols)) == Some(symbols)
  {
    hide Glyph, SymbolOf;
    if symbols != [] {
      var i, d := symbols[..|symbols| - 1], symbols[|symbols| - 1];
      GlyphsRead(hrp, i);
      SymbolOfGlyph(d);
      assert symbols == i + [d];
      assert Glyphs(symbols)[..|i|] == Glyphs(i);
      var text := hrp + "1" + Glyphs(symbols);
      assert text[..|text| - 1] == hrp + "1" + Glyphs(i);
    }
  }

  /** What a reader makes of a human-readable part and symbols printed after it. */
  lemma DecodeGlyphs(hrp: string, symbols: seq<symbol>)
    ensures |symbols| < 6 || !Verifies(hrp, symbols) ==> Decode(hrp + "1" + Glyphs(symbols)) == None
    ensures |symbols| >= 6 && Verifies(hrp, symbols) ==>
      var data := symbols[..|symbols| - 6];
      var octets := Ungrouped(data, 5, 8);
      Decode(hrp + "1" + Glyphs(symbols)) == if Regrouped(octets, 8, 5) == data then Some((hrp, octets)) else None
  {
    hide Verifies, LastSeparator, SymbolsOf, Glyph, Regrouped, Ungrouped;
    GlyphsRead(hrp, symbols);
    var text := hrp + "1" + Glyphs(symbols);
    assert text[..|hrp|] == hrp;
    assert text[|hrp| + 1..] == Glyphs(symbols);
  }

  /** Every string comes back, whatever the human-readable part, even one that has a '1' in it. */
  lemma DecodeEncode(hrp: string, octets: seq<nat>)
    requires Below(octets, 256)
    ensures Decode(EncodeText(hrp, octets)) == Some((hrp, octets))
  {
    hide Decode, Verifies, CreateChecksum, Regrouped, Ungrouped, Glyphs;
    var data := FiveBitGroups(octets);
    var sum := CreateChecksum(hrp, data);
    ChecksumValid(hrp, data);
    DecodeGlyphs(hrp, data + sum);
    assert (data + sum)[..|data|] == data;
    GroupsOfFive();
    UngroupedRegrouped(octets, 8, 5);
  }

  /** A text altered within six consecutive symbols is rejected, not misread. */
  lemma AlteredTextRejected(hrp: string, octets: seq<nat>,
                            before: seq<symbol>, x: seq<symbol>, y: seq<symbol>, after: seq<symbol>)
    requires Below(octets, 256)
    requires EncodeText(hrp, octets) == hrp + "1" + Glyphs(before + x + after)
    requires |x| == |y| <= 6 && x != y
    ensures Decode(hrp + "1" + Glyphs(before + y + after)) == None
  {
    hide Decode, Verifies, CreateChecksum, Regrouped, Ungrouped, Glyphs, BitRegrouping.Below;
    var data := FiveBitGroups(octets);
    var sent := data + CreateChecksum(hrp, data);
    ChecksumValid(hrp, data);
    SameGlyphs(hrp, sent, before + x + after);
    BurstDetected(hrp, before, x, y, after);
    DecodeGlyphs(hrp, before + y + after);
  }

  lemma SameGlyphs(hrp: string, s: seq<symbol>, t: seq<symbol>)
    requires hrp + "1" + Glyphs(s) == hrp + "1" + Glyphs(t)
    ensures s == t
  {
    hide Glyphs;
    var u, v := hrp + "1" + Glyphs(s), hrp + "1" + Glyphs(t);
    assert u[|hrp| + 1..] == Glyphs(s) && v[|hrp| + 1..] == Glyphs(t);
    GlyphsRead(hrp, s);
    GlyphsRead(hrp, t);
  }

  // ---- The example of BIP-173 ------------------------------------------------------------

  /** The human-readable part "a" and no data. */
  lemma Example()
    ensures EncodeText("a", []) == "a12uel5l"
  {
    hide CreateChecksum, Regrouped, Glyph;
    var none: seq<symbol> := [];
    NoGroups();
    ExampleChecksum();
    ExampleGlyphs();
    var sum: seq<symbol> := [10, 28, 25, 31, 20, 31];
    assert none + sum == sum;
    assert Glyphs(sum) == "2uel5l";
  }

  lemma NoGroups()
    ensures FiveBitGroups([]) == []
  {
    GroupsOfFive();
  }

  lemma ExampleGlyphs()
    ensures Glyph(10) == '2' && Glyph(28) == 'u' && Glyph(25) == 'e' && Glyph(31) == 'l' && Glyph(20) == '5'
  {
    assert CHARSET[10] == '2' && CHARSET[28] == 'u' && CHARSET[25] == 'e' && CHARSET[31] == 'l' && CHARSET[20] == '5';
  }

  lemma ExampleChecksum()
    ensures CreateChecksum("a", []) == [10, 28, 25, 31, 20, 31]
  {
    ExampleWords();
    ExampleRegister();
    hide PolymodFrom, HrpExpand, Words;
  }

  lemma ExampleWords()
    ensures HrpExpand("a") + Words([]) + Words(ZEROS) == [3, 0, 1, 0, 0, 0, 0, 0, 0]
  {
    assert 'a' as int == 97;
  }

  lemma ExampleSteps()
    ensures Step(0x1, 3) == 0x23
    ensures Step(0x23, 0) == 0x460
    ensures Step(0x460, 1) == 0x8C01
    ensures Step(0x8C01, 0) == 0x118020
    ensures Step(0x118020, 0) == 0x2300400
    ensures Step(0x2300400, 0) == 0x3D6AD7B2
    ensures Step(0x3D6AD7B2, 0) == 0x2FD30B9
    ensures Step(0x2FD30B9, 0) == 0x24CC4092
    ensures Step(0x24CC4092, 0) == 0x15CCFE9E
  {
  }

  lemma ExampleRegister()
    ensures PolymodFrom(1, [3, 0, 1, 0, 0, 0, 0, 0, 0]) == 0x15CCFE9E
  {
    hide Step;
    ExampleSteps();
    var values: seq<word> := [3, 0, 1, 0, 0, 0, 0, 0, 0];
    assert PolymodFrom(0x1, values[0..]) == PolymodFrom(0x23, values[1..]) by { assert values[0..][1..] == values[1..]; }
    assert PolymodFrom(0x23, values[1..]) == PolymodFrom(0x460, values[2..]) by { assert values[1..][1..] == values[2..]; }
    assert PolymodFrom(0x460, values[2..]) == PolymodFrom(0x8C01, values[3..]) by { assert values[2..][1..] == values[3..]; }
    assert PolymodFrom(0x8C01, values[3..]) == PolymodFrom(0x118020, values[4..]) by { assert values[3..][1..] == values[4..]; }
    assert PolymodFrom(0x118020, values[4..]) == PolymodFrom(0x2300400, values[5..]) by { assert values[4..][1..] == values[5..]; }
    assert PolymodFrom(0x2300400, values[5..]) == PolymodFrom(0x3D6AD7B2, values[6..]) by { assert values[5..][1..] == values[6..]; }
    assert PolymodFrom(0x3D6AD7B2, values[6..]) == PolymodFrom(0x2FD30B9, values[7..]) by { assert values[6..][1..] == values[7..]; }
    assert PolymodFrom(0x2FD30B9, values[7..]) == PolymodFrom(0x24CC4092, values[8..]) by { assert values[7..][1..] == values[8..]; }
    assert PolymodFrom(0x24CC4092, values[8..]) == PolymodFrom(0x15CCFE9E, values[9..]) by { assert values[8..][1..] == values[9..]; }
    assert values[9..] == [];
  }
}
