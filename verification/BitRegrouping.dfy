/** Regrouping a string of digits from one power-of-two base to another. */
module BitRegrouping {
  import opened ModularArithmetic

  function Pow2(k: nat): (r: nat)
    ensures r >= 1
  {
    if k == 0 then 1 else 2 * Pow2(k - 1)
  }

  lemma {:induction false} Pow2Add(a: nat, b: nat)
    ensures Pow2(a + b) == Pow2(a) * Pow2(b)
  {
    if b > 0 {
      Pow2Add(a, b - 1);
      calc {
        Pow2(a + b);
        2 * Pow2(a + (b - 1));
        2 * (Pow2(a) * Pow2(b - 1));
        Pow2(a) * (2 * Pow2(b - 1));
        Pow2(a) * Pow2(b);
      }
    }
  }

  // ---- Digits and values -----------------------------------------------------------------

  /** The number whose digits, most significant first, are ds. */
  function Value(ds: seq<nat>, base: nat): nat {
    if ds == [] then 0 else Value(ds[..|ds| - 1], base) * base + ds[|ds| - 1]
  }

  /** The n low digits of v, most significant first. */
  function Digits(v: nat, base: nat, n: nat): (ds: seq<nat>)
    requires base >= 1
    ensures |ds| == n
    ensures Below(ds, base)
  {
    if n == 0 then [] else Digits(v / base, base, n - 1) + [v % base]
  }

  predicate Below(ds: seq<nat>, base: nat) {
    forall i :: 0 <= i < |ds| ==> ds[i] < base
  }

  lemma ValueLast(ds: seq<nat>, d: nat, base: nat)
    ensures Value(ds + [d], base) == Value(ds, base) * base + d
  {
    assert (ds + [d])[..|ds|] == ds;
  }

  lemma Quotient(q: nat, base: nat, r: nat)
    requires r < base
    ensures (q * base + r) / base == q
    ensures (q * base + r) % base == r
  {
    var v := q * base + r;
    DivisionIsUnique(base, q, r, v / base, v % base);
  }

  lemma {:induction false} DigitsOfValue(ds: seq<nat>, base: nat)
    requires base >= 1 && Below(ds, base)
    ensures Digits(Value(ds, base), base, |ds|) == ds
  {
    if ds != [] {
      var i, d := ds[..|ds| - 1], ds[|ds| - 1];
      DigitsOfValue(i, base);
      Quotient(Value(i, base), base, d);
      assert ds == i + [d];
    }
  }

  lemma {:induction false} ValueOfDigits(v: nat, base: nat, n: nat)
    requires base >= 1
    requires v < Power(base, n)
    ensures Value(Digits(v, base, n), base) == v
  {
    hide *;
    if n == 0 {
      NoDigits(v, base);
    } else {
      QuotientOfPower(v, base, n);
      ValueOfDigits(v / base, base, n - 1);
      DigitsExtend(v, base, n);
    }
  }

  lemma NoDigits(v: nat, base: nat)
    requires base >= 1
    requires v < Power(base, 0)
    ensures Value(Digits(v, base, 0), base) == v
  {
    assert Digits(v, base, 0) == [];
  }

  lemma QuotientOfPower(v: nat, base: nat, n: nat)
    requires base >= 1 && n > 0
    requires v < Power(base, n)
    ensures v / base < Power(base, n - 1)
  {
    QuotientBelow(v, base, Power(base, n - 1));
  }

  lemma DigitsExtend(v: nat, base: nat, n: nat)
    requires base >= 1 && n > 0
    requires Value(Digits(v / base, base, n - 1), base) == v / base
    ensures Value(Digits(v, base, n), base) == v
  {
    DigitsLast(v, base, n);
    hide Digits, Value;
    ValueLast(Digits(v / base, base, n - 1), v % base, base);
    DivideAndMultiply(v, base);
  }

  lemma DigitsLast(v: nat, base: nat, n: nat)
    requires base >= 1 && n > 0
    ensures Digits(v, base, n) == Digits(v / base, base, n - 1) + [v % base]
  {
  }

  function Power(base: nat, n: nat): nat {
    if n == 0 then 1 else base * Power(base, n - 1)
  }

  lemma QuotientBelow(v: nat, base: nat, m: nat)
    requires base >= 1 && v < base * m
    ensures v / base < m
  {
    var q := v / base;
    assert base * q <= v;
    if q >= m {
      MulMonotone(base, m, q);
    }
  }

  lemma MulMonotone(b: nat, x: nat, y: nat)
    requires x <= y
    ensures b * x <= b * y
  {
  }

  /** Splitting off k low digits. */
  lemma {:induction false} DigitsSplit(a: nat, b: nat, n: nat, k: nat)
    requires b < Pow2(k)
    ensures Digits(a * Pow2(k) + b, 2, n + k) == Digits(a, 2, n) + Digits(b, 2, k)
    decreases k
  {
    if k == 0 {
      assert Digits(b, 2, 0) == [];
      assert a * Pow2(0) + b == a;
    } else {
      var v := a * Pow2(k) + b;
      Halve(a, b, Pow2(k - 1));
      DigitsSplit(a, b / 2, n, k - 1);
      assert Digits(v, 2, n + k) == Digits(v / 2, 2, n + (k - 1)) + [v % 2];
    }
  }

  lemma Halve(a: nat, b: nat, m: nat)
    requires b < 2 * m
    ensures (a * (2 * m) + b) / 2 == a * m + b / 2
    ensures (a * (2 * m) + b) % 2 == b % 2
    ensures b / 2 < m
  {
    assert a * (2 * m) == 2 * (a * m);
  }

  // ---- Regrouping ------------------------------------------------------------------------

  /** How many groups of to bits hold that many bits. */
  function GroupCount(bits: nat, to: nat): (n: nat)
    requires to >= 1
    ensures bits <= n * to < bits + to
  {
    (bits + to - 1) / to
  }

  /** Zero bits added to fill the last group. */
  function Padding(bits: nat, to: nat): (pad: nat)
    requires to >= 1
    ensures pad < to
  {
    GroupCount(bits, to) * to - bits
  }

  /** The same bits, zero-padded on the right, in groups of to. */
  function Regrouped(data: seq<nat>, from: nat, to: nat): seq<nat>
    requires to >= 1
  {
    Digits(Value(data, Pow2(from)) * Pow2(Padding(|data| * from, to)), Pow2(to), GroupCount(|data| * from, to))
  }

  method ConvertBits(data: seq<nat>, from: nat, to: nat) returns (ret: seq<nat>)
    requires to >= 1
    requires Below(data, Pow2(from))
    ensures ret == Regrouped(data, from, to)
  {
    var acc: nat := 0;
    var bits: nat := 0;
    ret := [];
    for i := 0 to |data|
      invariant acc == Value(data[..i], Pow2(from))
      invariant Held(ret, acc, bits, to) && bits < to
      invariant |ret| * to + bits == i * from
    {
      hide Value, Below, Pow2;
      assert data[..i + 1] == data[..i] + [data[i]];
      ValueLast(data[..i], data[i], Pow2(from));
      assert (i + 1) * from == i * from + from;
      assert data[i] < Pow2(from) by { BelowAt(data, Pow2(from), i); }
      Shifted(ret, acc, bits, to, from, data[i]);
      acc := acc * Pow2(from) + data[i];
      bits := bits + from;
      while bits >= to
        invariant Held(ret, acc, bits, to)
        invariant |ret| * to + bits == (i + 1) * from
      {
        bits := bits - to;
        Emitted(ret, acc, bits, to);
        assert (|ret| + 1) * to == |ret| * to + to;
        ret := ret + [(acc / Pow2(bits)) % Pow2(to)];
      }
    }
    assert data[..|data|] == data;
    if bits > 0 {
      Flushed(ret, acc, bits, to);
      assert (|ret| + 1) * to == |ret| * to + to;
      ret := ret + [(acc * Pow2(to - bits)) % Pow2(to)];
      Complete(data, from, to, ret, to - bits);
    } else {
      Complete(data, from, to, ret, 0);
    }
  }

  /** ret holds all of acc but its bits low bits. */
  predicate Held(ret: seq<nat>, acc: nat, bits: nat, to: nat) {
    Below(ret, Pow2(to)) && Value(ret, Pow2(to)) == acc / Pow2(bits)
  }

  lemma BelowAt(ds: seq<nat>, base: nat, i: nat)
    requires Below(ds, base) && i < |ds|
    ensures ds[i] < base
  {
  }

  /** (a * f + v) / (b * f) == a / b for a digit v below f. */
  lemma DivideScaled(a: nat, b: nat, f: nat, v: nat)
    requires b >= 1 && v < f
    ensures b * f >= 1
    ensures (a * f + v) / (b * f) == a / b
  {
    var q, r := a / b, a % b;
    assert a == q * b + r;
    ScaledRemainder(q, b, r, f, v);
    Quotient(q, b * f, r * f + v);
  }

  lemma ScaledRemainder(q: nat, b: nat, r: nat, f: nat, v: nat)
    requires r < b && v < f
    ensures (q * b + r) * f + v == q * (b * f) + (r * f + v)
    ensures r * f + v < b * f
  {
    MulMonotone(f, r + 1, b);
    assert f * (r + 1) == r * f + f;
    assert f * b == b * f;
  }

  lemma Shifted(ret: seq<nat>, acc: nat, bits: nat, to: nat, from: nat, v: nat)
    requires Held(ret, acc, bits, to) && v < Pow2(from)
    ensures Held(ret, acc * Pow2(from) + v, bits + from, to)
  {
    hide Value, Below, Pow2;
    Pow2Add(bits, from);
    DivideScaled(acc, Pow2(bits), Pow2(from), v);
  }

  lemma Emitted(ret: seq<nat>, acc: nat, bits: nat, to: nat)
    requires Held(ret, acc, bits + to, to)
    ensures Held(ret + [(acc / Pow2(bits)) % Pow2(to)], acc, bits, to)
  {
    hide Value, Pow2, Below;
    var top := acc / Pow2(bits);
    BelowLast(ret, top % Pow2(to), Pow2(to));
    ValueLast(ret, top % Pow2(to), Pow2(to));
    Pow2Add(to, bits);
    DivideTwice(acc, Pow2(bits), Pow2(to));
    DivideAndMultiply(top, Pow2(to));
  }

  lemma DivideAndMultiply(a: nat, b: nat)
    requires b >= 1
    ensures (a / b) * b + a % b == a
  {
  }

  lemma BelowLast(ds: seq<nat>, d: nat, base: nat)
    requires Below(ds, base) && d < base
    ensures Below(ds + [d], base)
  {
  }

  lemma DivideTwice(a: nat, b: nat, c: nat)
    requires b >= 1 && c >= 1
    ensures c * b >= 1
    ensures (a / b) / c == a / (c * b)
  {
    var q, r := a / b, a % b;
    DivideAndMultiply(a, b);
    RegroupQuotient(q, r, b, c);
  }

  lemma RegroupQuotient(q: nat, r: nat, b: nat, c: nat)
    requires r < b && c >= 1
    ensures c * b >= 1
    ensures q / c == (q * b + r) / (c * b)
  {
    var s, t := q / c, q % c;
    DivideAndMultiply(q, c);
    ScaledRemainder(s, c, t, b, r);
    Quotient(s, c * b, t * b + r);
  }

  lemma Flushed(ret: seq<nat>, acc: nat, bits: nat, to: nat)
    requires bits < to && Held(ret, acc, bits, to)
    ensures Held(ret + [(acc * Pow2(to - bits)) % Pow2(to)], acc * Pow2(to - bits), 0, to)
  {
    hide Value;
    var b, f := Pow2(bits), Pow2(to - bits);
    Pow2Add(bits, to - bits);
    ValueLast(ret, (acc * f) % Pow2(to), Pow2(to));
    assert Pow2(0) == 1;
    hide Pow2;
    var q, r := acc / b, acc % b;
    assert acc == q * b + r;
    ScaledRemainder(q, b, r, f, 0);
    Quotient(q, b * f, r * f);
  }

  lemma Complete(data: seq<nat>, from: nat, to: nat, ret: seq<nat>, pad: nat)
    requires to >= 1 && pad < to
    requires |ret| * to == |data| * from + pad
    requires Held(ret, Value(data, Pow2(from)) * Pow2(pad), 0, to)
    ensures ret == Regrouped(data, from, to)
  {
    hide Value, Pow2, Below, Digits, GroupCount;
    CountUnique(|ret|, GroupCount(|data| * from, to), to, |data| * from);
    assert Padding(|data| * from, to) == pad;
    DigitsOfValue(ret, Pow2(to));
    DivideByOne(Value(data, Pow2(from)) * Pow2(pad));
  }

  lemma CountUnique(m: nat, n: nat, to: nat, bits: nat)
    requires to >= 1
    requires bits <= m * to < bits + to
    requires bits <= n * to < bits + to
    ensures m == n
  {
    if m < n {
      MoreGroups(m, n, to);
    } else if n < m {
      MoreGroups(n, m, to);
    }
  }

  lemma MoreGroups(m: nat, n: nat, to: nat)
    requires m < n
    ensures n * to >= m * to + to
  {
    MulMonotone(to, m + 1, n);
  }

  lemma DivideByOne(v: nat)
    ensures v / Pow2(0) == v
  {
  }

  // ---- Nothing is lost -------------------------------------------------------------------

  lemma {:induction false} ValueBound(ds: seq<nat>, w: nat)
    requires Below(ds, Pow2(w))
    ensures Value(ds, Pow2(w)) < Pow2(|ds| * w)
  {
    if ds != [] {
      var i, d := ds[..|ds| - 1], ds[|ds| - 1];
      assert ds == i + [d];
      ValueBound(i, w);
      ExtendBound(i, d, w);
    }
  }

  lemma ExtendBound(i: seq<nat>, d: nat, w: nat)
    requires Value(i, Pow2(w)) < Pow2(|i| * w) && d < Pow2(w)
    ensures Value(i + [d], Pow2(w)) < Pow2(|i + [d]| * w)
  {
    assert |i + [d]| * w == |i| * w + w;
    Pow2Add(|i| * w, w);
    hide Value, Pow2;
    ScaledRemainder(0, Pow2(|i| * w), Value(i, Pow2(w)), Pow2(w), d);
    ValueLast(i, d, Pow2(w));
  }

  lemma {:induction false} PowerOfPow2(w: nat, n: nat)
    ensures Power(Pow2(w), n) == Pow2(n * w)
  {
    if n == 0 {
      assert 0 * w == 0;
    } else {
      PowerOfPow2(w, n - 1);
      assert n * w == w + (n - 1) * w;
      Pow2Add(w, (n - 1) * w);
    }
  }

  /** What regrouping returns: as few groups as hold the bits, each below 2^to, together worth the
      input followed by zero bits. */
  lemma RegroupedValue(data: seq<nat>, from: nat, to: nat)
    requires to >= 1 && Below(data, Pow2(from))
    ensures |Regrouped(data, from, to)| == GroupCount(|data| * from, to)
    ensures Below(Regrouped(data, from, to), Pow2(to))
    ensures Value(Regrouped(data, from, to), Pow2(to))
         == Value(data, Pow2(from)) * Pow2(Padding(|data| * from, to))
  {
    var bits := |data| * from;
    var n, pad := GroupCount(bits, to), Padding(bits, to);
    ValueBound(data, from);
    Pow2Add(bits, pad);
    PowerOfPow2(to, n);
    hide Value, Pow2, Digits, Power, Below;
    ScaledRemainder(0, Pow2(bits), Value(data, Pow2(from)), Pow2(pad), 0);
    ValueOfDigits(Value(data, Pow2(from)) * Pow2(pad), Pow2(to), n);
  }

  /** The bits of the digits, w bits for each. */
  function Bits(ds: seq<nat>, w: nat): (b: seq<nat>)
    ensures |b| == |ds| * w
  {
    if ds == [] then []
    else
      assert |ds| * w == (|ds| - 1) * w + w;
      Bits(ds[..|ds| - 1], w) + Digits(ds[|ds| - 1], 2, w)
  }

  lemma {:induction false} BitsOfValue(ds: seq<nat>, w: nat)
    requires Below(ds, Pow2(w))
    ensures Bits(ds, w) == Digits(Value(ds, Pow2(w)), 2, |ds| * w)
  {
    if ds != [] {
      var i, d := ds[..|ds| - 1], ds[|ds| - 1];
      BitsOfValue(i, w);
      assert Bits(ds, w) == Bits(i, w) + Digits(d, 2, w);
      hide Value, Bits, Digits, Pow2, Below;
      assert ds == i + [d];
      ValueLast(i, d, Pow2(w));
      assert |ds| * w == |i| * w + w;
      DigitsSplit(Value(i, Pow2(w)), d, |i| * w, w);
    }
  }

  /** The output's bit string is the input's, followed by zero bits. */
  lemma RegroupedBits(data: seq<nat>, from: nat, to: nat)
    requires to >= 1 && Below(data, Pow2(from))
    ensures Bits(Regrouped(data, from, to), to) == Bits(data, from) + Digits(0, 2, Padding(|data| * from, to))
  {
    hide Value, Pow2, Digits, Below, Bits, Regrouped;
    var bits := |data| * from;
    RegroupedValue(data, from, to);
    BitsOfValue(Regrouped(data, from, to), to);
    BitsOfValue(data, from);
    DigitsSplit(Value(data, Pow2(from)), 0, bits, Padding(bits, to));
  }

  /** The regrouping a decoder makes: whole groups of from bits are read back, what is left over is
      dropped. */
  function Ungrouped(groups: seq<nat>, to: nat, from: nat): seq<nat>
    requires from >= 1
  {
    var bits := |groups| * to;
    var left := bits % from;
    Digits(Value(groups, Pow2(to)) / Pow2(left), Pow2(from), bits / from)
  }

  /** Groups no wider than the input's are enough to tell the length, and every input comes back. */
  lemma UngroupedRegrouped(data: seq<nat>, from: nat, to: nat)
    requires 1 <= to <= from && Below(data, Pow2(from))
    ensures Ungrouped(Regrouped(data, from, to), to, from) == data
  {
    hide Value, Pow2, Digits, Below, Regrouped;
    var bits := |data| * from;
    var pad := Padding(bits, to);
    RegroupedValue(data, from, to);
    Quotient(|data|, from, pad);
    Quotient(Value(data, Pow2(from)), Pow2(pad), 0);
    DigitsOfValue(data, Pow2(from));
  }
}
