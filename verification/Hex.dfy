/** Hexadecimal text: what bytes.fromhex accepts and bytes.hex prints. */
module Hex {
  import opened Wrappers

  type octet = n: int | 0 <= n < 256

  const DIGITS := "0123456789abcdef"

  function DigitValue(c: char): (r: Option<int>)
    ensures r.Some? ==> 0 <= r.value < 16
  {
    if '0' <= c <= '9' then Some(c as int - '0' as int)
    else if 'a' <= c <= 'f' then Some(c as int - 'a' as int + 10)
    else if 'A' <= c <= 'F' then Some(c as int - 'A' as int + 10)
    else None
  }

  /** The six white space characters of ASCII. */
  predicate IsSpace(c: char) {
    c == ' ' || 9 <= c as int <= 13
  }

  /** Pairs of digits; white space may stand between pairs. */
  function FromHex(s: string): Option<seq<octet>> {
    if s == "" then Some([])
    else if IsSpace(s[0]) then FromHex(s[1..])
    else if |s| == 1 || DigitValue(s[0]).None? || DigitValue(s[1]).None? then None
    else
      match FromHex(s[2..])
      case None => None
      case Some(rest) => Some([16 * DigitValue(s[0]).value + DigitValue(s[1]).value] + rest)
  }

  function ToHex(b: seq<octet>): (s: string) {
    if b == [] then "" else [DIGITS[b[0] / 16], DIGITS[b[0] % 16]] + ToHex(b[1..])
  }

  lemma DigitOf(d: int)
    requires 0 <= d < 16
    ensures DigitValue(DIGITS[d]) == Some(d) && !IsSpace(DIGITS[d])
  {
  }

  lemma PairRead(h: char, l: char, x: octet, rest: string)
    requires DigitValue(h) == Some(x / 16) && !IsSpace(h) && DigitValue(l) == Some(x % 16) && FromHex(rest).Some?
    ensures FromHex([h, l] + rest) == Some([x] + FromHex(rest).value)
  {
    hide DigitValue, IsSpace;
    assert ([h, l] + rest)[2..] == rest;
  }

  /** Printed bytes are read back. */
  lemma {:induction false} FromToHex(b: seq<octet>)
    ensures FromHex(ToHex(b)) == Some(b) && |ToHex(b)| == 2 * |b|
  {
    hide DigitValue, IsSpace;
    if b != [] {
      FromToHex(b[1..]);
      DigitOf(b[0] / 16);
      DigitOf(b[0] % 16);
      PairRead(DIGITS[b[0] / 16], DIGITS[b[0] % 16], b[0], ToHex(b[1..]));
      hide FromHex;
      assert [b[0]] + b[1..] == b;
    }
  }

  /** Text without white space is accepted exactly when it is pairs of digits, of either case. */
  lemma {:induction false} FromHexIff(s: string)
    requires forall i :: 0 <= i < |s| ==> !IsSpace(s[i])
    ensures FromHex(s).Some? <==> |s| % 2 == 0 && forall i :: 0 <= i < |s| ==>
      '0' <= s[i] <= '9' || 'a' <= s[i] <= 'f' || 'A' <= s[i] <= 'F'
    ensures FromHex(s).Some? ==> |FromHex(s).value| == |s| / 2
  {
    if |s| >= 2 {
      FromHexIff(s[2..]);
      assert forall i :: 2 <= i < |s| ==> s[i] == s[2..][i - 2];
    }
  }

  /** White space between pairs is skipped. */
  lemma SpaceSkipped(c: char, s: string)
    requires IsSpace(c)
    ensures FromHex([c] + s) == FromHex(s)
  {
    assert ([c] + s)[1..] == s;
  }
}
