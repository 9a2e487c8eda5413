/**
 * The few JavaScript string and number primitives the handlers rely on:
 * truthiness of an optional string, `parseInt` with radix 10,
 * `Number.prototype.toString`, `String.prototype.padStart(2, "0")`
 * and the truncating remainder operator `%`.
 */
module JsText {
  import opened Wrappers

  /** `undefined`, `null` and `""` are falsy; every other string is truthy. */
  predicate Truthy(o: Option<string>) {
    o.Some? && o.value != ""
  }

  predicate IsDigit(c: char) {
    '0' <= c <= '9'
  }

  predicate AllDigits(s: string) {
    forall i :: 0 <= i < |s| ==> IsDigit(s[i])
  }

  function DigitValue(c: char): (d: nat)
    requires IsDigit(c)
    ensures d < 10
  {
    (c as int) - ('0' as int)
  }

  function DigitChar(d: nat): (c: char)
    requires d < 10
    ensures IsDigit(c) && DigitValue(c) == d
  {
    (('0' as int) + d) as char
  }

  /** Length of the longest prefix of `s` made of decimal digits. */
  function DigitPrefixLength(s: string): (n: nat)
    ensures n <= |s|
    ensures AllDigits(s[..n])
    ensures n < |s| ==> !IsDigit(s[n])
  {
    if s == [] || !IsDigit(s[0]) then 0 else 1 + DigitPrefixLength(s[1..])
  }

  /** The value of a decimal digit string, read left to right (the empty string reads as 0). */
  function DigitsValue(s: string): nat
    requires AllDigits(s)
  {
    if s == [] then 0 else 10 * DigitsValue(s[..|s| - 1]) + DigitValue(s[|s| - 1])
  }

  /** The shortest decimal digit string of a natural number. */
  function NatToDigits(n: nat): (s: string)
    ensures |s| >= 1 && AllDigits(s)
    ensures n < 10 <==> |s| == 1
  {
    if n < 10 then [DigitChar(n)] else NatToDigits(n / 10) + [DigitChar(n % 10)]
  }

  /**
   * `parseInt(s)` with radix 10: an optional sign, then the longest run of
   * decimal digits; `NaN` (here `None`) when that run is empty. Anything after
   * the digits is ignored.
   */
  function ParseInt(s: string): (r: Option<int>)
    ensures r.Some? <==> DigitPrefixLength(SignFree(s)) > 0
  {
    var rest := SignFree(s);
    var n := DigitPrefixLength(rest);
    if n == 0 then None else Some(SignOf(s) * DigitsValue(rest[..n]))
  }

  function SignOf(s: string): int {
    if |s| > 0 && s[0] == '-' then -1 else 1
  }

  function SignFree(s: string): string {
    if |s| > 0 && (s[0] == '-' || s[0] == '+') then s[1..] else s
  }

  /** `n.toString()` for an integer `n`. */
  function IntToString(n: int): (s: string)
    ensures |s| >= 1
  {
    if n < 0 then "-" + NatToDigits(-n) else NatToDigits(n)
  }

  /** `s.padStart(2, "0")`. */
  function PadStart2(s: string): (r: string)
    ensures |r| == if |s| >= 2 then |s| else 2
    ensures |s| >= 2 ==> r == s
    ensures |s| < 2 ==> r[2 - |s|..] == s && forall i :: 0 <= i < 2 - |s| ==> r[i] == '0'
  {
    if |s| >= 2 then s else if |s| == 1 then "0" + s else "00"
  }

  /** JavaScript's `a % b` for `b > 0`: the remainder takes the sign of `a`. */
  function JsRemainder(a: int, b: int): (r: int)
    requires b > 0
    ensures a >= 0 ==> 0 <= r < b && r == a % b
    ensures a < 0 ==> -b < r <= 0
    ensures a < 0 ==> r == -((-a) % b)
  {
    if a >= 0 then a % b else -((-a) % b)
  }

  lemma {:induction false} DigitsValueAppend(s: string, c: char)
    requires AllDigits(s) && IsDigit(c)
    ensures AllDigits(s + [c])
    ensures DigitsValue(s + [c]) == 10 * DigitsValue(s) + DigitValue(c)
  {
    assert (s + [c])[..|s|] == s;
  }

  /** Reading back the digits of `n` gives `n`. */
  lemma {:induction false} DigitsRoundTrip(n: nat)
    ensures DigitsValue(NatToDigits(n)) == n
  {
    if n >= 10 {
      DigitsRoundTrip(n / 10);
      DigitsValueAppend(NatToDigits(n / 10), DigitChar(n % 10));
    }
  }

  /** A leading zero does not change the value of a digit string. */
  lemma {:induction false} LeadingZero(s: string)
    requires AllDigits(s)
    ensures AllDigits("0" + s) && DigitsValue("0" + s) == DigitsValue(s)
  {
    if s != [] {
      var init := s[..|s| - 1];
      LeadingZero(init);
      assert ("0" + s)[..|"0" + s| - 1] == "0" + init;
    }
  }

  /** The digit run of `t + rest` is exactly `t` when `rest` does not start with a digit. */
  lemma {:induction false} DigitPrefixOfConcat(t: string, rest: string)
    requires AllDigits(t)
    requires rest == [] || !IsDigit(rest[0])
    ensures DigitPrefixLength(t + rest) == |t|
  {
    if t != [] {
      assert (t + rest)[1..] == t[1..] + rest;
      DigitPrefixOfConcat(t[1..], rest);
    }
  }

  /** A leading-zero-padded digit string still reads as the number it pads. */
  lemma {:induction false} PaddedValue(n: nat)
    ensures |PadStart2(NatToDigits(n))| >= 1 && AllDigits(PadStart2(NatToDigits(n)))
    ensures DigitsValue(PadStart2(NatToDigits(n))) == n
  {
    var d := NatToDigits(n);
    DigitsRoundTrip(n);
    if |d| < 2 {
      assert PadStart2(d) == "0" + d;
      LeadingZero(d);
    }
  }

  /** `parseInt` of a non-empty digit string followed by a non-digit reads the digits. */
  lemma {:induction false} ParseDigitsThenRest(p: string, rest: string)
    requires |p| >= 1 && AllDigits(p)
    requires rest == [] || !IsDigit(rest[0])
    ensures ParseInt(p + rest) == Some(DigitsValue(p))
  {
    var s := p + rest;
    assert s[0] != '-' && s[0] != '+' by { assert s[0] == p[0] && IsDigit(p[0]); }
    assert SignFree(s) == s && SignOf(s) == 1;
    DigitPrefixOfConcat(p, rest);
    assert s[..|p|] == p;
  }

  /** `parseInt` reads back a zero-padded non-negative number followed by a non-digit. */
  lemma {:induction false} ParsePadded(n: nat, rest: string)
    requires rest == [] || !IsDigit(rest[0])
    ensures ParseInt(PadStart2(NatToDigits(n)) + rest) == Some(n)
  {
    PaddedValue(n);
    ParseDigitsThenRest(PadStart2(NatToDigits(n)), rest);
  }
}
