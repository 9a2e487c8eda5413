/**
 * Wall-clock times as the handlers treat them: minutes since midnight,
 * written `HH:MM` with zero padding and read back with
 * `parseInt(parts[0]) * 60 + parseInt(parts[1])` after `split(":")`.
 * Also the string order `localeCompare` puts such times in.
 */
module Clock {
  import opened Wrappers
  import opened JsText

  /**
   * `${Math.floor(m / 60).toString().padStart(2, "0")}:${(m % 60).toString().padStart(2, "0")}`.
   * Dafny's `/` by a positive divisor is JavaScript's `Math.floor` of the quotient;
   * the remainder is JavaScript's sign-following `%`. Nothing wraps at 24 hours.
   */
  function FormatClock(m: int): string {
    PadStart2(IntToString(m / 60)) + ":" + PadStart2(IntToString(JsRemainder(m, 60)))
  }

  /** Index of the first ':' in `s`, or `|s|` when there is none. */
  function ColonIndex(s: string): (i: nat)
    ensures i <= |s|
    ensures i < |s| ==> s[i] == ':'
    ensures forall j :: 0 <= j < i ==> s[j] != ':'
  {
    if s == [] || s[0] == ':' then 0 else 1 + ColonIndex(s[1..])
  }

  /**
   * `parseInt(s.split(":")[0]) * 60 + parseInt(s.split(":")[1])`, with `NaN`
   * as `None`: a string without ':' has no second part, and a part without a
   * leading digit run reads as `NaN`.
   */
  function ParseClock(s: string): Option<int> {
    var i := ColonIndex(s);
    if i == |s| then None
    else
      var rest := s[i + 1..];
      CombineFields(ParseInt(s[..i]), ParseInt(rest[..ColonIndex(rest)]))
  }

  /** `hours * 60 + minutes`, `NaN` when either part is. */
  function CombineFields(hours: Option<int>, minutes: Option<int>): Option<int> {
    if hours.Some? && minutes.Some? then Some(hours.value * 60 + minutes.value) else None
  }

  /** The two decimal digits of a number below 100. */
  function TwoDigitField(n: nat): string
    requires n < 100
  {
    [DigitChar(n / 10), DigitChar(n % 10)]
  }

  /** For hours and minutes below 100 the padded field is exactly two digits. */
  lemma {:induction false} TwoDigits(n: nat)
    requires n < 100
    ensures PadStart2(IntToString(n)) == TwoDigitField(n)
  {
    if n >= 10 {
      assert NatToDigits(n) == NatToDigits(n / 10) + [DigitChar(n % 10)];
    }
  }

  /** A time with a two-digit hour is written as five characters `HH:MM`. */
  lemma {:induction false} FormatClockChars(m: nat)
    requires m < 6000
    ensures FormatClock(m) == TwoDigitField(m / 60) + ([':'] + TwoDigitField(m % 60))
  {
    TwoDigits(m / 60);
    TwoDigits(m % 60);
  }

  lemma {:induction false} ColonIndexOfDigits(t: string, rest: string)
    requires AllDigits(t)
    requires rest == [] || rest[0] == ':'
    ensures ColonIndex(t + rest) == |t|
  {
    if t != [] {
      assert (t + rest)[1..] == t[1..] + rest;
      ColonIndexOfDigits(t[1..], rest);
    }
  }

  /** The padded decimal field of a natural number is all digits and parses back. */
  lemma {:induction false} PaddedField(n: nat)
    ensures PadStart2(IntToString(n)) == PadStart2(NatToDigits(n))
    ensures AllDigits(PadStart2(NatToDigits(n)))
    ensures ParseInt(PadStart2(NatToDigits(n))) == Some(n)
  {
    var d := NatToDigits(n);
    if |d| < 2 { assert PadStart2(d) == "0" + d; }
    ParsePadded(n, []);
    assert PadStart2(d) + [] == PadStart2(d);
  }

  /** A field of digits followed by `rest` starting with ':' is cut at that colon. */
  lemma {:induction false} FieldBeforeColon(t: string, rest: string)
    requires AllDigits(t)
    requires rest == [] || rest[0] == ':'
    ensures (t + rest)[..ColonIndex(t + rest)] == t
  {
    ColonIndexOfDigits(t, rest);
    assert (t + rest)[..|t|] == t;
  }

  /** Two digit fields joined by ':' are split at that colon. */
  lemma {:induction false} SplitAtColon(h: string, mm: string, rest: string)
    requires AllDigits(h) && AllDigits(mm)
    requires rest == [] || rest[0] == ':'
    ensures var s := h + ":" + mm + rest;
            ColonIndex(s) == |h| && s[..|h|] == h && s[|h| + 1..][..ColonIndex(s[|h| + 1..])] == mm
  {
    var tail := [':'] + (mm + rest);
    assert h + ":" + mm + rest == h + tail;
    ColonIndexOfDigits(h, tail);
    FieldBeforeColon(h, tail);
    assert (h + tail)[|h| + 1..] == mm + rest;
    FieldBeforeColon(mm, rest);
  }

  /** `ParseClock` of two digit fields joined by ':' combines the two fields. */
  lemma {:induction false} ParseClockFields(h: string, mm: string, rest: string)
    requires AllDigits(h) && AllDigits(mm)
    requires rest == [] || rest[0] == ':'
    ensures ParseClock(h + ":" + mm + rest) == CombineFields(ParseInt(h), ParseInt(mm))
  {
    SplitAtColon(h, mm, rest);
  }

  lemma {:induction false} FormatClockNat(m: nat)
    ensures FormatClock(m) == PadStart2(NatToDigits(m / 60)) + ":" + PadStart2(NatToDigits(m % 60))
  {
    var q, r := m / 60, m % 60;
    assert IntToString(q) == NatToDigits(q);
    assert JsRemainder(m, 60) == r;
    assert IntToString(r) == NatToDigits(r);
  }

  /**
   * Parsing a formatted non-negative time gives the minutes back, also with a
   * trailing `:SS` part as a database `time` column prints it.
   */
  lemma {:induction false} ClockRoundTrip(m: nat, rest: string)
    requires rest == [] || rest[0] == ':'
    ensures ParseClock(FormatClock(m) + rest) == Some(m)
  {
    var q, r := m / 60, m % 60;
    assert q * 60 + r == m;
    var text := PadStart2(NatToDigits(q)) + ":" + PadStart2(NatToDigits(r)) + rest;
    FormatClockNat(m);
    assert FormatClock(m) + rest == text;
    PaddedFieldsParse(q, r, rest);
    assert ParseClock(text) == Some(m);
  }

  /** Two padded fields joined by ':' parse as `q * 60 + r`. */
  lemma {:induction false} PaddedFieldsParse(q: nat, r: nat, rest: string)
    requires rest == [] || rest[0] == ':'
    ensures ParseClock(PadStart2(NatToDigits(q)) + ":" + PadStart2(NatToDigits(r)) + rest) == Some(q * 60 + r)
  {
    var h, mm := PadStart2(NatToDigits(q)), PadStart2(NatToDigits(r));
    PaddedField(q);
    PaddedField(r);
    assert CombineFields(ParseInt(h), ParseInt(mm)) == Some(q * 60 + r);
    ParseClockFields(h, mm, rest);
  }

  /** Different non-negative minute counts are written differently. */
  lemma {:induction false} FormatClockInjective(a: nat, b: nat)
    requires FormatClock(a) == FormatClock(b)
    ensures a == b
  {
    ClockRoundTrip(a, []);
    ClockRoundTrip(b, []);
    assert FormatClock(a) + [] == FormatClock(a);
    assert FormatClock(b) + [] == FormatClock(b);
  }

  /**
   * Collation weight of a character in `localeCompare`: in the default
   * collation punctuation sorts before digits, '-' before ':'; every other
   * character is ranked by its code point.
   */
  function CollationKey(c: char): int {
    if c == '-' then -2 else if c == ':' then -1 else c as int
  }

  /** `a.localeCompare(b) < 0`, character by character with `CollationKey`. */
  predicate CollatesBefore(a: string, b: string) {
    if a == [] then b != []
    else if b == [] then false
    else if CollationKey(a[0]) != CollationKey(b[0]) then CollationKey(a[0]) < CollationKey(b[0])
    else CollatesBefore(a[1..], b[1..])
  }

  lemma {:induction false} CollatesIrreflexive(a: string)
    ensures !CollatesBefore(a, a)
  {
    if a != [] { CollatesIrreflexive(a[1..]); }
  }

  lemma {:induction false} CollatesTransitive(a: string, b: string, c: string)
    requires CollatesBefore(a, b) && CollatesBefore(b, c)
    ensures CollatesBefore(a, c)
  {
    if a != [] && b != [] && c != []
       && CollationKey(a[0]) == CollationKey(b[0]) && CollationKey(b[0]) == CollationKey(c[0]) {
      CollatesTransitive(a[1..], b[1..], c[1..]);
    }
  }

  /** Two different strings are always ordered one way or the other. */
  lemma {:induction false} CollatesTotal(a: string, b: string)
    requires a != b
    ensures CollatesBefore(a, b) || CollatesBefore(b, a)
  {
    if a != [] && b != [] && CollationKey(a[0]) == CollationKey(b[0]) {
      assert a[0] == b[0];
      assert a == [a[0]] + a[1..] && b == [b[0]] + b[1..];
      CollatesTotal(a[1..], b[1..]);
    }
  }

  /** Comparing two strings with equally long heads is decided by the heads first. */
  lemma {:induction false} CollatesConcat(x: string, y: string, x': string, y': string)
    requires |x| == |x'|
    ensures CollatesBefore(x + y, x' + y') == if x == x' then CollatesBefore(y, y') else CollatesBefore(x, x')
  {
    if x == [] {
      assert x + y == y && x' + y' == y';
    } else {
      var a, b := x + y, x' + y';
      assert a[0] == x[0] && b[0] == x'[0];
      assert a[1..] == x[1..] + y;
      assert b[1..] == x'[1..] + y';
      if CollationKey(x[0]) == CollationKey(x'[0]) {
        assert CollatesBefore(a, b) == CollatesBefore(x[1..] + y, x'[1..] + y');
        CollatesConcat(x[1..], y, x'[1..], y');
        assert x[0] == x'[0];
        assert x == [x[0]] + x[1..] && x' == [x'[0]] + x'[1..];
        assert x == x' <==> x[1..] == x'[1..];
        assert CollatesBefore(x, x') == CollatesBefore(x[1..], x'[1..]);
      } else {
        assert x != x';
      }
    }
  }

  lemma {:induction false} DigitKey(d: nat)
    requires d < 10
    ensures CollationKey(DigitChar(d)) == '0' as int + d
  {
  }

  lemma {:induction false} TwoDigitOrder(p: nat, q: nat)
    requires p < 100 && q < 100
    ensures CollatesBefore(TwoDigitField(p), TwoDigitField(q)) <==> p < q
    ensures TwoDigitField(p) == TwoDigitField(q) <==> p == q
  {
    var a, b := TwoDigitField(p), TwoDigitField(q);
    DigitKey(p / 10); DigitKey(q / 10); DigitKey(p % 10); DigitKey(q % 10);
    assert a[1..] == [DigitChar(p % 10)] && b[1..] == [DigitChar(q % 10)];
    assert a[1..][1..] == [] && b[1..][1..] == [];
    assert CollatesBefore(a[1..], b[1..]) <==> p % 10 < q % 10;
    assert p == 10 * (p / 10) + p % 10 && q == 10 * (q / 10) + q % 10;
    assert p < q <==> p / 10 < q / 10 || (p / 10 == q / 10 && p % 10 < q % 10);
    assert a == b ==> p / 10 == q / 10 && p % 10 == q % 10;
  }

  /** `HH:MM` strings collate in the lexicographic order of (hours, minutes). */
  lemma {:induction false} ClockFieldsOrder(ha: nat, ma: nat, hb: nat, mb: nat)
    requires ha < 100 && ma < 100 && hb < 100 && mb < 100
    ensures CollatesBefore(TwoDigitField(ha) + ([':'] + TwoDigitField(ma)), TwoDigitField(hb) + ([':'] + TwoDigitField(mb)))
            <==> ha < hb || (ha == hb && ma < mb)
  {
    CollatesConcat(TwoDigitField(ha), [':'] + TwoDigitField(ma), TwoDigitField(hb), [':'] + TwoDigitField(mb));
    CollatesConcat([':'], TwoDigitField(ma), [':'], TwoDigitField(mb));
    TwoDigitOrder(ha, hb);
    TwoDigitOrder(ma, mb);
  }

  /**
   * For times whose hour has two digits, the order `localeCompare` puts the
   * formatted strings in is the numeric order of the minutes.
   */
  lemma {:induction false} ClockOrderIsNumeric(a: nat, b: nat)
    requires a < 6000 && b < 6000
    ensures CollatesBefore(FormatClock(a), FormatClock(b)) <==> a < b
  {
    FormatClockChars(a);
    FormatClockChars(b);
    ClockFieldsOrder(a / 60, a % 60, b / 60, b % 60);
    assert a == 60 * (a / 60) + a % 60 && b == 60 * (b / 60) + b % 60;
  }
}
