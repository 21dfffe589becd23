/**
 * `parseInt(text, 10)` as ECMAScript defines it: skip leading white space, take an
 * optional sign, then the longest run of decimal digits; with no digit the result is
 * NaN (here `None`). Whatever follows the digit run is ignored.
 */
module JsParseInt {
  import opened Types
  import opened JsString

  predicate IsDigit(c: char) {
    '0' <= c <= '9'
  }

  predicate AllDigits(s: string) {
    forall i :: 0 <= i < |s| ==> IsDigit(s[i])
  }

  function DigitValue(c: char): (d: nat)
    requires IsDigit(c)
    ensures d < 10
  {
    (c as int) - ('0' as int)
  }

  function DigitChar(d: nat): (c: char)
    requires d < 10
    ensures IsDigit(c) && DigitValue(c) == d
  {
    ('0' as int + d) as char
  }

  /** Length of the longest prefix of `s` made of decimal digits. */
  function DigitRun(s: string): (n: nat)
    ensures n <= |s|
    ensures forall i :: 0 <= i < n ==> IsDigit(s[i])
    ensures n < |s| ==> !IsDigit(s[n])
  {
    if |s| > 0 && IsDigit(s[0]) then 1 + DigitRun(s[1..]) else 0
  }

  /** Value of a decimal numeral, most significant digit first. */
  function NumeralValue(ds: string): nat
    requires AllDigits(ds)
  {
    if ds == [] then 0 else 10 * NumeralValue(ds[..|ds| - 1]) + DigitValue(ds[|ds| - 1])
  }

  /** The input after leading white space, with a leading '-' marking a negative number. */
  predicate Negative(text: string) {
    var s := TrimStart(text);
    |s| > 0 && s[0] == '-'
  }

  /** The input after leading white space and one optional sign character. */
  function Unsigned(text: string): string {
    var s := TrimStart(text);
    if |s| > 0 && (s[0] == '+' || s[0] == '-') then s[1..] else s
  }

  /** `parseInt(text, 10)`, with `None` standing for NaN. */
  function ParseInt(text: string): (r: Option<int>)
    ensures r.None? <==> DigitRun(Unsigned(text)) == 0
    ensures r.Some? && r.value < 0 ==> Negative(text)
  {
    SignedDigitRun(Unsigned(text), Negative(text))
  }

  /** The value of the digit run at the start of `body`, negated when `negative`. */
  function SignedDigitRun(body: string, negative: bool): (r: Option<int>)
    ensures r.None? <==> DigitRun(body) == 0
    ensures r.Some? && r.value < 0 ==> negative
  {
    var n := DigitRun(body);
    if n == 0 then None
    else
      var v: int := NumeralValue(body[..n]);
      Some(if negative then -v else v)
  }

  /** The decimal numeral of a natural number, without leading zeros. */
  function NatDecimal(n: nat): (s: string)
    decreases n
  {
    if n < 10 then [DigitChar(n)] else NatDecimal(n / 10) + [DigitChar(n % 10)]
  }

  /** The decimal numeral of an integer, with '-' in front of a negative one (`String(n)`). */
  function Decimal(n: int): string {
    if n < 0 then ['-'] + NatDecimal(-n) else NatDecimal(n)
  }

  lemma {:induction false} NatDecimalValue(n: nat)
    ensures |NatDecimal(n)| > 0 && AllDigits(NatDecimal(n))
    ensures NumeralValue(NatDecimal(n)) == n
    decreases n
  {
    if n >= 10 {
      NatDecimalValue(n / 10);
      var s := NatDecimal(n);
      assert s[..|s| - 1] == NatDecimal(n / 10);
    }
  }

  /** A run made only of digits is consumed whole, and stops at the first non-digit after it. */
  lemma {:induction false} DigitRunOfNumeral(ds: string, rest: string)
    requires AllDigits(ds)
    requires rest == [] || !IsDigit(rest[0])
    ensures DigitRun(ds + rest) == |ds|
  {
    if ds != [] {
      assert (ds + rest)[1..] == ds[1..] + rest;
      DigitRunOfNumeral(ds[1..], rest);
    }
  }

  /** A body that starts with digits yields their value, with the sign applied; the rest is ignored. */
  lemma SignedDigitRunOfNumeral(ds: string, rest: string, negative: bool)
    requires |ds| > 0 && AllDigits(ds)
    requires rest == [] || !IsDigit(rest[0])
    ensures SignedDigitRun(ds + rest, negative) == Some(if negative then -(NumeralValue(ds) as int) else NumeralValue(ds))
  {
    DigitRunOfNumeral(ds, rest);
    assert (ds + rest)[..|ds|] == ds;
    SignedDigitRunOfPrefix(ds + rest, ds, negative);
  }

  /** A body whose digit run is exactly `ds` yields the value of `ds`, with the sign applied. */
  lemma SignedDigitRunOfPrefix(body: string, ds: string, negative: bool)
    requires |ds| > 0 && AllDigits(ds)
    requires DigitRun(body) == |ds| && body[..|ds|] == ds
    ensures SignedDigitRun(body, negative) == Some(if negative then -(NumeralValue(ds) as int) else NumeralValue(ds))
  {
  }

  /** Digits followed by anything that does not start with a digit parse as those digits ("12.9" reads as 12). */
  lemma ParseIntStopsAtNonDigit(ds: string, rest: string)
    requires |ds| > 0 && AllDigits(ds)
    requires rest == [] || !IsDigit(rest[0])
    ensures ParseInt(ds + rest) == Some(NumeralValue(ds))
  {
    var s := ds + rest;
    assert s[0] == ds[0];
    ParseIntOfNonBlank(s);
    SignedDigitRunOfNumeral(ds, rest, false);
  }

  /** Text that starts with neither white space nor a sign: parseInt reads its digit run. */
  lemma ParseIntOfNonBlank(s: string)
    requires |s| > 0 && IsDigit(s[0])
    ensures ParseInt(s) == SignedDigitRun(s, false)
  {
    assert !IsWhiteSpace(s[0]);
    assert TrimStart(s) == s;
  }

  /** Text that starts with a sign: parseInt reads the digit run after it, negated after '-'. */
  lemma ParseIntOfSign(s: string)
    requires |s| > 0 && (s[0] == '+' || s[0] == '-')
    ensures ParseInt(s) == SignedDigitRun(s[1..], s[0] == '-')
  {
    assert !IsWhiteSpace(s[0]);
    assert TrimStart(s) == s;
  }

  /** A minus sign in front of digits negates their value; what follows the digits is ignored. */
  lemma ParseIntNegated(ds: string, rest: string)
    requires |ds| > 0 && AllDigits(ds)
    requires rest == [] || !IsDigit(rest[0])
    ensures ParseInt(['-'] + (ds + rest)) == Some(-(NumeralValue(ds) as int))
  {
    var s := ['-'] + (ds + rest);
    assert s[0] == '-' && s[1..] == ds + rest;
    ParseIntOfSign(s);
    SignedDigitRunOfNumeral(ds, rest, true);
  }

  /** Leading white space does not change what parseInt reads. */
  lemma {:induction false} ParseIntSkipsWhiteSpace(w: string, t: string)
    requires AllWhiteSpace(w)
    ensures ParseInt(w + t) == ParseInt(t)
  {
    TrimStartSkips(w, t);
    ParseIntAfterTrimStart(w + t, t);
  }

  /** parseInt looks only at what follows the leading white space. */
  lemma ParseIntAfterTrimStart(a: string, b: string)
    requires TrimStart(a) == TrimStart(b)
    ensures ParseInt(a) == ParseInt(b)
  {
    assert Unsigned(a) == Unsigned(b) && Negative(a) == Negative(b);
  }

  lemma {:induction false} TrimStartSkips(w: string, t: string)
    requires AllWhiteSpace(w)
    ensures TrimStart(w + t) == TrimStart(t)
  {
    if w != [] {
      assert (w + t)[0] == w[0];
      assert (w + t)[1..] == w[1..] + t;
      TrimStartSkips(w[1..], t);
    } else {
      assert w + t == t;
    }
  }

  /** The decimal numeral of any integer, followed by anything that does not start with a digit, reads back as that integer. */
  lemma ParseIntOfNumeral(n: int, rest: string)
    requires rest == [] || !IsDigit(rest[0])
    ensures ParseInt(Decimal(n) + rest) == Some(n)
  {
    if n < 0 {
      NatDecimalValue(-n);
      assert Decimal(n) + rest == ['-'] + (NatDecimal(-n) + rest);
      ParseIntNegated(NatDecimal(-n), rest);
    } else {
      NatDecimalValue(n);
      ParseIntStopsAtNonDigit(NatDecimal(n), rest);
    }
  }

  /**
   * The decimal numeral of any integer, after any white space and before anything
   * that does not start with a digit (a fraction, a unit), reads back as that integer.
   */
  lemma ParseIntOfDecimal(w: string, n: int, rest: string)
    requires AllWhiteSpace(w)
    requires rest == [] || !IsDigit(rest[0])
    ensures ParseInt(w + Decimal(n) + rest) == Some(n)
  {
    assert w + Decimal(n) + rest == w + (Decimal(n) + rest);
    ParseIntSkipsWhiteSpace(w, Decimal(n) + rest);
    ParseIntOfNumeral(n, rest);
  }

  /** The empty answer is NaN. */
  lemma ParseIntOfEmpty()
    ensures ParseInt("") == None
  {
  }

  /** After any white space, a character that is neither a digit nor a sign makes the answer NaN. */
  lemma ParseIntRejectsNonNumeric(w: string, c: char, rest: string)
    requires AllWhiteSpace(w)
    requires !IsDigit(c) && !IsWhiteSpace(c) && c != '+' && c != '-'
    ensures ParseInt(w + [c] + rest) == None
  {
    assert w + [c] + rest == w + ([c] + rest);
    ParseIntSkipsWhiteSpace(w, [c] + rest);
    var t := [c] + rest;
    assert t[0] == c;
    assert TrimStart(t) == t;
    assert Unsigned(t) == t;
  }

  /** A sign not directly followed by a digit makes the answer NaN ("-", "- 5" and "--5" are NaN). */
  lemma ParseIntRejectsBareSign(w: string, sign: char, rest: string)
    requires AllWhiteSpace(w)
    requires (sign == '+' || sign == '-') && (rest == [] || !IsDigit(rest[0]))
    ensures ParseInt(w + [sign] + rest) == None
  {
    assert w + [sign] + rest == w + ([sign] + rest);
    ParseIntSkipsWhiteSpace(w, [sign] + rest);
    SignThenNonDigit(sign, rest);
  }

  lemma SignThenNonDigit(sign: char, u: string)
    requires (sign == '+' || sign == '-') && (u == [] || !IsDigit(u[0]))
    ensures ParseInt([sign] + u) == None
  {
    var t := [sign] + u;
    assert t[0] == sign && t[1..] == u;
    ParseIntOfSign(t);
    assert DigitRun(u) == 0;
  }
}
