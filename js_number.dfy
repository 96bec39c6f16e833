/**
 * JavaScript's global `parseInt` (with no radix argument) and `parseFloat`,
 * as the decoder calls them on the text of a field.
 */
module JsNumber {
  import opened Wrappers

  /** The result of `parseInt`: `NaN` or an integer. */
  datatype JsInt = IntNaN | Int(value: int)

  /**
   * The result of `parseFloat`: `NaN`, or the longest prefix of the input
   * (after leading white space) that is a decimal literal; the number is the
   * double nearest to that literal.
   */
  datatype JsFloat = FloatNaN | Float(literal: string)

  /** The white space and line terminators that `parseInt` and `parseFloat` skip. */
  predicate IsWhiteSpace(c: char) {
    || c == '\t' || c == '\n' || c == '\U{000B}' || c == '\U{000C}' || c == '\r'
    || c == ' ' || c == '\U{00A0}' || c == '\U{1680}'
    || ('\U{2000}' <= c <= '\U{200A}')
    || c == '\U{2028}' || c == '\U{2029}' || c == '\U{202F}' || c == '\U{205F}'
    || c == '\U{3000}' || c == '\U{FEFF}'
  }

  predicate IsDigit(c: char) {
    '0' <= c <= '9'
  }

  /** A digit of base 10 or base 16, the only bases `parseInt` picks without a radix. */
  predicate IsRadixDigit(c: char, hex: bool) {
    IsDigit(c) || (hex && (('a' <= c <= 'f') || ('A' <= c <= 'F')))
  }

  function DigitValue(c: char): (d: nat)
    ensures IsDigit(c) ==> d == c as int - '0' as int
    ensures d < 16
  {
    if IsDigit(c) then c as int - '0' as int
    else if 'a' <= c <= 'f' then c as int - 'a' as int + 10
    else if 'A' <= c <= 'F' then c as int - 'A' as int + 10
    else 0
  }

  predicate AllDigits(s: string) {
    forall k :: 0 <= k < |s| ==> IsDigit(s[k])
  }

  /** `s` with its leading white space removed. */
  function TrimStart(s: string): (r: string)
    ensures |r| <= |s| && r == s[|s| - |r|..]
    ensures r == "" || !IsWhiteSpace(r[0])
    ensures forall k :: 0 <= k < |s| - |r| ==> IsWhiteSpace(s[k])
  {
    if s != "" && IsWhiteSpace(s[0]) then TrimStart(s[1..]) else s
  }

  /** The length of the longest prefix of `s` made of digits of the base. */
  function DigitRun(s: string, hex: bool): (n: nat)
    ensures n <= |s|
    ensures forall k :: 0 <= k < n ==> IsRadixDigit(s[k], hex)
    ensures n == |s| || !IsRadixDigit(s[n], hex)
  {
    if s != "" && IsRadixDigit(s[0], hex) then 1 + DigitRun(s[1..], hex) else 0
  }

  /** The value of a string of digits in base 10 or 16, most significant first. */
  function DigitsValue(ds: string, hex: bool): nat {
    if ds == [] then 0
    else DigitsValue(ds[..|ds| - 1], hex) * (if hex then 16 else 10) + DigitValue(ds[|ds| - 1])
  }

  /**
   * The unsigned part of `parseInt`: base 16 after a `0x` or `0X` prefix,
   * base 10 otherwise, then the value of the longest run of digits; `None`
   * when there are no digits.
   */
  function Magnitude(u: string): Option<nat> {
    var hex := |u| >= 2 && u[0] == '0' && (u[1] == 'x' || u[1] == 'X');
    var body := if hex then u[2..] else u;
    var n := DigitRun(body, hex);
    if n == 0 then None else Some(DigitsValue(body[..n], hex))
  }

  /** `parseInt(s)`: skip white space, take an optional sign, then read the magnitude; no digits is `NaN`. */
  function ParseInt(s: string): JsInt {
    var t := TrimStart(s);
    var signed := t != "" && (t[0] == '-' || t[0] == '+');
    match Magnitude(if signed then t[1..] else t)
    case None => IntNaN
    case Some(m) => Int(if signed && t[0] == '-' then -(m as int) else m)
  }

  /** The decimal digits of `n`, without leading zeros. */
  function NatToDecimal(n: nat): (r: string)
    ensures r != "" && AllDigits(r)
    ensures |r| > 1 ==> r[0] != '0'
  {
    if n < 10 then ['0' + n as char]
    else NatToDecimal(n / 10) + ['0' + (n % 10) as char]
  }

  /** Leading zeros do not change the value of a digit string. */
  lemma {:induction false} LeadingZeros(n: nat, ds: string, hex: bool)
    ensures DigitsValue(seq(n, _ => '0') + ds, hex) == DigitsValue(ds, hex)
    decreases |ds|, n
  {
    var s := seq(n, _ => '0') + ds;
    if ds == [] {
      assert s == seq(n, _ => '0');
      if n > 0 {
        assert s[..|s| - 1] == seq(n - 1, _ => '0');
        LeadingZeros(n - 1, [], hex);
        assert seq(n - 1, _ => '0') + [] == seq(n - 1, _ => '0');
      }
    } else {
      assert s[..|s| - 1] == seq(n, _ => '0') + ds[..|ds| - 1];
      LeadingZeros(n, ds[..|ds| - 1], hex);
    }
  }

  /** Reading the digits of `n` back gives `n`. */
  lemma {:induction false} DecimalRoundTrip(n: nat)
    ensures DigitsValue(NatToDecimal(n), false) == n
  {
    var r := NatToDecimal(n);
    if n >= 10 {
      DecimalRoundTrip(n / 10);
      assert r[..|r| - 1] == NatToDecimal(n / 10);
    }
  }

  /** On a string of decimal digits the run of digits is the whole string. */
  lemma DigitRunOfDigits(ds: string, rest: string)
    requires AllDigits(ds)
    requires rest == "" || !IsDigit(rest[0])
    ensures DigitRun(ds + rest, false) == |ds|
    decreases |ds|
  {
    if ds != "" {
      assert (ds + rest)[1..] == ds[1..] + rest;
      DigitRunOfDigits(ds[1..], rest);
    } else {
      assert ds + rest == rest;
    }
  }

  /** The magnitude of a run of decimal digits that cannot be read as a `0x` prefix. */
  lemma MagnitudeOfDigits(ds: string, rest: string)
    requires ds != "" && AllDigits(ds)
    requires rest == "" || !IsDigit(rest[0])
    requires |ds| == 1 && ds[0] == '0' ==> rest == "" || (rest[0] != 'x' && rest[0] != 'X')
    ensures Magnitude(ds + rest) == Some(DigitsValue(ds, false))
  {
    var u := ds + rest;
    DigitRunOfDigits(ds, rest);
    if |ds| >= 2 {
      assert u[1] == ds[1];
    } else if rest != "" {
      assert u[1] == rest[0];
    }
    assert u[..|ds|] == ds;
  }

  /**
   * `parseInt` reads a run of decimal digits, leading zeros included, and
   * stops at the first character that is not a digit; only a lone `0`
   * followed by `x` or `X` would switch to base 16.
   */
  lemma ParseIntDigits(ds: string, rest: string)
    requires ds != "" && AllDigits(ds)
    requires rest == "" || !IsDigit(rest[0])
    requires |ds| == 1 && ds[0] == '0' ==> rest == "" || (rest[0] != 'x' && rest[0] != 'X')
    ensures ParseInt(ds + rest) == Int(DigitsValue(ds, false))
  {
    assert (ds + rest)[0] == ds[0];
    ParseIntUnsigned(ds + rest);
    MagnitudeOfDigits(ds, rest);
  }

  /** Text that starts with a digit is read without white space or sign. */
  lemma ParseIntUnsigned(s: string)
    requires s != "" && IsDigit(s[0])
    ensures ParseInt(s) == match Magnitude(s) case None => IntNaN case Some(m) => Int(m)
  {
    TrimDigit(s);
  }

  /** A minus sign in front of the unsigned text negates what it reads; no digits stays `NaN`. */
  lemma ParseIntMinus(u: string)
    ensures ParseInt("-" + u) == match Magnitude(u) case None => IntNaN case Some(m) => Int(-(m as int))
  {
    var s := "-" + u;
    assert s[0] == '-' && !IsWhiteSpace(s[0]);
    assert TrimStart(s) == s;
    assert s[1..] == u;
  }

  /** `parseInt` gives back the number whose decimal digits it reads. */
  lemma ParseIntOfDecimal(n: nat)
    ensures ParseInt(NatToDecimal(n)) == Int(n)
  {
    var r := NatToDecimal(n);
    assert r + "" == r;
    ParseIntDigits(r, "");
    DecimalRoundTrip(n);
  }

  /** Text that starts with neither white space, a sign nor a digit is `NaN`. */
  lemma ParseIntNoDigit(s: string)
    requires s == "" || (!IsWhiteSpace(s[0]) && !IsDigit(s[0]) && s[0] != '+' && s[0] != '-')
    ensures ParseInt(s) == IntNaN
  {
  }

  /** The length of the exponent part `e[+-]digits` at the start of `s`, or 0 if there is none. */
  function ExponentLength(s: string): (n: nat)
    ensures n <= |s|
    ensures n > 0 ==> s[0] == 'e' || s[0] == 'E'
  {
    if s != "" && (s[0] == 'e' || s[0] == 'E') then
      var signed := |s| >= 2 && (s[1] == '+' || s[1] == '-');
      var start := if signed then 2 else 1;
      var d := DigitRun(s[start..], false);
      if d == 0 then 0 else start + d
    else 0
  }

  /**
   * The length of the longest prefix of `u` that is an unsigned decimal
   * literal: `Infinity`, or digits with an optional fraction and exponent,
   * or a fraction `.digits` with an optional exponent; 0 if none.
   */
  function UnsignedLiteralLength(u: string): (n: nat)
    ensures n <= |u|
  {
    if |u| >= 8 && u[..8] == "Infinity" then 8
    else
      var m := MantissaLength(u);
      if m == 0 then 0 else m + ExponentLength(u[m..])
  }

  /** The length of the digits-and-fraction part of a decimal literal at the start of `u`, or 0. */
  function MantissaLength(u: string): (n: nat)
    ensures n <= |u|
  {
    var a := DigitRun(u, false);
    if a < |u| && u[a] == '.' then
      var b := DigitRun(u[a + 1..], false);
      if a == 0 && b == 0 then 0 else a + 1 + b
    else a
  }

  /** The length of the longest prefix of `t` that is a signed decimal literal, or 0. */
  function LiteralLength(t: string): (n: nat)
    ensures n <= |t|
  {
    if t != "" && (t[0] == '+' || t[0] == '-') then
      var m := UnsignedLiteralLength(t[1..]);
      if m == 0 then 0 else 1 + m
    else UnsignedLiteralLength(t)
  }

  /** `parseFloat(s)`: the longest decimal literal after the leading white space, or `NaN`. */
  function ParseFloat(s: string): JsFloat {
    var t := TrimStart(s);
    var n := LiteralLength(t);
    if n == 0 then FloatNaN else Float(t[..n])
  }

  /**
   * What `parseFloat` keeps is a non-empty piece of the input that starts
   * where the leading white space ends (`TrimStart` drops only white space).
   */
  lemma ParseFloatPrefix(s: string)
    ensures ParseFloat(s).Float? ==>
      var lit := ParseFloat(s).literal;
      lit != "" && |lit| <= |TrimStart(s)| && lit == TrimStart(s)[..|lit|]
  {
  }

  /** No white space is trimmed from text that starts with a digit. */
  lemma TrimDigit(s: string)
    requires s != "" && IsDigit(s[0])
    ensures TrimStart(s) == s
  {
    assert !IsWhiteSpace(s[0]);
  }

  /** No literal starting with a digit or `.` is read as `Infinity`. */
  lemma NotInfinity(u: string)
    requires u != "" && u[0] != 'I'
    ensures !(|u| >= 8 && u[..8] == "Infinity")
  {
    if |u| >= 8 {
      assert u[..8][0] == u[0];
    }
  }

  /** The mantissa of `digits.digits` is the text up to `rest`. */
  lemma MantissaOfDecimal(whole: string, fraction: string, rest: string)
    requires whole != "" && AllDigits(whole) && AllDigits(fraction)
    requires rest == "" || !IsDigit(rest[0])
    ensures MantissaLength(whole + ("." + (fraction + rest))) == |whole| + 1 + |fraction|
  {
    var tail := "." + (fraction + rest);
    var u := whole + tail;
    DigitRunOfDigits(whole, tail);
    assert u[|whole|] == '.';
    assert u[|whole| + 1..] == fraction + rest;
    DigitRunOfDigits(fraction, rest);
  }

  /** The unsigned literal of `digits.digits` followed by no exponent is the text up to `rest`. */
  lemma UnsignedOfDecimal(whole: string, fraction: string, rest: string)
    requires whole != "" && AllDigits(whole) && AllDigits(fraction)
    requires rest == "" || (!IsDigit(rest[0]) && rest[0] != 'e' && rest[0] != 'E')
    ensures UnsignedLiteralLength(whole + "." + fraction + rest) == |whole| + 1 + |fraction|
  {
    var u := whole + "." + fraction + rest;
    assert u == whole + ("." + (fraction + rest));
    assert u[0] == whole[0];
    NotInfinity(u);
    MantissaOfDecimal(whole, fraction, rest);
    assert u[|whole| + 1 + |fraction|..] == rest;
    assert ExponentLength(rest) == 0;
  }

  /**
   * `parseFloat` reads a decimal number `digits.digits` written out in
   * full, and stops at the first character that cannot continue it.
   */
  lemma ParseFloatDecimal(whole: string, fraction: string, rest: string)
    requires whole != "" && AllDigits(whole) && AllDigits(fraction)
    requires rest == "" || (!IsDigit(rest[0]) && rest[0] != 'e' && rest[0] != 'E')
    ensures ParseFloat(whole + "." + fraction + rest) == Float(whole + "." + fraction)
  {
    var s := whole + "." + fraction + rest;
    assert s[0] == whole[0];
    TrimDigit(s);
    UnsignedOfDecimal(whole, fraction, rest);
    assert s[..|whole| + 1 + |fraction|] == whole + "." + fraction;
  }

  /** `parseFloat` reads a whole number of decimal digits with nothing after it that continues a literal. */
  lemma ParseFloatWhole(whole: string, rest: string)
    requires whole != "" && AllDigits(whole)
    requires rest == "" || (!IsDigit(rest[0]) && rest[0] != '.' && rest[0] != 'e' && rest[0] != 'E')
    ensures ParseFloat(whole + rest) == Float(whole)
  {
    var s := whole + rest;
    assert s[0] == whole[0];
    TrimDigit(s);
    DigitRunOfDigits(whole, rest);
    assert s[|whole|..] == rest;
    NotInfinity(s);
    assert s[..|whole|] == whole;
  }

  /** Text that starts with neither white space, a sign, a digit, `.` nor `I` is `NaN`. */
  lemma ParseFloatNoDigit(s: string)
    requires s == "" || (!IsWhiteSpace(s[0]) && !IsDigit(s[0]) && s[0] !in "+-.I")
    ensures ParseFloat(s) == FloatNaN
  {
  }
}
