/**
 * `_parseTimestamp` in lib/parsePacket.js: a `YYMMDDhhmmss` timestamp,
 * optionally followed by a DST flag, read field by field at fixed
 * positions.
 */
module Timestamp {
  import opened Wrappers
  import opened JsString
  import opened JsNumber

  /**
   * The exceptions the decoder can throw: `TypeError` when the hourly
   * reading had no timestamp and `null.substring` is called, and
   * `RangeError` when `toISOString` meets an invalid date.
   */
  datatype DecodeError = NullTimestamp | InvalidTimeValue

  /**
   * The calendar fields set on the `Date`, before any rollover: the full
   * year, the month counted from 0, the day, hour, minute, second and
   * millisecond.
   */
  datatype DateFields = DateFields(year: int, monthIndex: int, day: int, hour: int, minute: int, second: int, millisecond: int)

  /** `parseInt(timestamp.substring(2 * k, 2 * k + 2))`, the `k`-th two-character field. */
  function TimeField(s: string, k: nat): JsInt {
    ParseInt(Substring(s, 2 * k, 2 * k + 2))
  }

  /**
   * `_parseTimestamp(s)`: year `2000 + YY`, month index `MM - 1`, then day,
   * hour, minute and second, milliseconds 0. A field that is `NaN` makes the
   * date invalid, and `toISOString` then throws.
   */
  function ParseTimestamp(s: string): Result<DateFields, DecodeError> {
    SetFields(TimeField(s, 0), TimeField(s, 1), TimeField(s, 2), TimeField(s, 3), TimeField(s, 4), TimeField(s, 5))
  }

  /** The setter calls of `_parseTimestamp` on the six parsed fields, then `toISOString`. */
  function SetFields(yy: JsInt, mm: JsInt, dd: JsInt, hh: JsInt, mi: JsInt, ss: JsInt): Result<DateFields, DecodeError> {
    if yy.Int? && mm.Int? && dd.Int? && hh.Int? && mi.Int? && ss.Int? then
      Success(DateFields(2000 + yy.value, mm.value - 1, dd.value, hh.value, mi.value, ss.value, 0))
    else Failure(InvalidTimeValue)
  }

  /** The decimal digit for a number below 10. */
  function DigitChar(d: nat): (c: char)
    requires d < 10
    ensures IsDigit(c) && DigitValue(c) == d
  {
    '0' + d as char
  }

  /** A number below 100 written with two decimal digits, as in `21` or `07`. */
  function TwoDigits(n: nat): (r: string)
    requires n < 100
    ensures |r| == 2 && AllDigits(r)
  {
    [DigitChar(n / 10), DigitChar(n % 10)]
  }

  /** The value of two decimal digits. */
  lemma DigitsValueOfTwo(a: char, b: char)
    ensures DigitsValue([a, b], false) == DigitValue(a) * 10 + DigitValue(b)
  {
    var s := [a, b];
    assert s[..|s| - 1] == [a] && s[|s| - 1] == b;
    assert [a][..0] == [];
    assert DigitsValue([a], false) == DigitValue(a);
  }

  lemma ParseTwoDigits(n: nat)
    requires n < 100
    ensures ParseInt(TwoDigits(n)) == Int(n)
  {
    var r := TwoDigits(n);
    assert r + "" == r;
    ParseIntDigits(r, "");
    DigitsValueOfTwo(DigitChar(n / 10), DigitChar(n % 10));
    assert DigitsValue(r, false) == (n / 10) * 10 + n % 10 == n;
  }

  /** Numbers below 100, each written with two digits, one after the other. */
  function DigitPairs(xs: seq<nat>): (r: string)
    requires forall i :: 0 <= i < |xs| ==> xs[i] < 100
    ensures |r| == 2 * |xs|
  {
    if xs == [] then "" else TwoDigits(xs[0]) + DigitPairs(xs[1..])
  }

  /** The text a meter sends for a time stamp: six two-digit fields and a flag. */
  function FormatTimestamp(yy: nat, mm: nat, dd: nat, hh: nat, mi: nat, ss: nat, flag: string): string
    requires yy < 100 && mm < 100 && dd < 100 && hh < 100 && mi < 100 && ss < 100
  {
    DigitPairs([yy, mm, dd, hh, mi, ss]) + flag
  }

  /** Two characters in front shift every field by one. */
  lemma TimeFieldShift(d: string, s: string, k: nat)
    requires |d| == 2
    ensures TimeField(d + s, k + 1) == TimeField(s, k)
  {
    assert Substring(d + s, 2 * (k + 1), 2 * (k + 1) + 2) == Substring(s, 2 * k, 2 * k + 2);
  }

  /** The first field is the first two characters. */
  lemma TimeFieldFirst(d: string, s: string)
    requires |d| == 2
    ensures TimeField(d + s, 0) == ParseInt(d)
  {
    assert Substring(d + s, 0, 2) == d;
  }

  /** When all six fields are numbers, the date is made of them. */
  lemma ParseTimestampOfFields(s: string, yy: int, mm: int, dd: int, hh: int, mi: int, ss: int)
    requires TimeField(s, 0) == Int(yy) && TimeField(s, 1) == Int(mm) && TimeField(s, 2) == Int(dd)
    requires TimeField(s, 3) == Int(hh) && TimeField(s, 4) == Int(mi) && TimeField(s, 5) == Int(ss)
    ensures ParseTimestamp(s) == Success(DateFields(2000 + yy, mm - 1, dd, hh, mi, ss, 0))
  {
    SetFieldsOfNumbers(TimeField(s, 0), TimeField(s, 1), TimeField(s, 2), TimeField(s, 3), TimeField(s, 4), TimeField(s, 5),
                       yy, mm, dd, hh, mi, ss);
  }

  lemma SetFieldsOfNumbers(a: JsInt, b: JsInt, c: JsInt, d: JsInt, e: JsInt, f: JsInt,
                           yy: int, mm: int, dd: int, hh: int, mi: int, ss: int)
    requires a == Int(yy) && b == Int(mm) && c == Int(dd) && d == Int(hh) && e == Int(mi) && f == Int(ss)
    ensures SetFields(a, b, c, d, e, f) == Success(DateFields(2000 + yy, mm - 1, dd, hh, mi, ss, 0))
  {
  }

  /** Field `k` of a run of two-digit numbers is the `k`-th number, whatever follows the run. */
  lemma {:induction false} DigitPairField(xs: seq<nat>, rest: string, k: nat)
    requires forall i :: 0 <= i < |xs| ==> xs[i] < 100
    requires k < |xs|
    ensures TimeField(DigitPairs(xs) + rest, k) == Int(xs[k])
  {
    var d := TwoDigits(xs[0]);
    var tail := DigitPairs(xs[1..]) + rest;
    assert DigitPairs(xs) + rest == d + tail;
    if k == 0 {
      TimeFieldFirst(d, tail);
      ParseTwoDigits(xs[0]);
    } else {
      DigitPairField(xs[1..], rest, k - 1);
      TimeFieldShift(d, tail, k - 1);
    }
  }

  /**
   * Reading a formatted time stamp gives back its fields: year `2000 + YY`,
   * month index `MM - 1`, the other four as written, milliseconds 0; the
   * flag after the twelve digits, DST or not, is ignored.
   */
  lemma TimestampRoundTrip(yy: nat, mm: nat, dd: nat, hh: nat, mi: nat, ss: nat, flag: string)
    requires yy < 100 && mm < 100 && dd < 100 && hh < 100 && mi < 100 && ss < 100
    ensures ParseTimestamp(FormatTimestamp(yy, mm, dd, hh, mi, ss, flag))
         == Success(DateFields(2000 + yy, mm - 1, dd, hh, mi, ss, 0))
  {
    var xs := [yy, mm, dd, hh, mi, ss];
    DigitPairField(xs, flag, 0);
    DigitPairField(xs, flag, 1);
    DigitPairField(xs, flag, 2);
    DigitPairField(xs, flag, 3);
    DigitPairField(xs, flag, 4);
    DigitPairField(xs, flag, 5);
    ParseTimestampOfFields(DigitPairs(xs) + flag, yy, mm, dd, hh, mi, ss);
  }

  lemma TimeFieldOfPrefix(s: string, k: nat)
    requires |s| >= 12 && k < 6
    ensures TimeField(s, k) == TimeField(s[..12], k)
  {
    assert s[2 * k..2 * k + 2] == s[..12][2 * k..2 * k + 2];
  }

  /** Only the first twelve characters are read. */
  lemma TimestampUsesTwelveCharacters(s: string, t: string)
    requires |s| >= 12 && |t| >= 12 && s[..12] == t[..12]
    ensures ParseTimestamp(s) == ParseTimestamp(t)
  {
    TimeFieldOfPrefix(s, 0);
    TimeFieldOfPrefix(s, 1);
    TimeFieldOfPrefix(s, 2);
    TimeFieldOfPrefix(s, 3);
    TimeFieldOfPrefix(s, 4);
    TimeFieldOfPrefix(s, 5);
    TimeFieldOfPrefix(t, 0);
    TimeFieldOfPrefix(t, 1);
    TimeFieldOfPrefix(t, 2);
    TimeFieldOfPrefix(t, 3);
    TimeFieldOfPrefix(t, 4);
    TimeFieldOfPrefix(t, 5);
  }

  /** Ten characters or fewer leave the seconds field empty, so the date is invalid and the call throws. */
  lemma ShortTimestampThrows(s: string)
    requires |s| <= 10
    ensures ParseTimestamp(s) == Failure(InvalidTimeValue)
  {
    assert Substring(s, 10, 12) == "";
    assert TimeField(s, 5) == IntNaN;
  }

  /** The time stamp `210101120000W` is 1 January 2021, 12:00:00.000. */
  lemma ExampleTimestamp()
    ensures ParseTimestamp("210101120000W") == Success(DateFields(2021, 0, 1, 12, 0, 0, 0))
  {
    assert FormatTimestamp(21, 1, 1, 12, 0, 0, "W") == "210101120000W";
    TimestampRoundTrip(21, 1, 1, 12, 0, 0, "W");
  }
}
