/**
 * `_parseHourlyReading` in lib/parsePacket.js: the value of an M-Bus
 * hourly reading line, `timestamp)(value*unit`.
 */
module HourlyReading {
  import opened Wrappers
  import opened JsString

  /** The separator between the time stamp and the reading. */
  const Separator: string := ")("

  /**
   * The three fields of the result; `None` is `null` for a field the
   * decoder never set and `undefined` for a unit that is missing.
   */
  datatype Reading = Reading(timestamp: Option<string>, value: Option<string>, unit: Option<string>)

  /** The result when the value does not have two non-empty pieces. */
  const Unset: Reading := Reading(None, None, None)

  /** Both of the first two `)(`-pieces of the value are non-empty. */
  predicate HasTwoPieces(reading: string) {
    var split := Split(reading, Separator);
    Truthy(split, 0) && Truthy(split, 1)
  }

  /**
   * The fields are set only when the first two pieces are non-empty: the
   * first piece is the time stamp, the second piece up to its first `*` is
   * the value, and the text between its first and second `*` is the unit.
   */
  function ParseHourlyReading(reading: string): Reading {
    var split := Split(reading, Separator);
    if Truthy(split, 0) && Truthy(split, 1) then
      var parts := Split(split[1], "*");
      Reading(Some(split[0]), Some(parts[0]), At(parts, 1))
    else Unset
  }

  /**
   * The fields are set together or not at all, and they are set exactly
   * when the value has two non-empty pieces; then the time stamp is the
   * text before the first `)(`, and neither it nor the value nor the unit
   * holds a `*` or `)(` that would have split it further.
   */
  lemma HourlyReadingFields(reading: string)
    ensures ParseHourlyReading(reading).timestamp.Some? <==> HasTwoPieces(reading)
    ensures ParseHourlyReading(reading).timestamp.None? <==> ParseHourlyReading(reading) == Unset
    ensures ParseHourlyReading(reading).timestamp.Some? ==>
      && ParseHourlyReading(reading).value.Some?
      && Contains(reading, Separator)
      && ParseHourlyReading(reading).timestamp.value == reading[..IndexOf(reading, Separator)]
      && ParseHourlyReading(reading).timestamp.value != ""
      && !Contains(ParseHourlyReading(reading).value.value, "*")
      && !Contains(ParseHourlyReading(reading).value.value, Separator)
      && (ParseHourlyReading(reading).unit.Some? ==> !Contains(ParseHourlyReading(reading).unit.value, "*"))
  {
    var split := Split(reading, Separator);
    if Truthy(split, 0) && Truthy(split, 1) {
      var parts := Split(split[1], "*");
      SplitPiecesFree(split[1], "*");
      SplitPiecesFree(split[1], "*");
      SplitPiecesFree(reading, Separator);
      assert !Contains(split[1], Separator);
      assert Contains(reading, Separator) by {
        if !Contains(reading, Separator) {
          SplitNone(reading, Separator);
          assert false;
        }
      }
      assert !Contains(parts[0], Separator) by {
        PieceKeepsAbsence(split[1], "*", Separator);
      }
    }
  }

  /** A piece of a split has no occurrence of a pattern the whole lacks. */
  lemma PieceKeepsAbsence(s: string, sep: string, pat: string)
    requires |sep| > 0 && !Contains(s, pat)
    ensures !Contains(Split(s, sep)[0], pat)
  {
    var piece := Split(s, sep)[0];
    if Contains(s, sep) {
      var i := IndexOf(s, sep);
      assert piece == s[..i];
      forall j | 0 <= j && j + |pat| <= i
        ensures !OccursAt(s, pat, j)
      {
      }
      PrefixBeforeFirst(s, pat, i);
    } else {
      SplitNone(s, sep);
    }
  }

  /** `timestamp)(value*unit` decodes to its three parts. */
  lemma HourlyReadingRoundTrip(timestamp: string, value: string, unit: string)
    requires timestamp != "" && ')' !in timestamp
    requires '*' !in value && ')' !in value
    requires '*' !in unit && ')' !in unit
    ensures ParseHourlyReading(timestamp + Separator + (value + "*" + unit))
         == Reading(Some(timestamp), Some(value), Some(unit))
  {
    var body := value + "*" + unit;
    FirstAfterStart(timestamp, Separator, body);
    SplitAt(timestamp, Separator, body);
    assert ')' !in body;
    MissingCharNotContained(body, Separator, ')');
    SplitNone(body, Separator);
    assert Join([value, unit], "*") == body;
    SplitJoinChar([value, unit], '*');
  }

  /** `timestamp)(value` without a `*` decodes to a value with no unit. */
  lemma HourlyReadingWithoutUnit(timestamp: string, value: string)
    requires timestamp != "" && ')' !in timestamp
    requires value != "" && '*' !in value && ')' !in value
    ensures ParseHourlyReading(timestamp + Separator + value)
         == Reading(Some(timestamp), Some(value), None)
  {
    FirstAfterStart(timestamp, Separator, value);
    SplitAt(timestamp, Separator, value);
    MissingCharNotContained(value, Separator, ')');
    SplitNone(value, Separator);
    CharNotContained(value, '*');
    SplitNone(value, "*");
  }

  /** Without the separator nothing is set. */
  lemma HourlyReadingWithoutSeparator(reading: string)
    requires !Contains(reading, Separator)
    ensures ParseHourlyReading(reading) == Unset
  {
    SplitNone(reading, Separator);
  }

  /** A value that starts with the separator has an empty first piece, so nothing is set. */
  lemma HourlyReadingWithoutTimestamp(rest: string)
    ensures ParseHourlyReading(Separator + rest) == Unset
  {
    FirstAfterStart("", Separator, rest);
    assert "" + Separator + rest == Separator + rest;
    SplitAt("", Separator, rest);
  }

  /**
   * The unit is the text between the first and the second `*` of the
   * second piece; what follows the second `*` is dropped.
   */
  lemma HourlyUnitStopsAtSecondStar(timestamp: string, value: string, unit: string, more: string)
    requires timestamp != "" && ')' !in timestamp
    requires '*' !in value && ')' !in value
    requires '*' !in unit && ')' !in unit
    requires ')' !in more
    ensures ParseHourlyReading(timestamp + Separator + (value + "*" + unit + "*" + more))
         == Reading(Some(timestamp), Some(value), Some(unit))
  {
    var body := value + "*" + unit + "*" + more;
    assert ')' !in body;
    TwoPieces(timestamp, body);
    SplitTwoStars(value, unit, more);
    var parts := Split(body, "*");
    assert parts[0] == value && At(parts, 1) == Some(unit);
  }

  /** A time stamp and a body, neither holding `)`, split back into those two pieces. */
  lemma TwoPieces(timestamp: string, body: string)
    requires timestamp != "" && ')' !in timestamp
    requires ')' !in body
    ensures Split(timestamp + Separator + body, Separator) == [timestamp, body]
  {
    FirstAfterStart(timestamp, Separator, body);
    SplitAt(timestamp, Separator, body);
    MissingCharNotContained(body, Separator, ')');
    SplitNone(body, Separator);
  }

  /** Only the first two `)(`-pieces are read: a third piece and those after it are ignored. */
  lemma HourlyIgnoresLaterPieces(timestamp: string, body: string, rest: string)
    requires timestamp != "" && ')' !in timestamp
    requires body != "" && ')' !in body
    ensures ParseHourlyReading(timestamp + Separator + (body + Separator + rest))
         == ParseHourlyReading(timestamp + Separator + body)
  {
    var long := body + Separator + rest;
    FirstAfterStart(timestamp, Separator, long);
    SplitAt(timestamp, Separator, long);
    FirstAfterStart(body, Separator, rest);
    SplitAt(body, Separator, rest);
    FirstAfterStart(timestamp, Separator, body);
    SplitAt(timestamp, Separator, body);
    MissingCharNotContained(body, Separator, ')');
    SplitNone(body, Separator);
    SameFirstPieces(timestamp + Separator + long, timestamp + Separator + body);
  }

  /** Two values whose first two `)(`-pieces agree read the same. */
  lemma SameFirstPieces(r1: string, r2: string)
    requires |Split(r1, Separator)| >= 2 && |Split(r2, Separator)| >= 2
    requires Split(r1, Separator)[0] == Split(r2, Separator)[0]
    requires Split(r1, Separator)[1] == Split(r2, Separator)[1]
    ensures ParseHourlyReading(r1) == ParseHourlyReading(r2)
  {
  }
}
