/**
 * The calendar arithmetic behind the `Date` setters that `_parseTimestamp`
 * in lib/parsePacket.js calls on `new Date()`: a day of the month past the
 * end of its month rolls over into the next month, as the `MakeDay` step of
 * ECMAScript's `Date` does. Only the year, month and day are modelled; the
 * day the object starts from ("today") is a parameter.
 */
module Calendar {
  import opened Wrappers
  import opened Timestamp

  /** A day: the full year, the month counted from 0 and the day of the month. */
  datatype Day = Day(year: int, monthIndex: int, day: int)

  predicate IsLeapYear(year: int) {
    (year % 4 == 0 && year % 100 != 0) || year % 400 == 0
  }

  /** January, March, May, July, August, October and December. */
  predicate HasThirtyOneDays(monthIndex: int) {
    monthIndex == 0 || monthIndex == 2 || monthIndex == 4 || monthIndex == 6 ||
    monthIndex == 7 || monthIndex == 9 || monthIndex == 11
  }

  function DaysInMonth(year: int, monthIndex: int): (n: int)
    requires 0 <= monthIndex < 12
    ensures 28 <= n <= 31
    ensures HasThirtyOneDays(monthIndex) ==> n == 31
  {
    if monthIndex == 1 then (if IsLeapYear(year) then 29 else 28)
    else if monthIndex == 3 || monthIndex == 5 || monthIndex == 8 || monthIndex == 10 then 30
    else 31
  }

  /** A day that exists in the calendar. */
  predicate Valid(d: Day) {
    0 <= d.monthIndex < 12 && 1 <= d.day <= DaysInMonth(d.year, d.monthIndex)
  }

  /**
   * Day `day` of the month: that day when the month is long enough,
   * otherwise the day it rolls over to in the next month. A month shorter
   * than 31 days is followed by one of 31, so one step always lands.
   */
  function Roll(year: int, monthIndex: int, day: int): (r: Day)
    requires 0 <= monthIndex < 12 && 1 <= day <= 31
    ensures Valid(r)
    ensures day <= DaysInMonth(year, monthIndex) <==> r == Day(year, monthIndex, day)
    ensures day > DaysInMonth(year, monthIndex) ==> r.year == year && r.monthIndex == monthIndex + 1
  {
    if day <= DaysInMonth(year, monthIndex) then Day(year, monthIndex, day)
    else Day(year, monthIndex + 1, day - DaysInMonth(year, monthIndex))
  }

  /** `date.setFullYear(year)`: the month and the day are kept, and 29 February can roll over. */
  function SetFullYear(d: Day, year: int): (r: Day)
    requires Valid(d)
    ensures Valid(r) && r.year == year
  {
    Roll(year, d.monthIndex, d.day)
  }

  /** `date.setMonth(monthIndex)`: the day is kept, and rolls over when the month is too short for it. */
  function SetMonth(d: Day, monthIndex: int): (r: Day)
    requires Valid(d) && 0 <= monthIndex < 12
    ensures Valid(r) && r.year == d.year
  {
    Roll(d.year, monthIndex, d.day)
  }

  /** `date.setDate(day)`: the year and the month are kept. */
  function SetDate(d: Day, day: int): (r: Day)
    requires Valid(d) && 1 <= day <= 31
    ensures Valid(r)
  {
    Roll(d.year, d.monthIndex, day)
  }

  /** The calls of lines 247-249 in their order, starting from `today`. */
  function SetDayAsWritten(today: Day, target: Day): Day
    requires Valid(today) && Valid(target)
  {
    SetDate(SetMonth(SetFullYear(today, target.year), target.monthIndex), target.day)
  }

  /**
   * When today's day of the month does not exist in the target month, the
   * month rolls over before the day is set, and the result is a month late.
   */
  lemma AsWrittenMissesTarget(today: Day, target: Day)
    requires Valid(today) && Valid(target)
    requires today.day <= DaysInMonth(target.year, today.monthIndex)
    requires today.day > DaysInMonth(target.year, target.monthIndex)
    ensures SetDayAsWritten(today, target) == Day(target.year, target.monthIndex + 1, target.day)
  {
    var afterYear := SetFullYear(today, target.year);
    assert afterYear == Day(target.year, today.monthIndex, today.day);
    var afterMonth := SetMonth(afterYear, target.monthIndex);
    assert afterMonth.monthIndex == target.monthIndex + 1;
    assert target.day <= DaysInMonth(target.year, target.monthIndex + 1);
  }

  /** `210415120000S` decoded on 31 March 2021 is set to 15 May, not 15 April. */
  lemma AsWrittenExample()
    ensures SetDayAsWritten(Day(2021, 2, 31), Day(2021, 3, 15)) == Day(2021, 4, 15)
  {
    AsWrittenMissesTarget(Day(2021, 2, 31), Day(2021, 3, 15));
  }

  /** The same calls after a first `setDate(1)`, so that no kept day can roll over. */
  function SetDayFromFirst(today: Day, target: Day): Day
    requires Valid(today) && Valid(target)
  {
    SetDate(SetMonth(SetFullYear(SetDate(today, 1), target.year), target.monthIndex), target.day)
  }

  /** Starting from the first of the month, the calls set exactly the target day, whatever today is. */
  lemma FromFirstSetsTarget(today: Day, target: Day)
    requires Valid(today) && Valid(target)
    ensures SetDayFromFirst(today, target) == target
  {
    var first := SetDate(today, 1);
    assert first.day == 1;
    var afterYear := SetFullYear(first, target.year);
    assert afterYear == Day(target.year, first.monthIndex, 1);
    var afterMonth := SetMonth(afterYear, target.monthIndex);
    assert afterMonth == Day(target.year, target.monthIndex, 1);
  }

  /** The year, month and day of the fields set on the `Date`. */
  function DayOf(f: DateFields): Day {
    Day(f.year, f.monthIndex, f.day)
  }

  /**
   * `210415120000S` reads as 15 April 2021, but on 31 March the setter
   * calls as written land on 15 May.
   */
  lemma AsWrittenDecodeExample()
    ensures ParseTimestamp("210415120000S") == Success(DateFields(2021, 3, 15, 12, 0, 0, 0))
    ensures SetDayAsWritten(Day(2021, 2, 31), DayOf(ParseTimestamp("210415120000S").value)) == Day(2021, 4, 15)
  {
    assert FormatTimestamp(21, 4, 15, 12, 0, 0, "S") == "210415120000S";
    TimestampRoundTrip(21, 4, 15, 12, 0, 0, "S");
    AsWrittenExample();
  }
}
