# P1 telegram decoder

A Dafny model of `parsePacket` in `lib/parsePacket.js`. It decodes a DSMR 4.0 P1 telegram, which is the text a Dutch smart meter sends on its P1 port, into a nested record. The line grammar is `OBIS(value[*unit])`, from section 6.12 of the DSMR 4.0 P1 Companion Standard, with OBIS identifiers as in IEC 62056-61.

The decoder works like this:

- It splits the telegram into lines on CR LF, LF or CR.
- It takes the meter type from the first line, minus that line's first character.
- It starts from a record in which every field is `null`.
- It walks the lines from the third one on, and skips empty lines.
- It sends each line through `_parseLine`, then through a `switch` on the OBIS code, to one field of the record.
  - A line the `switch` does not know is reported on the error console.
  - Three helper parsers decode compound values: `_parseTimestamp`, `_parsePowerFailureEventLog` and `_parseHourlyReading`.
  - `_parseTimestamp` throws on an invalid date. It also throws when `_parseHourlyReading` finds no time stamp, because it is then called with `null`. Either exception ends the decode.

The model is organised in modules:

- `JsString` and `JsNumber`: the JavaScript built-ins the decoder relies on. These are `indexOf`, `split` with a string separator, `substring`, truthiness, `parseInt` without a radix, and `parseFloat`. `parseFloat` keeps the decimal literal it reads, not a floating-point number.
- `Lines`: the line split and `_parseLine`.
- `Timestamp`: `_parseTimestamp`, as field extraction that succeeds or throws.
- `PowerFailureLog`: `_parsePowerFailureEventLog`.
  - It is a method with the source's stride-2 loop, proved equal to a recursive specification.
  - Lemmas characterise that specification: the count, the entries taken pair by pair, when it throws, and a round trip.
- `HourlyReading`: `_parseHourlyReading`.
- `Obis`: the code table of the `switch`. It is proved one to one.
- `Packet`: the record, the storing of one field, and the value each `case` computes.
- `Calendar`: the day arithmetic of the `Date` setters that `_parseTimestamp` calls, used to show the rollover described under Findings.
- `Decoder`: the loop of `parsePacket`.
  - It is a method that updates the record line by line, proved equal to a fold over the lines.
  - Lemmas characterise that fold: which line wins for each field, what is reported, and when and with which exception it throws.

The loop and the dispatch are written over a record of the parsers they call: `_parseLine`, the `switch` table, `parseInt`, `parseFloat` and the three helpers. What is proved about the loop therefore holds for any such parsers. `Packet.Library` holds the parsers of `lib/parsePacket.js`, and the lemmas about whole telegrams use it.

A reading line without `*` sets no unit: `_parseLine` leaves the unit out, so a line such as `1-0:1.8.1(123.456)` stores its reading with the unit `undefined`, and the model stores `None` as that unit.

## Model

| member | source | states |
|---|---|---|
| JsString.IndexOf | lib/parsePacket.js:228 | `indexOf` gives the first occurrence of the pattern, and -1 exactly when there is none |
| JsString.Split | lib/parsePacket.js:303 | `split` gives at least one piece; when the separator occurs, the first piece is the text before its first occurrence |
| JsString.SplitJoin | lib/parsePacket.js:303 | joining the pieces of a split with the separator gives back the string |
| JsString.SplitPiecesFree | lib/parsePacket.js:303 | no piece of a split contains the separator |
| JsString.SplitJoinChar | lib/parsePacket.js:229-230 | splitting on a one-character separator is the inverse of joining pieces that lack that character |
| JsString.SplitJoinPair | lib/parsePacket.js:272 | splitting on `)(` is the inverse of joining pieces that do not contain `)(` |
| JsString.SecondPiece | lib/parsePacket.js:230 | the second piece of a split, as in `value.split("*")[1]`, exists exactly when the separator occurs, and is then the text after its first occurrence up to the next one |
| JsString.SplitTwoStars | lib/parsePacket.js:279-280 | `v*u*more` splits on `*` into `v`, `u` and the pieces of `more` |
| JsString.Substring | lib/parsePacket.js:247-252 | `substring` clamps both bounds to the length of the string |
| JsString.DropFirst | lib/parsePacket.js:9 | `substring(1)` is the string without its first character, and "" for "" |
| JsString.Truthy | lib/parsePacket.js:223 | the truthiness of `parts[k]` in `if (split[0] && split[1])` and the other piece tests: the index lies within the pieces and the piece is not the empty string |
| JsNumber.ParseInt | lib/parsePacket.js:267 | `parseInt` without a radix: leading white space and one sign are skipped, an optional `0x` or `0X` prefix switches to base 16, and the longest run of digits in that base is read; `NaN` when there is none (see ParseIntDigits, ParseIntOfDecimal, ParseIntNoDigit) |
| JsNumber.ParseIntDigits | lib/parsePacket.js:108 | `parseInt` reads a run of decimal digits up to the first non-digit, leading zeros included |
| JsNumber.ParseIntOfDecimal | lib/parsePacket.js:267 | `parseInt` of the decimal digits of `n` is `n` |
| JsNumber.ParseIntMinus | lib/parsePacket.js:108 | a leading minus negates the magnitude, and no digits gives NaN |
| JsNumber.ParseIntNoDigit | lib/parsePacket.js:267 | text that starts with no white space, sign or digit gives NaN |
| JsNumber.LeadingZeros | lib/parsePacket.js:279 | leading zeros do not change the value of a digit string |
| JsNumber.ParseFloat | lib/parsePacket.js:88 | `parseFloat`: leading white space is skipped and the longest prefix that is a decimal literal is kept, `NaN` when there is none (see ParseFloatPrefix and the lemmas after it) |
| JsNumber.ParseFloatPrefix | lib/parsePacket.js:88 | what `parseFloat` keeps is a non-empty prefix of the input after its leading white space |
| JsNumber.ParseFloatDecimal | lib/parsePacket.js:88 | `parseFloat` reads `digits.digits` and stops where the literal cannot go on |
| JsNumber.ParseFloatWhole | lib/parsePacket.js:88 | `parseFloat` reads a whole number of digits followed by text that cannot continue it |
| JsNumber.ParseFloatNoDigit | lib/parsePacket.js:88 | text that cannot start a literal gives NaN |
| Lines.SplitLines | lib/parsePacket.js:7 | the split gives at least one line, and no line holds a CR or LF |
| Lines.SplitLinesInterleave | lib/parsePacket.js:7 | lines joined with any mix of CR LF, LF and CR split back into the same lines, unless a CR, an empty line and an LF would merge |
| Lines.CrThenLfMerges | lib/parsePacket.js:7 | a CR followed by an LF is one line ending, so the empty line between them is lost |
| Lines.CaptureLength | lib/parsePacket.js:221 | the length of the `(.+)?` capture: every character before it is not a line terminator, and it ends at the end of the text or at a line terminator |
| Lines.ParseLine | lib/parsePacket.js:219-237 | `_parseLine`: `split(/\((.+)?/)` cuts at the first `(`; when the text before it and the captured rest up to a line terminator are both non-empty, the code is the text before the `(` and the value the capture minus its last character, otherwise the result is empty (see ParseLineUnparsed, ParsedLineFields, ParseFormatWithUnit, ParseFormatPlain) |
| Lines.SplitUnit | lib/parsePacket.js:228-233 | the unit rule: a value with a `*` and no `)(` is split into the text before the first `*` and the text between the first and the second `*`; any other value is kept whole with no unit (see SplitUnitAtStar, ParseUnitStopsAtSecondStar) |
| Lines.ParseLineUnparsed | lib/parsePacket.js:221-223 | `_parseLine` sets no code and no value exactly when the line has no `(`, starts with `(`, or has nothing up to a line terminator after its first `(` |
| Lines.ParsedLineFields | lib/parsePacket.js:221-226 | on a line without terminators, `_parseLine` succeeds exactly when the first `(` is neither the first nor the last character; the code is then the text before that `(`, and the unit rule is applied to the rest of the line minus its last character |
| Lines.ParseFormatWithUnit | lib/parsePacket.js:224-230 | `code(value*unit)` parses back to its code, value and unit |
| Lines.ParseFormatPlain | lib/parsePacket.js:224-233 | `code(value)` parses back to its code and value, with no unit, when the value has no `*` or holds a `)(` |
| Lines.ParseUnitStopsAtSecondStar | lib/parsePacket.js:228-230 | the unit is only the text between the first and the second `*` |
| Lines.SplitUnitAtStar | lib/parsePacket.js:228-230 | the value is the text before the first `*`, and the unit is the next `*`-piece |
| Timestamp.TimeField | lib/parsePacket.js:247-252 | `parseInt(timestamp.substring(2k, 2k + 2))`, the `k`-th two-character field of the time stamp; it depends only on those two characters (see TimestampUsesTwelveCharacters, TimestampRoundTrip) |
| Timestamp.ParseTimestamp | lib/parsePacket.js:244-256 | `_parseTimestamp` on a string: the fields at 0, 2, 4, 6, 8 and 10, two characters each, are read with `parseInt` and set on the date (see TimestampRoundTrip, ShortTimestampThrows, TimestampUsesTwelveCharacters) |
| Timestamp.SetFields | lib/parsePacket.js:247-255 | the setter calls on the six parsed fields: any `NaN` field makes `toISOString` throw; otherwise the year is 2000 plus the first field, the month index is the second minus 1, and the milliseconds are 0 (see ParseTimestampOfFields) |
| Timestamp.TimestampRoundTrip | lib/parsePacket.js:244-255 | a formatted time stamp decodes to year 2000 + YY, month index MM - 1, day, hour, minute and second as written, and 0 milliseconds, whatever flag follows |
| Timestamp.TimestampUsesTwelveCharacters | lib/parsePacket.js:247-252 | only the first twelve characters are read |
| Timestamp.ShortTimestampThrows | lib/parsePacket.js:252-255 | ten characters or fewer leave the seconds NaN, and `toISOString` throws |
| Timestamp.ParseTimestampOfFields | lib/parsePacket.js:247-253 | when all six fields are numbers, the date is made of them |
| Timestamp.ExampleTimestamp | lib/parsePacket.js:244-255 | `210101120000W` is 1 January 2021, 12:00:00.000 |
| PowerFailureLog.PowerFailureEventLog | lib/parsePacket.js:263-289 | `_parsePowerFailureEventLog`: the count is `parseInt` of the text before `)(0-0:96.7.19)(`, or 0; the entries come from the text after it split at `)(`, and there are none when that text is missing or empty (see ParsePowerFailureEventLog, EventLogIsThePairs, EventLogRoundTrip) |
| PowerFailureLog.Tokens | lib/parsePacket.js:266-272 | the pieces between `)(` of the text after the marker `)(0-0:96.7.19)(`; none when that text is missing or empty (see EventLogTokens, NoMarkerNoLog) |
| PowerFailureLog.Entry | lib/parsePacket.js:277-281 | one entry: the end time parsed as a time stamp, `parseInt` of the duration token up to its first `*`, and the text between its first and second `*` as the unit (see EntryParts, EntryOfTokens, EntryUnitStopsAtSecondStar) |
| PowerFailureLog.EntriesFrom | lib/parsePacket.js:275-285 | the entries from position `i` on, stepping by two while `i` is at most the number of pieces: a pair with an empty piece is skipped, and the first pair whose time stamp throws ends the decode (see EntriesStep, EntriesBound, EventLogFailsAtABadTimestamp) |
| PowerFailureLog.CountOfDecimal | lib/parsePacket.js:267 | a count sent as decimal digits is read as its value |
| PowerFailureLog.CountOfNoDigit | lib/parsePacket.js:267 | a count that does not start with white space, a sign or a digit is 0, as `NaN \|\| 0` is |
| PowerFailureLog.EntryParts | lib/parsePacket.js:277-281 | an entry fails exactly when its time stamp does; otherwise it holds the time stamp, the duration before the first `*`, and a unit exactly when the token has a `*` |
| PowerFailureLog.EntryOfTokens | lib/parsePacket.js:277-281 | a token `digits*unit` gives the value of the digits and the unit |
| PowerFailureLog.EntryUnitStopsAtSecondStar | lib/parsePacket.js:277-281 | for a duration token `d*u*more` the entry throws what the time stamp throws, and otherwise holds `parseInt(d)` and the unit `u`, the text between the first and the second `*` |
| PowerFailureLog.ParsePowerFailureEventLog | lib/parsePacket.js:263-289 | the stride-2 loop that pushes entries computes the recursive specification of the log |
| PowerFailureLog.EntriesStep | lib/parsePacket.js:275-284 | one step of the loop skips a position without a pair, throws at a failing pair, and otherwise appends the pair's entry |
| PowerFailureLog.NoTokensNoLog | lib/parsePacket.js:266-271 | with nothing after the marker, the log is empty and only the count is read |
| PowerFailureLog.NoMarkerNoLog | lib/parsePacket.js:264-271 | without the marker, the whole value is the count and the log is empty |
| PowerFailureLog.EventLogFailsAtABadTimestamp | lib/parsePacket.js:276-278 | the decode throws exactly when one of the pairs has an invalid time stamp |
| PowerFailureLog.EventLogIsThePairs | lib/parsePacket.js:264-285 | a decoded log holds the count and one entry per pair of non-empty tokens at positions 0-1, 2-3, ..., in order, so at most half as many entries as tokens |
| PowerFailureLog.PairStartsArePairs | lib/parsePacket.js:275-276 | every position the loop takes an entry from holds a pair, on the loop's even grid |
| PowerFailureLog.PairStartsAreAllPairs | lib/parsePacket.js:275-276 | every pair on the loop's grid gives an entry |
| PowerFailureLog.PairStartsIncrease | lib/parsePacket.js:275 | the entries follow the input order |
| PowerFailureLog.EntriesBound | lib/parsePacket.js:275-284 | the loop collects at most one entry per two tokens |
| PowerFailureLog.EventLogTokens | lib/parsePacket.js:264-272 | a count, the marker and `)(`-joined tokens split back into that count and those tokens |
| PowerFailureLog.EventLogRoundTrip | lib/parsePacket.js:263-289 | such a value decodes to the count and one entry per pair, in order |
| PowerFailureLog.CountIsRead | lib/parsePacket.js:267 | a value that announces `n` failures has count `n`, whatever the number of entries that follow |
| PowerFailureLog.ExampleEntry | lib/parsePacket.js:279-280 | a duration token made of eight zeros, then digits, then `*s`, reads as the value of those digits with the unit `s` |
| HourlyReading.ParseHourlyReading | lib/parsePacket.js:296-312 | `_parseHourlyReading`: when the first two `)(`-pieces are both non-empty, the time stamp is the first, the value the second up to its first `*` and the unit the text between its first and second `*`; otherwise all three stay `null` (see HourlyReadingFields, HourlyReadingRoundTrip) |
| HourlyReading.HourlyReadingFields | lib/parsePacket.js:296-311 | the three fields are set together, exactly when the first two `)(`-pieces are non-empty; the time stamp is then the text before the first `)(`, the value has no `*` or `)(`, and the unit has no `*` |
| HourlyReading.HourlyReadingRoundTrip | lib/parsePacket.js:303-308 | `timestamp)(value*unit` decodes to its three parts |
| HourlyReading.HourlyUnitStopsAtSecondStar | lib/parsePacket.js:307-308 | in `timestamp)(value*unit*more` the value is the text before the first `*` and the unit the text between the first and the second `*` |
| HourlyReading.HourlyIgnoresLaterPieces | lib/parsePacket.js:303-308 | a third `)(`-piece and those after it do not change the result |
| HourlyReading.HourlyReadingWithoutUnit | lib/parsePacket.js:303-308 | without a `*` the value is set and the unit is `undefined` |
| HourlyReading.HourlyReadingWithoutSeparator | lib/parsePacket.js:303-305 | without `)(` nothing is set |
| HourlyReading.HourlyReadingWithoutTimestamp | lib/parsePacket.js:305 | a value that starts with `)(` has no time stamp, so nothing is set |
| Obis.CodeOf | lib/parsePacket.js:75-200 | the OBIS code of each `case` label, one per field; no two fields share a code (see CodesDiffer, FieldForIsCodeOf) |
| Obis.FieldFor | lib/parsePacket.js:74-205 | the `switch` selects a field whose code is the line's code, or the `default` branch when no field has that code |
| Obis.FieldFrom | lib/parsePacket.js:74-205 | a result has the looked-up code and is a case at or after `n` with no earlier case of that code; no result means no case from `n` on has the code |
| Obis.EveryFieldHasACase | lib/parsePacket.js:75-201 | every field of the record has a `case` |
| Obis.CodesDiffer | lib/parsePacket.js:75-201 | no two cases share a code |
| Obis.CodeSelectsField | lib/parsePacket.js:75-201 | every field's code selects that field, and no earlier case shadows it |
| Obis.FieldForIsCodeOf | lib/parsePacket.js:74-205 | a code selects a field exactly when it is that field's code |
| Packet.Initial | lib/parsePacket.js:8-67 | the record `parsePacket` starts from, with the meter type and every field `null` (see InitialIsEmpty, EmptySlot) |
| Packet.Set | lib/parsePacket.js:74-201 | the assignment of one field of the record, which changes that field only (see GetSet, SetKeepsMeterType) |
| Packet.Get | lib/parsePacket.js:8-67 | every field's destination holds a slot of that field's shape |
| Packet.GetSet | lib/parsePacket.js:74-205 | storing into a field changes that field's destination and no other, and never the meter type |
| Packet.SetKeepsMeterType | lib/parsePacket.js:9 | no `case` writes the meter type |
| Packet.FieldsDetermineRecord | lib/parsePacket.js:8-67 | two records with the same meter type and the same value in every field are equal |
| Packet.InitialIsEmpty | lib/parsePacket.js:8-67 | the initial record holds `null` in every field, and the meter type it was given |
| Packet.EmptySlot | lib/parsePacket.js:8-67 | the `null` slot of a field has that field's shape |
| Packet.Transform | lib/parsePacket.js:74-201 | whatever a `case` computes has the shape of its field's destination |
| Packet.TransformFails | lib/parsePacket.js:80-194 | only three kinds of line throw: an invalid packet time stamp, an event log with an invalid time stamp, and an hourly gas reading whose time stamp is missing or invalid |
| Packet.LogOfLine | lib/parsePacket.js:139-141 | the event log line stores the log, or throws what the event log parser throws |
| Packet.ReadingOfLine | lib/parsePacket.js:87-119 | a reading stores `parseFloat` of the line's value, with the line's own unit |
| Packet.HourlyOfParts | lib/parsePacket.js:191-196 | the hourly gas line stores the time stamp's fields, `parseFloat` of the value, and the unit inside the value, not the unit of the line |
| Packet.GasReadingOfParts | lib/parsePacket.js:191-196 | `timestamp)(value*unit` stores that time stamp, value and unit |
| Packet.GasReadingWithoutTimestamp | lib/parsePacket.js:192-194 | an hourly gas value without two non-empty `)(`-pieces throws, because `_parseTimestamp(null)` is called |
| Packet.HourlyWithoutTimestamp | lib/parsePacket.js:192-194 | with any helpers, an hourly reading that has no time stamp throws the `null.substring` error |
| Packet.HourlyValuePresent | lib/parsePacket.js:191-196 | with a helper that sets the value whenever it sets the time stamp, a stored hourly reading is `parseFloat` of that value |
| Packet.HourlyValueIsRead | lib/parsePacket.js:191-196 | a stored hourly gas reading is always `parseFloat` of the value `_parseHourlyReading` found, so `parseFloat(null)` is never reached |
| Decoder.Classify | lib/parsePacket.js:71-204 | what one line does: nothing when it is empty, a report when its code is unknown, and otherwise a store of the value its `case` computes (see ClassifyLine, UnknownLine, EmptyLineIgnored) |
| Decoder.Step | lib/parsePacket.js:70-208 | one turn of the loop, which performs that action and stops once an exception is thrown (see StepStores, StepThrows, ThrewStays) |
| Decoder.Run | lib/parsePacket.js:70-208 | the loop over the lines (see RunAppend, RunSnoc, RunThrows, RunWithoutThrow, LastWriterWins) |
| Decoder.DecodePacket | lib/parsePacket.js:6-212 | `parsePacket`: split, initial record from the first line, the loop from the third line on (see ParsePacket, DecodedMeterType, DecodedField, DecodeThrows) |
| Decoder.ClassifyLine | lib/parsePacket.js:71-204 | only the empty line is skipped; a line goes to a field exactly when `_parseLine` gives it that field's code; every other line is unknown |
| Decoder.ParsePacket | lib/parsePacket.js:6-212 | the loop that updates the record line by line computes the fold of one step per line over the lines from the third on |
| Decoder.DecodeLine | lib/parsePacket.js:71-206 | one pass of the loop computes one step of the fold |
| Decoder.Diagnostic | lib/parsePacket.js:204 | the report for a line ends with that line |
| Decoder.UnknownLine | lib/parsePacket.js:203-204 | an unknown line is reported once and changes nothing else |
| Decoder.ThrewStays | lib/parsePacket.js:80-194 | after an exception no further line has any effect |
| Decoder.RunAppend | lib/parsePacket.js:70 | decoding two runs of lines is decoding the first, then the second |
| Decoder.RunSnoc | lib/parsePacket.js:70 | the last line is decoded last |
| Decoder.EmptyLineIgnored | lib/parsePacket.js:71 | an empty line anywhere changes nothing |
| Decoder.RunKeepsMeterType | lib/parsePacket.js:9-208 | no line changes the meter type |
| Decoder.FirstThrow | lib/parsePacket.js:70-208 | the first line that throws, or none |
| Decoder.Reports | lib/parsePacket.js:203-204 | the `console.error` messages of the `default` branch: one per unknown line, in order, and never more than there are lines (see ReportsAppend, RunThrows, RunWithoutThrow) |
| Decoder.StepThrows | lib/parsePacket.js:74-205 | a line throws its exception, or keeps the record decoded and adds its report when it is unknown |
| Decoder.RunThrows | lib/parsePacket.js:70-208 | the decode throws exactly when a line throws; the exception is then that of the first such line, after the reports for the unknown lines before it; otherwise every unknown line is reported, in order |
| Decoder.RunThrowsAtFirst | lib/parsePacket.js:70-208 | a decode with a throwing line raises the first one's exception, with the reports before it |
| Decoder.RunWithoutThrow | lib/parsePacket.js:70-208 | a decode with no throwing line returns the record and reports every unknown line |
| Decoder.ReportsAppend | lib/parsePacket.js:204 | the reports for two runs of lines are those of the first, then those of the second |
| Decoder.LastWriter | lib/parsePacket.js:74-205 | the last line that stores into a field, or none |
| Decoder.FinalValue | lib/parsePacket.js:70-208 | every field ends up holding what the last line selecting it stored, or its value before the loop when no line selects it |
| Decoder.Untouched | lib/parsePacket.js:70-208 | a field no line selects keeps its value |
| Decoder.LastWriterWins | lib/parsePacket.js:70-208 | a later line with the same code overwrites the value of an earlier one |
| Decoder.StepStores | lib/parsePacket.js:74-205 | a line that does not throw stores its slot into its field, or leaves the record as it was |
| Decoder.RunInit | lib/parsePacket.js:70 | a decode that ends decoded was decoded up to its last line |
| Decoder.NoDataLines | lib/parsePacket.js:8-70 | a telegram of two lines or fewer decodes to the initial record, with no reports |
| Decoder.NothingStored | lib/parsePacket.js:8-70 | a telegram whose data lines select no field decodes to the initial record, with the meter type of its first line |
| Decoder.DecodeJoinedLines | lib/parsePacket.js:7-70 | a telegram joined from lines decodes its third and later lines, whatever the second line holds, and takes its meter type from the first |
| Decoder.DecodedMeterType | lib/parsePacket.js:9 | the meter type is the first line without its first character |
| Decoder.DecodeThrows | lib/parsePacket.js:70-208 | a telegram throws exactly when one of its data lines throws, and then with the first such line's exception after the reports of the unknown data lines before it; otherwise it reports every unknown data line |
| Decoder.DecodedField | lib/parsePacket.js:8-208 | a field of a decoded telegram is `null` when no data line selects it, and otherwise what the last data line selecting it stored |
| Decoder.ReadingFromOneLine | lib/parsePacket.js:87-119 | a reading and its unit always come from the same line, the last one with that reading's code |
| Calendar.Roll | lib/parsePacket.js:247-249 | a day of the month is kept when the month has it, and otherwise rolls over into the next month, always giving a valid day |
| Calendar.SetFullYear | lib/parsePacket.js:247 | `setFullYear` gives a valid day in the new year |
| Calendar.SetMonth | lib/parsePacket.js:248 | `setMonth` keeps the year and gives a valid day |
| Calendar.SetDate | lib/parsePacket.js:249 | `setDate` gives a valid day |
| Calendar.AsWrittenMissesTarget | lib/parsePacket.js:245-249 | when today's day of the month is missing from the target month, the calls in their order land on the target day one month late |
| Calendar.AsWrittenExample | lib/parsePacket.js:245-249 | 15 April 2021 set on 31 March 2021 gives 15 May |
| Calendar.AsWrittenDecodeExample | lib/parsePacket.js:244-249 | `210415120000S` reads as 15 April 2021, and on 31 March the calls set 15 May |
| Calendar.FromFirstSetsTarget | lib/parsePacket.js:245-249 | after a first `setDate(1)` the same calls set exactly the target day, whatever day today is |

## Left out

- The serial port, the event emitter and `examples/example.js`. These are I/O glue that feeds telegrams to the decoder and writes CSV rows; `examples/example.js` is not part of this model.
- `console.error`: the model returns the reported messages, in order, alongside the record or the exception.
- Floating point. `parseFloat` returns the decimal literal it reads, as text. The rounding to the nearest double, `-0` and the precision limit of `parseInt` on long digit runs are not modelled.
- JavaScript `Date`:
  - `new Date()` starts from the current day (line 245), and the year, month and day are then set in that order (lines 247-249). A valid time stamp therefore lands a month late when today's day of the month is missing from its month: `210415120000S` decoded on 31 March gives 15 May (see Findings). `Calendar` models only this day arithmetic, for valid dates.
  - the rollover of out-of-range fields, for example month 13 or day 32, and of the hours, minutes and seconds;
  - the local time zone of the setters and the conversion to UTC by `toISOString`.

  A time stamp is modelled as the six fields the code sets on the `Date`, which is the intended date, or as the exception `toISOString` throws when a field is NaN.
- Strings are sequences of Unicode scalar values, not of UTF-16 code units. For text outside the Basic Multilingual Plane the indices of `substring(1)`, of the time-stamp fields and of the line pattern differ from JavaScript's.
- `null` and `undefined` are both modelled as `None`. Before any line the unit of a reading is `null`; a reading line without `*` sets it to `undefined`.
- Any M-Bus channel other than 1. The code hard-codes the gas meter on M-Bus 1, and so does the model.
- The telegram checksum and the `!` trailer line. The code never checks the checksum; the trailer has no `(`, so it is reported as an unknown line.
- Exceptions other than the two the code can raise on well-typed input: the `TypeError` of `_parseTimestamp(null)` and the `RangeError` of `toISOString`.

## Findings

| source | as written | input that shows it | evidently intended | confidence | as-written member | corrected member |
|---|---|---|---|---|---|---|
| lib/parsePacket.js:245-249 | the `Date` starts from today and `setMonth` runs before `setDate`, so today's day of the month can roll the month over before the day is set | `210415120000S` decoded on 31 March 2021 gives 15 May 2021 | 15 April 2021, the date the time stamp names | high, not executed | Calendar.AsWrittenMissesTarget | Calendar.FromFirstSetsTarget |
