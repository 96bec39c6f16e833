/**
 * Splitting a packet into lines (`packet.split(/\r\n|\n|\r/)`) and parsing
 * one data line `obisCode(value*unit)` (`_parseLine`), in
 * lib/parsePacket.js.
 */
module Lines {
  import opened Wrappers
  import opened JsString

  predicate IsBreakChar(c: char) {
    c == '\r' || c == '\n'
  }

  /** A line ending the splitter accepts: CR LF, LF or CR. */
  predicate IsLineEnding(b: string) {
    b == "\r\n" || b == "\n" || b == "\r"
  }

  predicate NoBreaks(s: string) {
    forall k :: 0 <= k < |s| ==> !IsBreakChar(s[k])
  }

  /** The index of the first CR or LF at or after `i`, or `|s|`. */
  function BreakIndex(s: string, i: nat): (r: nat)
    requires i <= |s|
    ensures i <= r <= |s|
    ensures r < |s| ==> IsBreakChar(s[r])
    ensures forall k :: i <= k < r ==> !IsBreakChar(s[k])
    decreases |s| - i
  {
    if i == |s| || IsBreakChar(s[i]) then i else BreakIndex(s, i + 1)
  }

  /** The length of the line ending that starts at a break character: 2 for CR LF, else 1. */
  function EndingLength(s: string, i: nat): (w: nat)
    requires i < |s|
    ensures 1 <= w <= 2 && i + w <= |s|
  {
    if s[i] == '\r' && i + 1 < |s| && s[i + 1] == '\n' then 2 else 1
  }

  /**
   * `packet.split(/\r\n|\n|\r/)`: the regular expression is tried at each
   * position from the left, and its first alternative takes CR LF as one
   * line ending. Empty lines are kept, and no line holds a CR or LF.
   */
  function SplitLines(s: string): (r: seq<string>)
    ensures |r| >= 1
    ensures forall k :: 0 <= k < |r| ==> NoBreaks(r[k])
    decreases |s|
  {
    var i := BreakIndex(s, 0);
    if i == |s| then [s]
    else [s[..i]] + SplitLines(s[i + EndingLength(s, i)..])
  }

  /** Lines put back together with the given line endings between them. */
  function Interleave(lines: seq<string>, endings: seq<string>): string
    requires |lines| == |endings| + 1
  {
    if |endings| == 0 then lines[0]
    else lines[0] + endings[0] + Interleave(lines[1..], endings[1..])
  }

  /**
   * The line endings of a packet can be told apart: a CR alone, then an
   * empty line, then an LF, would read as one CR LF, and nothing else
   * merges or loses a line.
   */
  predicate Separable(lines: seq<string>, endings: seq<string>)
    requires |lines| == |endings| + 1
  {
    forall k :: 0 <= k < |endings| - 1 && endings[k] == "\r" && lines[k + 1] == "" ==> endings[k + 1] != "\n"
  }

  /** Splitting the text after a line and its ending. */
  lemma SplitLinesStep(line: string, ending: string, rest: string)
    requires NoBreaks(line) && IsLineEnding(ending)
    requires ending == "\r" ==> rest == "" || rest[0] != '\n'
    ensures SplitLines(line + ending + rest) == [line] + SplitLines(rest)
  {
    var s := line + ending + rest;
    assert forall k :: 0 <= k < |line| ==> s[k] == line[k];
    assert s[|line|] == ending[0];
    assert BreakIndex(s, 0) == |line|;
    if ending == "\r" && rest != "" {
      assert s[|line| + 1] == rest[0];
    }
    if ending == "\r\n" {
      assert s[|line| + 1] == '\n';
    }
    assert EndingLength(s, |line|) == |ending|;
    assert s[..|line|] == line;
    assert s[|line| + |ending|..] == rest;
  }

  /** The first character of joined lines comes from the first line, or else from the first ending. */
  lemma InterleaveHead(lines: seq<string>, endings: seq<string>)
    requires |lines| == |endings| + 1
    requires |endings| > 0 ==> endings[0] != ""
    ensures lines[0] != "" ==> Interleave(lines, endings) != "" && Interleave(lines, endings)[0] == lines[0][0]
    ensures lines[0] == "" && |endings| > 0 ==> Interleave(lines, endings) != "" && Interleave(lines, endings)[0] == endings[0][0]
    ensures lines[0] == "" && |endings| == 0 ==> Interleave(lines, endings) == ""
  {
  }

  lemma SeparableTail(lines: seq<string>, endings: seq<string>)
    requires |lines| == |endings| + 1 && |endings| > 0
    requires Separable(lines, endings)
    ensures Separable(lines[1..], endings[1..])
  {
    forall k | 0 <= k < |endings| - 2 && endings[1..][k] == "\r" && lines[1..][k + 1] == ""
      ensures endings[1..][k + 1] != "\n"
    {
      assert endings[k + 1] == "\r" && lines[k + 2] == "";
    }
  }

  /** Splitting recovers the lines, whatever mix of line endings joined them. */
  lemma {:induction false} SplitLinesInterleave(lines: seq<string>, endings: seq<string>)
    requires |lines| == |endings| + 1
    requires forall k :: 0 <= k < |lines| ==> NoBreaks(lines[k])
    requires forall k :: 0 <= k < |endings| ==> IsLineEnding(endings[k])
    requires Separable(lines, endings)
    ensures SplitLines(Interleave(lines, endings)) == lines
    decreases |endings|
  {
    if |endings| == 0 {
      assert BreakIndex(lines[0], 0) == |lines[0]|;
      assert lines == [lines[0]];
    } else {
      var rest := Interleave(lines[1..], endings[1..]);
      SeparableTail(lines, endings);
      SplitLinesInterleave(lines[1..], endings[1..]);
      InterleaveHead(lines[1..], endings[1..]);
      if endings[0] == "\r" && rest != "" && lines[1] == "" {
        assert endings[1] != "\n";
      }
      SplitLinesStep(lines[0], endings[0], rest);
      assert lines == [lines[0]] + lines[1..];
    }
  }

  /** The counterexample to merging: CR, an empty line, LF is read as one CR LF. */
  lemma CrThenLfMerges()
    ensures SplitLines("a\r" + "" + "\n" + "b") == ["a", "b"]
  {
    var s := "a\r\nb";
    assert "a\r" + "" + "\n" + "b" == s;
    assert BreakIndex(s, 1) == 1;
    assert BreakIndex(s, 0) == 1;
    assert EndingLength(s, 1) == 2;
    assert s[..1] == "a" && s[3..] == "b";
    assert BreakIndex("b", 1) == 1;
    assert BreakIndex("b", 0) == 1;
    assert SplitLines("b") == ["b"];
    assert SplitLines(s) == [s[..1]] + SplitLines(s[3..]);
  }

  /** What JavaScript's `.` does not match in a regular expression. */
  predicate IsLineTerminator(c: char) {
    c == '\n' || c == '\r' || c == '\U{2028}' || c == '\U{2029}'
  }

  /** The length of the match of `(.+)?`: the leading characters that are not line terminators. */
  function CaptureLength(s: string): (n: nat)
    ensures n <= |s|
    ensures forall k :: 0 <= k < n ==> !IsLineTerminator(s[k])
    ensures n == |s| || IsLineTerminator(s[n])
  {
    if s != "" && !IsLineTerminator(s[0]) then 1 + CaptureLength(s[1..]) else 0
  }

  /** The result of `_parseLine`: either no OBIS code and no value, or both, with a unit when one was split off. */
  datatype ParsedLine = Unparsed | Parsed(obisCode: string, value: string, unit: Option<string>)

  /**
   * `_parseLine`: `line.split(/\((.+)?/)` puts the text before the first
   * `(` in piece 0 and the captured group in piece 1; when both are
   * truthy, the capture without its last character is the value, and a
   * unit is split off at `*` only when the value holds no `)(`.
   */
  function ParseLine(line: string): ParsedLine {
    var i := IndexOf(line, "(");
    if i <= 0 then Unparsed
    else
      var rest := line[i + 1..];
      var n := CaptureLength(rest);
      if n == 0 then Unparsed
      else
        SplitUnit(line[..i], rest[..n - 1])
  }

  /** The unit rule of `_parseLine`: split at `*` only a value that holds a `*` and no `)(`. */
  function SplitUnit(obisCode: string, value: string): ParsedLine {
    if Contains(value, "*") && !Contains(value, ")(") then
      var parts := Split(value, "*");
      Parsed(obisCode, parts[0], Some(parts[1]))
    else Parsed(obisCode, value, None)
  }

  /** The first `(` of `s` is at `i`. */
  predicate FirstParen(s: string, i: int) {
    0 <= i < |s| && s[i] == '(' && '(' !in s[..i]
  }

  lemma IndexOfChar(s: string, c: char, i: int)
    requires IndexOf(s, [c]) == i
    ensures i >= 0 ==> i < |s| && s[i] == c && c !in s[..i]
    ensures i < 0 ==> c !in s
  {
    if i >= 0 {
      assert s[i..i + 1] == [c];
      forall j | 0 <= j < i
        ensures s[..i][j] != c
      {
        assert !OccursAt(s, [c], j);
        assert s[j..j + 1] == [s[j]];
      }
    } else {
      forall j | 0 <= j < |s|
        ensures s[j] != c
      {
        assert !OccursAt(s, [c], j);
        assert s[j..j + 1] == [s[j]];
      }
    }
  }

  /**
   * `_parseLine` sets neither code nor value exactly when the line has no
   * `(`, starts with `(`, or has nothing (up to a line terminator) after
   * its first `(`.
   */
  lemma ParseLineUnparsed(line: string)
    ensures ParseLine(line).Unparsed? <==>
      || '(' !in line
      || line[0] == '('
      || (forall i :: FirstParen(line, i) ==> i + 1 == |line| || IsLineTerminator(line[i + 1]))
  {
    var i := IndexOf(line, "(");
    IndexOfChar(line, '(', i);
    if i > 0 {
      assert FirstParen(line, i);
      assert line[..i][0] == line[0];
      assert forall j :: FirstParen(line, j) ==> j == i;
      var rest := line[i + 1..];
      assert CaptureLength(rest) == 0 <==> rest == "" || IsLineTerminator(rest[0]);
      assert rest != "" ==> rest[0] == line[i + 1];
    }
  }

  /**
   * On a line without line terminators `_parseLine` succeeds exactly when
   * the first `(` is neither the first nor the last character; the code is
   * then the text before it, and the unit rule is applied to the rest of
   * the line without its last character.
   */
  lemma ParsedLineFields(line: string)
    requires NoTerminators(line)
    ensures ParseLine(line).Parsed? <==> 0 < IndexOf(line, "(") < |line| - 1
    ensures ParseLine(line).Parsed? ==>
      var i := IndexOf(line, "(");
      ParseLine(line) == SplitUnit(line[..i], line[i + 1..|line| - 1])
  {
    var i := IndexOf(line, "(");
    if i > 0 {
      var rest := line[i + 1..];
      assert NoTerminators(rest) by {
        assert forall k :: 0 <= k < |rest| ==> rest[k] == line[i + 1 + k];
      }
      CaptureAll(rest);
      if rest != "" {
        assert rest[..|rest| - 1] == line[i + 1..|line| - 1];
      }
    }
  }

  /** The DSMR line grammar `code(value)` or `code(value*unit)`. */
  function FormatLine(obisCode: string, value: string, unit: Option<string>): string {
    match unit
    case None => obisCode + "(" + value + ")"
    case Some(u) => obisCode + "(" + value + "*" + u + ")"
  }

  predicate NoTerminators(s: string) {
    forall k :: 0 <= k < |s| ==> !IsLineTerminator(s[k])
  }

  /** `_parseLine` on `code(body)` applies the unit rule to `body`. */
  lemma ParseParenthesised(obisCode: string, body: string)
    requires obisCode != "" && '(' !in obisCode
    requires NoTerminators(body)
    ensures ParseLine(obisCode + "(" + body + ")") == SplitUnit(obisCode, body)
  {
    var line := obisCode + "(" + body + ")";
    FirstAfterChar(obisCode, '(', body + ")");
    assert line == obisCode + "(" + (body + ")");
    assert line[..|obisCode|] == obisCode;
    assert line[|obisCode| + 1..] == body + ")";
    CaptureAll(body + ")");
    assert (body + ")")[..|body|] == body;
  }

  lemma CaptureAll(s: string)
    requires NoTerminators(s)
    ensures CaptureLength(s) == |s|
    decreases |s|
  {
    if s != "" {
      CaptureAll(s[1..]);
    }
  }

  /** The unit rule splits `value*rest` into `value` and the text of `rest` up to its first `*`. */
  lemma SplitUnitAtStar(obisCode: string, value: string, rest: string)
    requires '*' !in value
    requires !Contains(value + "*" + rest, ")(")
    ensures SplitUnit(obisCode, value + "*" + rest) == Parsed(obisCode, value, Some(Split(rest, "*")[0]))
  {
    FirstAfterChar(value, '*', rest);
    SplitAt(value, "*", rest);
  }

  /** The unit rule on `value*unit` when neither part holds a `*`. */
  lemma SplitUnitWithUnit(obisCode: string, value: string, unit: string)
    requires '*' !in value && '*' !in unit
    requires !Contains(value + "*" + unit, ")(")
    ensures SplitUnit(obisCode, value + "*" + unit) == Parsed(obisCode, value, Some(unit))
  {
    SplitUnitAtStar(obisCode, value, unit);
    CharNotContained(unit, '*');
    SplitNone(unit, "*");
  }

  /**
   * A line written as `code(value*unit)` parses back to its code, value and
   * unit, provided the value and unit hold no `*` and the text between the
   * parentheses holds no `)(`.
   */
  lemma ParseFormatWithUnit(obisCode: string, value: string, unit: string)
    requires obisCode != "" && '(' !in obisCode
    requires NoTerminators(value + "*" + unit)
    requires '*' !in value && '*' !in unit
    requires !Contains(value + "*" + unit, ")(")
    ensures ParseLine(FormatLine(obisCode, value, Some(unit))) == Parsed(obisCode, value, Some(unit))
  {
    ParseParenthesised(obisCode, value + "*" + unit);
    SplitUnitWithUnit(obisCode, value, unit);
    FormatWithUnit(obisCode, value, unit);
  }

  lemma FormatWithUnit(obisCode: string, value: string, unit: string)
    ensures FormatLine(obisCode, value, Some(unit)) == obisCode + "(" + (value + "*" + unit) + ")"
  {
  }

  /**
   * A line written as `code(value)` parses back to its code and value with
   * no unit, provided the value has no `*`, or has a `)(` that marks it as
   * a compound value.
   */
  lemma ParseFormatPlain(obisCode: string, value: string)
    requires obisCode != "" && '(' !in obisCode
    requires NoTerminators(value)
    requires !Contains(value, "*") || Contains(value, ")(")
    ensures ParseLine(FormatLine(obisCode, value, None)) == Parsed(obisCode, value, None)
  {
    ParseParenthesised(obisCode, value);
  }

  lemma SplitUnitTwoStars(obisCode: string, value: string, unit: string, more: string)
    requires '*' !in value && '*' !in unit
    requires !Contains(value + "*" + unit + "*" + more, ")(")
    ensures SplitUnit(obisCode, value + "*" + unit + "*" + more) == Parsed(obisCode, value, Some(unit))
  {
    FirstAfterChar(unit, '*', more);
    SplitAt(unit, "*", more);
    assert value + "*" + unit + "*" + more == value + "*" + (unit + "*" + more);
    SplitUnitAtStar(obisCode, value, unit + "*" + more);
  }

  /**
   * The unit is only the text between the first and the second `*`:
   * `code(value*unit*more)` loses `*more`.
   */
  lemma ParseUnitStopsAtSecondStar(obisCode: string, value: string, unit: string, more: string)
    requires obisCode != "" && '(' !in obisCode
    requires NoTerminators(value + "*" + unit + "*" + more)
    requires '*' !in value && '*' !in unit
    requires !Contains(value + "*" + unit + "*" + more, ")(")
    ensures ParseLine(obisCode + "(" + (value + "*" + unit + "*" + more) + ")") == Parsed(obisCode, value, Some(unit))
  {
    ParseParenthesised(obisCode, value + "*" + unit + "*" + more);
    SplitUnitTwoStars(obisCode, value, unit, more);
  }
}
