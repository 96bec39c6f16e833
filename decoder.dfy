/**
 * The loop of `parsePacket` in lib/parsePacket.js: the lines after the two
 * header lines are decoded one after another into the record, empty lines
 * are skipped, an unrecognised line is reported and skipped, and a line
 * whose helper throws ends the decoding with that exception.
 */
module Decoder {
  import opened Wrappers
  import opened JsString
  import opened JsNumber
  import opened Lines
  import opened Timestamp
  import opened PowerFailureLog
  import opened Obis
  import opened Packet

  /**
   * The outcome of decoding: the record, or the exception that ended it;
   * both with the messages reported on the error console so far.
   */
  datatype Outcome =
    | Decoded(packet: Packet, diagnostics: seq<string>)
    | Threw(error: DecodeError, diagnostics: seq<string>)

  /** The message reported for a line the `switch` does not know. */
  function Diagnostic(line: string): (r: string)
    ensures |r| > |line| && r[|r| - |line|..] == line
  {
    "Unable to parse line: " + line
  }

  /** What a line does: nothing (empty), a report (unknown), or one `case` of the `switch`. */
  datatype Action = Skip | Unknown | Store(field: Field, value: string, unit: Option<string>)

  function Classify(h: Parsers, line: string): Action {
    if line == "" then Skip
    else match h.line(line)
      case Unparsed => Unknown
      case Parsed(code, value, unit) =>
        match h.select(code)
        case None => Unknown
        case Some(f) => Store(f, value, unit)
  }

  /**
   * Only the empty line is skipped; a line is stored into a field exactly
   * when `_parseLine` gives it that field's code; every other line is
   * unknown.
   */
  lemma ClassifyLine(line: string, f: Field, value: string, unit: Option<string>)
    ensures Classify(Library, line).Skip? <==> line == ""
    ensures Classify(Library, line) == Store(f, value, unit) <==>
      line != "" && ParseLine(line) == Parsed(CodeOf(f), value, unit)
    ensures Classify(Library, line).Unknown? <==>
      line != "" && (ParseLine(line).Unparsed? || forall g: Field :: CodeOf(g) != ParseLine(line).obisCode)
  {
    if line != "" && ParseLine(line).Parsed? {
      FieldForIsCodeOf(ParseLine(line).obisCode, f);
    }
  }

  /** One pass of the loop. */
  function Step(h: Parsers, o: Outcome, line: string): Outcome {
    match o
    case Threw(_, _) => o
    case Decoded(p, d) =>
      match Classify(h, line)
      case Skip => o
      case Unknown => Decoded(p, d + [Diagnostic(line)])
      case Store(f, value, unit) =>
        match Transform(h, f, value, unit)
        case Failure(e) => Threw(e, d)
        case Success(v) => Decoded(Set(p, f, v), d)
  }

  /** The loop over the lines in order. */
  function Run(h: Parsers, o: Outcome, lines: seq<string>): Outcome
    decreases |lines|
  {
    if lines == [] then o else Run(h, Step(h, o, lines[0]), lines[1..])
  }

  /** The lines from index `i` on; none when there are fewer. */
  function From(lines: seq<string>, i: nat): (r: seq<string>)
    ensures |r| == if i < |lines| then |lines| - i else 0
  {
    if i < |lines| then lines[i..] else []
  }

  /**
   * `parsePacket`: the meter type is the first line without its first
   * character, and the loop starts at the third line.
   */
  function DecodePacket(text: string): Outcome {
    var lines := SplitLines(text);
    Run(Library, Decoded(Initial(DropFirst(lines[0])), []), From(lines, 2))
  }

  /**
   * `parsePacket`, as the loop it is: the record is updated line by line,
   * an unknown line is reported, and the exception of a helper ends it.
   */
  method ParsePacket(text: string) returns (r: Outcome)
    ensures r == DecodePacket(text)
  {
    var lines := SplitLines(text);
    var parsed := Initial(DropFirst(lines[0]));
    var diagnostics: seq<string> := [];
    var i := 2;
    while i < |lines|
      invariant 2 <= i
      invariant DecodePacket(text) == Run(Library, Decoded(parsed, diagnostics), From(lines, i))
      decreases |lines| - i
    {
      assert From(lines, i) == [lines[i]] + From(lines, i + 1);
      var o := DecodeLine(parsed, diagnostics, lines[i]);
      if o.Threw? {
        ThrewStays(Library, o.error, o.diagnostics, From(lines, i + 1));
        return o;
      }
      parsed, diagnostics := o.packet, o.diagnostics;
      i := i + 1;
    }
    r := Decoded(parsed, diagnostics);
  }

  /**
   * One pass of the loop of `parsePacket`: an empty line is skipped, a line
   * the `switch` does not know is reported, and a known one runs its `case`.
   */
  method DecodeLine(parsed: Packet, diagnostics: seq<string>, raw: string) returns (o: Outcome)
    ensures o == Step(Library, Decoded(parsed, diagnostics), raw)
  {
    if raw == "" {
      return Decoded(parsed, diagnostics);
    }
    var line := ParseLine(raw);
    var field := if line.Parsed? then FieldFor(line.obisCode) else None;
    if field.None? {
      return Decoded(parsed, diagnostics + [Diagnostic(raw)]);
    }
    assert Classify(Library, raw) == Store(field.value, line.value, line.unit);
    if field.value == LongPowerFailureLog {
      var log := ParsePowerFailureEventLog(line.value);
      LogOfLine(Library, line.value, line.unit);
      if log.Failure? {
        return Threw(log.error, diagnostics);
      }
      return Decoded(Set(parsed, LongPowerFailureLog, LogSlot(Some(log.value))), diagnostics);
    }
    var slot := Transform(Library, field.value, line.value, line.unit);
    if slot.Failure? {
      return Threw(slot.error, diagnostics);
    }
    return Decoded(Set(parsed, field.value, slot.value), diagnostics);
  }

  /** After an exception no line has any effect. */
  lemma {:induction false} ThrewStays(h: Parsers, e: DecodeError, d: seq<string>, lines: seq<string>)
    ensures Run(h, Threw(e, d), lines) == Threw(e, d)
    decreases |lines|
  {
    if lines != [] {
      ThrewStays(h, e, d, lines[1..]);
    }
  }

  /** Decoding two runs of lines is decoding the first, then the second. */
  lemma {:induction false} RunAppend(h: Parsers, o: Outcome, xs: seq<string>, ys: seq<string>)
    ensures Run(h, o, xs + ys) == Run(h, Run(h, o, xs), ys)
    decreases |xs|
  {
    if xs == [] {
      assert xs + ys == ys;
    } else {
      assert (xs + ys)[1..] == xs[1..] + ys;
      RunAppend(h, Step(h, o, xs[0]), xs[1..], ys);
    }
  }

  /** The last line is decoded last. */
  lemma RunSnoc(h: Parsers, o: Outcome, xs: seq<string>, x: string)
    ensures Run(h, o, xs + [x]) == Step(h, Run(h, o, xs), x)
  {
    RunAppend(h, o, xs, [x]);
  }

  /** An empty line anywhere changes nothing. */
  lemma EmptyLineIgnored(h: Parsers, o: Outcome, xs: seq<string>, ys: seq<string>)
    ensures Run(h, o, xs + [""] + ys) == Run(h, o, xs + ys)
  {
    RunAppend(h, o, xs + [""], ys);
    RunSnoc(h, o, xs, "");
    RunAppend(h, o, xs, ys);
  }

  /** The meter type is never written by a line. */
  lemma {:induction false} RunKeepsMeterType(h: Parsers, p: Packet, d: seq<string>, lines: seq<string>)
    ensures Run(h, Decoded(p, d), lines).Decoded? ==> Run(h, Decoded(p, d), lines).packet.meterType == p.meterType
    decreases |lines|
  {
    if lines != [] {
      var o := Step(h, Decoded(p, d), lines[0]);
      match o
      case Threw(e, d') =>
        ThrewStays(h, e, d', lines[1..]);
      case Decoded(q, d') =>
        if Classify(h, lines[0]).Store? && q != p {
          var a := Classify(h, lines[0]);
          SetKeepsMeterType(p, a.field, Transform(h, a.field, a.value, a.unit).value);
        }
        RunKeepsMeterType(h, q, d', lines[1..]);
    }
  }

  /** The line throws: it selects a field whose helper fails on its value. */
  predicate LineThrows(h: Parsers, line: string) {
    var a := Classify(h, line);
    a.Store? && Transform(h, a.field, a.value, a.unit).Failure?
  }

  /** The exception a throwing line raises. */
  function LineError(h: Parsers, line: string): DecodeError
    requires LineThrows(h, line)
  {
    var a := Classify(h, line);
    Transform(h, a.field, a.value, a.unit).error
  }

  /** The index of the first throwing line, or -1 when none throws. */
  function FirstThrow(h: Parsers, lines: seq<string>): (k: int)
    ensures -1 <= k < |lines|
    ensures k >= 0 ==> LineThrows(h, lines[k]) && forall j :: 0 <= j < k ==> !LineThrows(h, lines[j])
    ensures k < 0 ==> forall j :: 0 <= j < |lines| ==> !LineThrows(h, lines[j])
    decreases |lines|
  {
    if lines == [] then -1
    else if LineThrows(h, lines[0]) then 0
    else
      var k := FirstThrow(h, lines[1..]);
      if k < 0 then -1 else k + 1
  }

  /** The messages reported for the unknown lines, in order. */
  function Reports(h: Parsers, lines: seq<string>): (r: seq<string>)
    ensures |r| <= |lines|
    decreases |lines|
  {
    if lines == [] then []
    else (if Classify(h, lines[0]).Unknown? then [Diagnostic(lines[0])] else []) + Reports(h, lines[1..])
  }

  lemma {:induction false} ReportsAppend(h: Parsers, xs: seq<string>, ys: seq<string>)
    ensures Reports(h, xs + ys) == Reports(h, xs) + Reports(h, ys)
    decreases |xs|
  {
    if xs == [] {
      assert xs + ys == ys;
    } else {
      var here := if Classify(h, xs[0]).Unknown? then [Diagnostic(xs[0])] else [];
      assert (xs + ys)[0] == xs[0];
      assert (xs + ys)[1..] == xs[1..] + ys;
      ReportsAppend(h, xs[1..], ys);
      assert Reports(h, xs + ys) == here + Reports(h, xs[1..] + ys);
      assert Reports(h, xs) == here + Reports(h, xs[1..]);
    }
  }

  /** A line throws, with its exception, or it adds its report when it is unknown. */
  lemma StepThrows(h: Parsers, p: Packet, d: seq<string>, line: string)
    ensures LineThrows(h, line) ==> Step(h, Decoded(p, d), line) == Threw(LineError(h, line), d)
    ensures !LineThrows(h, line) ==>
      && Step(h, Decoded(p, d), line).Decoded?
      && Step(h, Decoded(p, d), line).diagnostics == d + (if Classify(h, line).Unknown? then [Diagnostic(line)] else [])
  {
  }

  /**
   * The decoding throws exactly when some line throws; it then raises the
   * exception of the first such line, after reporting the unknown lines
   * before it. Otherwise it reports every unknown line.
   */
  lemma RunThrows(h: Parsers, p: Packet, d: seq<string>, lines: seq<string>)
    ensures Run(h, Decoded(p, d), lines).Threw? <==> FirstThrow(h, lines) >= 0
    ensures FirstThrow(h, lines) >= 0 ==>
      Run(h, Decoded(p, d), lines)
        == Threw(LineError(h, lines[FirstThrow(h, lines)]), d + Reports(h, lines[..FirstThrow(h, lines)]))
    ensures FirstThrow(h, lines) < 0 ==> Run(h, Decoded(p, d), lines).diagnostics == d + Reports(h, lines)
  {
    if FirstThrow(h, lines) >= 0 {
      RunThrowsAtFirst(h, p, d, lines);
    } else {
      RunWithoutThrow(h, p, d, lines);
    }
  }

  lemma {:induction false} RunThrowsAtFirst(h: Parsers, p: Packet, d: seq<string>, lines: seq<string>)
    requires FirstThrow(h, lines) >= 0
    ensures Run(h, Decoded(p, d), lines)
         == Threw(LineError(h, lines[FirstThrow(h, lines)]), d + Reports(h, lines[..FirstThrow(h, lines)]))
    decreases |lines|, 1
  {
    var line := lines[0];
    if LineThrows(h, line) {
      StepThrows(h, p, d, line);
      ThrewStays(h, LineError(h, line), d, lines[1..]);
      assert lines[..0] == [];
    } else {
      RunThrowsLater(h, p, d, lines);
    }
  }

  /** The first line does not throw, so the exception comes from a later one. */
  lemma {:induction false} RunThrowsLater(h: Parsers, p: Packet, d: seq<string>, lines: seq<string>)
    requires FirstThrow(h, lines) >= 0 && !LineThrows(h, lines[0])
    ensures Run(h, Decoded(p, d), lines)
         == Threw(LineError(h, lines[FirstThrow(h, lines)]), d + Reports(h, lines[..FirstThrow(h, lines)]))
    decreases |lines|, 0
  {
    var line := lines[0];
    var o := Step(h, Decoded(p, d), line);
    StepThrows(h, p, d, line);
    var here := if Classify(h, line).Unknown? then [Diagnostic(line)] else [];
    var d' := d + here;
    assert o == Decoded(o.packet, d');
    var k := FirstThrow(h, lines[1..]);
    assert FirstThrow(h, lines) == k + 1 && lines[k + 1] == lines[1..][k];
    RunThrowsAtFirst(h, o.packet, d', lines[1..]);
    ReportsOfPrefix(h, lines, k);
    AppendAssociative(d, here, Reports(h, lines[1..][..k]));
  }

  lemma AppendAssociative(a: seq<string>, b: seq<string>, c: seq<string>)
    ensures a + (b + c) == (a + b) + c
  {
  }

  /** The reports of the first `k + 1` lines: the first line's, then those of the next `k`. */
  lemma ReportsOfPrefix(h: Parsers, lines: seq<string>, k: nat)
    requires k < |lines|
    ensures Reports(h, lines[..k + 1])
         == (if Classify(h, lines[0]).Unknown? then [Diagnostic(lines[0])] else []) + Reports(h, lines[1..][..k])
  {
    assert lines[..k + 1] == [lines[0]] + lines[1..][..k];
    ReportsAppend(h, [lines[0]], lines[1..][..k]);
    assert [lines[0]][1..] == [];
  }

  lemma {:induction false} RunWithoutThrow(h: Parsers, p: Packet, d: seq<string>, lines: seq<string>)
    requires FirstThrow(h, lines) < 0
    ensures Run(h, Decoded(p, d), lines).Decoded?
    ensures Run(h, Decoded(p, d), lines).diagnostics == d + Reports(h, lines)
    decreases |lines|
  {
    if lines != [] {
      var line := lines[0];
      var o := Step(h, Decoded(p, d), line);
      StepThrows(h, p, d, line);
      var d' := d + (if Classify(h, line).Unknown? then [Diagnostic(line)] else []);
      RunWithoutThrow(h, o.packet, d', lines[1..]);
      AppendAssociative(d, if Classify(h, line).Unknown? then [Diagnostic(line)] else [], Reports(h, lines[1..]));
    }
  }

  /** The line stores into the field. */
  predicate Writes(h: Parsers, line: string, f: Field) {
    Classify(h, line).Store? && Classify(h, line).field == f
  }

  /** The index of the last line that stores into the field, or -1. */
  function LastWriter(h: Parsers, lines: seq<string>, f: Field): (k: int)
    ensures -1 <= k < |lines|
    ensures k >= 0 ==> Writes(h, lines[k], f) && forall j :: k < j < |lines| ==> !Writes(h, lines[j], f)
    ensures k < 0 ==> forall j :: 0 <= j < |lines| ==> !Writes(h, lines[j], f)
    decreases |lines|
  {
    if lines == [] then -1
    else if Writes(h, lines[|lines| - 1], f) then |lines| - 1
    else LastWriter(h, lines[..|lines| - 1], f)
  }

  /**
   * Every field of the decoded record holds what the last line that
   * selects it stored, or its value before the loop when no line does.
   */
  lemma FinalValue(h: Parsers, p: Packet, d: seq<string>, lines: seq<string>, f: Field)
    requires Run(h, Decoded(p, d), lines).Decoded?
    ensures LastWriter(h, lines, f) < 0 ==> Get(Run(h, Decoded(p, d), lines).packet, f) == Get(p, f)
    ensures LastWriter(h, lines, f) >= 0 ==>
      var a := Classify(h, lines[LastWriter(h, lines, f)]);
      Transform(h, f, a.value, a.unit) == Success(Get(Run(h, Decoded(p, d), lines).packet, f))
  {
    if LastWriter(h, lines, f) < 0 {
      Untouched(h, p, d, lines, f);
    } else {
      LastWriterWins(h, p, d, lines, f);
    }
  }

  /** The packet after a line, when the line does not throw: the line's slot stored, or no change. */
  lemma StepStores(h: Parsers, p: Packet, d: seq<string>, line: string)
    requires Step(h, Decoded(p, d), line).Decoded?
    ensures Classify(h, line).Store? ==>
      var a := Classify(h, line);
      && Transform(h, a.field, a.value, a.unit).Success?
      && Step(h, Decoded(p, d), line).packet == Set(p, a.field, Transform(h, a.field, a.value, a.unit).value)
    ensures !Classify(h, line).Store? ==> Step(h, Decoded(p, d), line).packet == p
  {
  }

  /** The run up to the last line, and the last line decoded after it. */
  lemma RunInit(h: Parsers, p: Packet, d: seq<string>, lines: seq<string>)
    requires lines != [] && Run(h, Decoded(p, d), lines).Decoded?
    ensures Run(h, Decoded(p, d), lines[..|lines| - 1]).Decoded?
    ensures Run(h, Decoded(p, d), lines)
         == Step(h, Run(h, Decoded(p, d), lines[..|lines| - 1]), lines[|lines| - 1])
  {
    var n := |lines| - 1;
    assert lines == lines[..n] + [lines[n]];
    RunSnoc(h, Decoded(p, d), lines[..n], lines[n]);
  }

  lemma {:induction false} Untouched(h: Parsers, p: Packet, d: seq<string>, lines: seq<string>, f: Field)
    requires Run(h, Decoded(p, d), lines).Decoded?
    requires LastWriter(h, lines, f) < 0
    ensures Get(Run(h, Decoded(p, d), lines).packet, f) == Get(p, f)
    decreases |lines|
  {
    if lines != [] {
      var init := lines[..|lines| - 1];
      var line := lines[|lines| - 1];
      RunInit(h, p, d, lines);
      var q := Run(h, Decoded(p, d), init).packet;
      var qd := Run(h, Decoded(p, d), init).diagnostics;
      StepStores(h, q, qd, line);
      Untouched(h, p, d, init, f);
      var a := Classify(h, line);
      if a.Store? {
        GetSet(q, a.field, Transform(h, a.field, a.value, a.unit).value, f);
      }
    }
  }

  lemma {:induction false} LastWriterWins(h: Parsers, p: Packet, d: seq<string>, lines: seq<string>, f: Field)
    requires Run(h, Decoded(p, d), lines).Decoded?
    requires LastWriter(h, lines, f) >= 0
    ensures
      var a := Classify(h, lines[LastWriter(h, lines, f)]);
      Transform(h, f, a.value, a.unit) == Success(Get(Run(h, Decoded(p, d), lines).packet, f))
    decreases |lines|
  {
    var n := |lines| - 1;
    var init := lines[..n];
    var line := lines[n];
    RunInit(h, p, d, lines);
    var q := Run(h, Decoded(p, d), init).packet;
    var qd := Run(h, Decoded(p, d), init).diagnostics;
    StepStores(h, q, qd, line);
    var a := Classify(h, line);
    if a.Store? {
      GetSet(q, a.field, Transform(h, a.field, a.value, a.unit).value, f);
    }
    if !Writes(h, line, f) {
      LastWriterWins(h, p, d, init, f);
      assert init[LastWriter(h, init, f)] == lines[LastWriter(h, lines, f)];
    }
  }

  /** A line the `switch` does not know is reported once and changes nothing else. */
  lemma UnknownLine(h: Parsers, p: Packet, d: seq<string>, line: string)
    requires Classify(h, line).Unknown?
    ensures Step(h, Decoded(p, d), line) == Decoded(p, d + [Diagnostic(line)])
    ensures Reports(h, [line]) == [Diagnostic(line)]
  {
  }

  /**
   * When no data line selects a field, the packet decodes to the initial
   * record with the meter type of its first line.
   */
  lemma NothingStored(text: string)
    requires forall j :: 0 <= j < |From(SplitLines(text), 2)| ==> !Classify(Library, From(SplitLines(text), 2)[j]).Store?
    ensures DecodePacket(text).Decoded?
    ensures DecodePacket(text).packet == Initial(DropFirst(SplitLines(text)[0]))
  {
    var lines := From(SplitLines(text), 2);
    var m := DropFirst(SplitLines(text)[0]);
    DecodeThrows(text);
    assert FirstThrow(Library, lines) < 0;
    var q := DecodePacket(text).packet;
    forall f: Field
      ensures Get(q, f) == Get(Initial(m), f)
    {
      Untouched(Library, Initial(m), [], lines, f);
    }
    DecodedMeterType(text);
    FieldsDetermineRecord(q, Initial(m));
  }

  /** What the decoder returns for a packet of two lines or fewer: the empty record. */
  lemma NoDataLines(text: string)
    requires |SplitLines(text)| <= 2
    ensures DecodePacket(text) == Decoded(Initial(DropFirst(SplitLines(text)[0])), [])
  {
  }

  /**
   * A packet joined from lines with any line endings decodes its third and
   * later lines, whatever its second line holds, and takes its meter type
   * from its first line.
   */
  lemma DecodeJoinedLines(lines: seq<string>, endings: seq<string>)
    requires |lines| == |endings| + 1
    requires forall k :: 0 <= k < |lines| ==> NoBreaks(lines[k])
    requires forall k :: 0 <= k < |endings| ==> IsLineEnding(endings[k])
    requires Separable(lines, endings)
    ensures DecodePacket(Interleave(lines, endings)) == Run(Library, Decoded(Initial(DropFirst(lines[0])), []), From(lines, 2))
  {
    SplitLinesInterleave(lines, endings);
  }

  /** The meter type of a decoded packet is its first line without the leading `/`. */
  lemma DecodedMeterType(text: string)
    ensures DecodePacket(text).Decoded? ==> DecodePacket(text).packet.meterType == DropFirst(SplitLines(text)[0])
  {
    var lines := SplitLines(text);
    RunKeepsMeterType(Library, Initial(DropFirst(lines[0])), [], From(lines, 2));
  }

  /**
   * Decoding a packet throws exactly when one of its data lines throws, and
   * then with the first one's exception; it reports every unknown data line.
   */
  lemma DecodeThrows(text: string)
    ensures DecodePacket(text).Threw? <==> FirstThrow(Library, From(SplitLines(text), 2)) >= 0
    ensures var data := From(SplitLines(text), 2); var k := FirstThrow(Library, data);
      k >= 0 ==> DecodePacket(text) == Threw(LineError(Library, data[k]), Reports(Library, data[..k]))
    ensures DecodePacket(text).Decoded? ==> DecodePacket(text).diagnostics == Reports(Library, From(SplitLines(text), 2))
  {
    var lines := SplitLines(text);
    var data := From(lines, 2);
    RunThrows(Library, Initial(DropFirst(lines[0])), [], data);
    var k := FirstThrow(Library, data);
    if k >= 0 {
      assert [] + Reports(Library, data[..k]) == Reports(Library, data[..k]);
    }
  }

  /**
   * A field of a decoded packet is `null` when no data line selects it, and
   * otherwise holds what the last data line selecting it stored.
   */
  lemma DecodedField(text: string, f: Field)
    requires DecodePacket(text).Decoded?
    ensures LastWriter(Library, From(SplitLines(text), 2), f) < 0 ==> Get(DecodePacket(text).packet, f) == EmptySlot(f)
    ensures LastWriter(Library, From(SplitLines(text), 2), f) >= 0 ==>
      var a := Classify(Library, From(SplitLines(text), 2)[LastWriter(Library, From(SplitLines(text), 2), f)]);
      Transform(Library, f, a.value, a.unit) == Success(Get(DecodePacket(text).packet, f))
  {
    var lines := SplitLines(text);
    var m := DropFirst(lines[0]);
    FinalValue(Library, Initial(m), [], From(lines, 2), f);
    InitialIsEmpty(m, f);
  }

  /**
   * A reading and its unit always come from the same line: the last line
   * with the reading's code, or neither is set.
   */
  lemma ReadingFromOneLine(h: Parsers, p: Packet, d: seq<string>, lines: seq<string>, f: Field)
    requires IsReading(f)
    requires Run(h, Decoded(p, d), lines).Decoded?
    ensures LastWriter(h, lines, f) >= 0 ==>
      var a := Classify(h, lines[LastWriter(h, lines, f)]);
      Get(Run(h, Decoded(p, d), lines).packet, f) == QuantitySlot(Quantity(Some(h.number(a.value)), a.unit))
  {
    FinalValue(h, p, d, lines, f);
    var k := LastWriter(h, lines, f);
    if k >= 0 {
      var a := Classify(h, lines[k]);
      ReadingOfLine(h, f, a.value, a.unit);
    }
  }
}
