/**
 * The long power failure event log carried by OBIS code 1-0:99.97.0: a
 * count, the marker `)(0-0:96.7.19)(`, then alternating end-of-failure time
 * stamps and `duration*unit` tokens separated by `)(`.
 */
module PowerFailureLog {
  import opened Wrappers
  import opened JsString
  import opened JsNumber
  import opened Timestamp

  /** The text between the count and the first time stamp. */
  const Marker: string := ")(0-0:96.7.19)("

  /** The separator between the tokens of the log. */
  const Separator: string := ")("

  /** One failure: when it ended, how long it lasted and in what unit. */
  datatype LogEntry = LogEntry(endOfFailure: DateFields, duration: JsInt, unit: Option<string>)

  /** The decoded log: the count the meter reports and the entries found. */
  datatype EventLog = EventLog(count: int, log: seq<LogEntry>)

  /** `parseInt(text) || 0`: not-a-number (and zero) become 0. */
  function CountOf(text: string): int {
    match ParseInt(text)
    case IntNaN => 0
    case Int(v) => v
  }

  /** A count sent as decimal digits is read as its value. */
  lemma CountOfDecimal(n: nat)
    ensures CountOf(NatToDecimal(n)) == n
  {
    ParseIntOfDecimal(n);
  }

  /** A count that does not start with white space, a sign or a digit is 0, as `NaN || 0` is. */
  lemma CountOfNoDigit(text: string)
    requires text == "" || (!IsWhiteSpace(text[0]) && !IsDigit(text[0]) && text[0] != '+' && text[0] != '-')
    ensures CountOf(text) == 0
  {
    ParseIntNoDigit(text);
  }

  /** Positions `p` and `p + 1` both hold a non-empty token. */
  predicate IsPair(tokens: seq<string>, p: nat) {
    Truthy(tokens, p) && Truthy(tokens, p + 1)
  }

  /**
   * The entry made from a time stamp token and a duration token: the
   * duration is `parseInt` of the text before the first `*`, the unit the
   * text between the first and the second `*`; an invalid time stamp throws.
   */
  function Entry(timestamp: string, duration: string): Result<LogEntry, DecodeError> {
    var endOfFailure :- ParseTimestamp(timestamp);
    var parts := Split(duration, "*");
    Success(LogEntry(endOfFailure, ParseInt(parts[0]), At(parts, 1)))
  }

  /**
   * An entry fails exactly when its time stamp does; otherwise it holds the
   * decoded time stamp, the duration before the first `*` and a unit
   * exactly when the duration token has a `*`.
   */
  lemma EntryParts(timestamp: string, duration: string)
    ensures var r := Entry(timestamp, duration);
      && (r.Failure? <==> ParseTimestamp(timestamp).Failure?)
      && (r.Success? ==> r.value.endOfFailure == ParseTimestamp(timestamp).value)
      && (r.Success? ==> r.value.duration == ParseInt(Split(duration, "*")[0]))
      && (r.Success? ==> (r.value.unit.Some? <==> Contains(duration, "*")))
  {
    if !Contains(duration, "*") {
      SplitNone(duration, "*");
    }
  }

  /**
   * The duration is read from the text before the first `*`, and the unit
   * is the text between the first and the second `*`; what follows the
   * second `*` is dropped.
   */
  lemma EntryUnitStopsAtSecondStar(timestamp: string, duration: string, unit: string, more: string)
    requires '*' !in duration && '*' !in unit
    ensures Entry(timestamp, duration + "*" + unit + "*" + more)
         == match ParseTimestamp(timestamp)
            case Failure(e) => Failure(e)
            case Success(t) => Success(LogEntry(t, ParseInt(duration), Some(unit)))
  {
    var parts := Split(duration + "*" + unit + "*" + more, "*");
    SplitTwoStars(duration, unit, more);
    assert parts[0] == duration && At(parts, 1) == Some(unit);
  }

  /** A duration token `digits*unit` gives the digits' value and the unit. */
  lemma EntryOfTokens(timestamp: string, digits: string, unit: string)
    requires ParseTimestamp(timestamp).Success?
    requires digits != "" && AllDigits(digits) && '*' !in unit
    ensures Entry(timestamp, digits + "*" + unit)
         == Success(LogEntry(ParseTimestamp(timestamp).value, Int(DigitsValue(digits, false)), Some(unit)))
  {
    DurationOfTokens(digits, unit);
  }

  /** `digits*unit` splits at its one `*`, and its digits read as their value. */
  lemma DurationOfTokens(digits: string, unit: string)
    requires digits != "" && AllDigits(digits) && '*' !in unit
    ensures Split(digits + "*" + unit, "*") == [digits, unit]
    ensures ParseInt(digits) == Int(DigitsValue(digits, false))
  {
    assert '*' !in digits by {
      assert forall k :: 0 <= k < |digits| ==> IsDigit(digits[k]);
    }
    assert Join([digits, unit], "*") == digits + "*" + unit;
    SplitJoinChar([digits, unit], '*');
    assert digits + "" == digits;
    ParseIntDigits(digits, "");
  }

  /** How one pair of tokens becomes an entry; the decoder uses `Entry`. */
  type PairDecoder = (string, string) -> Result<LogEntry, DecodeError>

  /** `entry` in front of the entries of `rest`; an error in `entry` comes first. */
  function Cons(entry: Result<LogEntry, DecodeError>, rest: Result<seq<LogEntry>, DecodeError>): Result<seq<LogEntry>, DecodeError> {
    match entry
    case Failure(e) => Failure(e)
    case Success(v) => Prepend([v], rest)
  }

  /** `log` followed by the entries of `rest`, or the error of `rest`. */
  function Prepend(log: seq<LogEntry>, rest: Result<seq<LogEntry>, DecodeError>): Result<seq<LogEntry>, DecodeError> {
    match rest
    case Success(entries) => Success(log + entries)
    case Failure(e) => Failure(e)
  }

  lemma PrependNothing(rest: Result<seq<LogEntry>, DecodeError>)
    ensures Prepend([], rest) == rest
  {
    if rest.Success? {
      assert [] + rest.value == rest.value;
    }
  }

  /**
   * The entries the loop collects from position `i` on, stepping by two
   * while `i <= |tokens|`; the first pair that fails ends the decode.
   */
  function EntriesFrom(tokens: seq<string>, i: nat, decode: PairDecoder): Result<seq<LogEntry>, DecodeError>
    decreases |tokens| + 2 - i
  {
    if i > |tokens| then Success([])
    else if IsPair(tokens, i) then Cons(decode(tokens[i], tokens[i + 1]), EntriesFrom(tokens, i + 2, decode))
    else EntriesFrom(tokens, i + 2, decode)
  }

  /** One step of the loop: the pair at `i`, if any, joins the entries already collected. */
  lemma EntriesStep(tokens: seq<string>, i: nat, decode: PairDecoder, log: seq<LogEntry>)
    requires i <= |tokens|
    ensures !IsPair(tokens, i) ==>
              Prepend(log, EntriesFrom(tokens, i, decode)) == Prepend(log, EntriesFrom(tokens, i + 2, decode))
    ensures IsPair(tokens, i) && decode(tokens[i], tokens[i + 1]).Failure? ==>
              Prepend(log, EntriesFrom(tokens, i, decode)) == Failure(decode(tokens[i], tokens[i + 1]).error)
    ensures IsPair(tokens, i) && decode(tokens[i], tokens[i + 1]).Success? ==>
              Prepend(log, EntriesFrom(tokens, i, decode))
              == Prepend(log + [decode(tokens[i], tokens[i + 1]).value], EntriesFrom(tokens, i + 2, decode))
  {
    if IsPair(tokens, i) && decode(tokens[i], tokens[i + 1]).Success? {
      var entry := decode(tokens[i], tokens[i + 1]).value;
      var rest := EntriesFrom(tokens, i + 2, decode);
      if rest.Success? {
        assert log + ([entry] + rest.value) == (log + [entry]) + rest.value;
      }
    }
  }

  /** The tokens after the marker, or none when nothing (or "") follows it. */
  function Tokens(value: string): seq<string> {
    var split := Split(value, Marker);
    if Truthy(split, 1) then Split(split[1], Separator) else []
  }

  /** The log a value decodes to. */
  function PowerFailureEventLog(value: string): Result<EventLog, DecodeError> {
    var entries :- EntriesFrom(Tokens(value), 0, Entry);
    Success(EventLog(CountOf(Split(value, Marker)[0]), entries))
  }

  /** The decoder as the source writes it: a loop over the tokens that pushes each entry. */
  method ParsePowerFailureEventLog(value: string) returns (r: Result<EventLog, DecodeError>)
    ensures r == PowerFailureEventLog(value)
  {
    var split := Split(value, Marker);
    var count := CountOf(split[0]);
    var log: seq<LogEntry> := [];
    if Truthy(split, 1) {
      var tokens := Split(split[1], Separator);
      var i := 0;
      PrependNothing(EntriesFrom(tokens, 0, Entry));
      while i <= |tokens|
        invariant i <= |tokens| + 2
        invariant EntriesFrom(tokens, 0, Entry) == Prepend(log, EntriesFrom(tokens, i, Entry))
        decreases |tokens| + 2 - i
      {
        EntriesStep(tokens, i, Entry, log);
        if Truthy(tokens, i) && Truthy(tokens, i + 1) {
          var entry := Entry(tokens[i], tokens[i + 1]);
          if entry.Failure? {
            return Failure(entry.error);
          }
          log := log + [entry.value];
        }
        i := i + 2;
      }
      assert log + [] == log;
    } else {
      assert EntriesFrom([], 2, Entry) == Success([]);
    }
    return Success(EventLog(count, log));
  }

  /**
   * The positions from `i` on, in the loop's steps of two, where a pair
   * begins.
   */
  function PairStarts(tokens: seq<string>, i: nat): (r: seq<nat>)
    ensures forall k :: 0 <= k < |r| ==> r[k] + 1 < |tokens|
    decreases |tokens| + 2 - i
  {
    if i > |tokens| then []
    else if IsPair(tokens, i) then [i] + PairStarts(tokens, i + 2)
    else PairStarts(tokens, i + 2)
  }

  /** Every pair start is a pair on the loop's grid. */
  lemma {:induction false} PairStartsArePairs(tokens: seq<string>, i: nat)
    ensures forall k :: 0 <= k < |PairStarts(tokens, i)| ==>
      var p := PairStarts(tokens, i)[k]; IsPair(tokens, p) && i <= p && p % 2 == i % 2
    decreases |tokens| + 2 - i
  {
    if i <= |tokens| {
      PairStartsArePairs(tokens, i + 2);
      var rest := PairStarts(tokens, i + 2);
      assert (i + 2) % 2 == i % 2;
      if IsPair(tokens, i) {
        var r := [i] + rest;
        assert PairStarts(tokens, i) == r;
        assert forall k :: 0 < k < |r| ==> r[k] == rest[k - 1];
      } else {
        assert PairStarts(tokens, i) == rest;
      }
    }
  }

  /** The pair starts come in increasing order. */
  lemma {:induction false} PairStartsIncrease(tokens: seq<string>, i: nat)
    ensures forall k, j :: 0 <= k < j < |PairStarts(tokens, i)| ==> PairStarts(tokens, i)[k] < PairStarts(tokens, i)[j]
    decreases |tokens| + 2 - i
  {
    if i <= |tokens| {
      PairStartsIncrease(tokens, i + 2);
      PairStartsArePairs(tokens, i + 2);
      var rest := PairStarts(tokens, i + 2);
      if IsPair(tokens, i) {
        var r := [i] + rest;
        assert PairStarts(tokens, i) == r;
        assert forall k :: 0 < k < |r| ==> r[k] == rest[k - 1];
      } else {
        assert PairStarts(tokens, i) == rest;
      }
    }
  }

  /** Every pair on the loop's grid is a pair start. */
  lemma {:induction false} PairStartsAreAllPairs(tokens: seq<string>, i: nat)
    ensures forall p: nat :: i <= p && p % 2 == i % 2 && IsPair(tokens, p) ==> p in PairStarts(tokens, i)
    decreases |tokens| + 2 - i
  {
    if i <= |tokens| {
      PairStartsAreAllPairs(tokens, i + 2);
      var rest := PairStarts(tokens, i + 2);
      assert (i + 2) % 2 == i % 2;
      forall p: nat | i <= p && p % 2 == i % 2 && IsPair(tokens, p)
        ensures p in PairStarts(tokens, i)
      {
        if p == i {
          assert PairStarts(tokens, i) == [i] + rest;
        } else {
          assert i + 2 <= p;
          assert p in rest;
        }
      }
    }
  }

  /** `entries` are the pairs starting at `ps`, each decoded, in order. */
  predicate MadeFromPairs(tokens: seq<string>, ps: seq<nat>, decode: PairDecoder, entries: seq<LogEntry>)
    requires forall k :: 0 <= k < |ps| ==> ps[k] + 1 < |tokens|
  {
    && |entries| == |ps|
    && forall k :: 0 <= k < |ps| ==> decode(tokens[ps[k]], tokens[ps[k] + 1]) == Success(entries[k])
  }

  /** Some pair starting at `ps` has an invalid time stamp. */
  predicate HasBadTimestamp(tokens: seq<string>, ps: seq<nat>)
    requires forall k :: 0 <= k < |ps| ==> ps[k] + 1 < |tokens|
  {
    exists k :: 0 <= k < |ps| && ParseTimestamp(tokens[ps[k]]).Failure?
  }

  /** The entries made from the pairs starting at `ps`, one after the other. */
  function EntriesAt(tokens: seq<string>, ps: seq<nat>, decode: PairDecoder): Result<seq<LogEntry>, DecodeError>
    requires forall k :: 0 <= k < |ps| ==> ps[k] + 1 < |tokens|
  {
    if ps == [] then Success([])
    else Cons(decode(tokens[ps[0]], tokens[ps[0] + 1]), EntriesAt(tokens, ps[1..], decode))
  }

  /** The loop's entries are those of the pair starts. */
  lemma {:induction false} EntriesFromPairStarts(tokens: seq<string>, i: nat, decode: PairDecoder)
    ensures EntriesFrom(tokens, i, decode) == EntriesAt(tokens, PairStarts(tokens, i), decode)
    decreases |tokens| + 2 - i
  {
    if i <= |tokens| {
      EntriesFromPairStarts(tokens, i + 2, decode);
      if IsPair(tokens, i) {
        var ps := [i] + PairStarts(tokens, i + 2);
        assert PairStarts(tokens, i) == ps;
        assert ps[1..] == PairStarts(tokens, i + 2);
      }
    }
  }

  /** The entries are made from the pairs, one each, in order. */
  lemma {:induction false} EntriesAreThePairs(tokens: seq<string>, ps: seq<nat>, decode: PairDecoder)
    requires forall k :: 0 <= k < |ps| ==> ps[k] + 1 < |tokens|
    ensures EntriesAt(tokens, ps, decode).Success? ==> MadeFromPairs(tokens, ps, decode, EntriesAt(tokens, ps, decode).value)
  {
    if ps != [] {
      EntriesAreThePairs(tokens, ps[1..], decode);
      var rest := EntriesAt(tokens, ps[1..], decode);
      var first := decode(tokens[ps[0]], tokens[ps[0] + 1]);
      if first.Success? && rest.Success? {
        var v := [first.value] + rest.value;
        assert EntriesAt(tokens, ps, decode) == Success(v);
        forall k | 0 < k < |ps|
          ensures decode(tokens[ps[k]], tokens[ps[k] + 1]) == Success(v[k])
        {
          assert ps[k] == ps[1..][k - 1];
          assert v[k] == rest.value[k - 1];
        }
      }
    }
  }

  /** The decode fails exactly when one of the pairs fails. */
  lemma {:induction false} EntriesFailAtABadPair(tokens: seq<string>, ps: seq<nat>, decode: PairDecoder)
    requires forall k :: 0 <= k < |ps| ==> ps[k] + 1 < |tokens|
    ensures EntriesAt(tokens, ps, decode).Failure? <==>
      exists k :: 0 <= k < |ps| && decode(tokens[ps[k]], tokens[ps[k] + 1]).Failure?
  {
    if ps != [] {
      EntriesFailAtABadPair(tokens, ps[1..], decode);
      assert forall k :: 0 < k < |ps| ==> ps[k] == ps[1..][k - 1];
      assert forall k :: 0 <= k < |ps| - 1 ==> ps[1..][k] == ps[k + 1];
    }
  }

  /** At most one entry per two tokens. */
  lemma {:induction false} EntriesBound(tokens: seq<string>, i: nat, decode: PairDecoder)
    ensures EntriesFrom(tokens, i, decode).Success? ==>
      EntriesFrom(tokens, i, decode).value == [] || 2 * |EntriesFrom(tokens, i, decode).value| + i <= |tokens|
    decreases |tokens| + 2 - i
  {
    if i <= |tokens| {
      EntriesBound(tokens, i + 2, decode);
    }
  }

  /** With no marker, or nothing after it, the log is empty and only the count is read. */
  lemma NoTokensNoLog(value: string)
    requires !Truthy(Split(value, Marker), 1)
    ensures PowerFailureEventLog(value) == Success(EventLog(CountOf(Split(value, Marker)[0]), []))
  {
    assert EntriesFrom([], 2, Entry) == Success([]);
  }

  /** Without the marker the whole value is the count. */
  lemma NoMarkerNoLog(value: string)
    requires !Contains(value, Marker)
    ensures PowerFailureEventLog(value) == Success(EventLog(CountOf(value), []))
  {
    SplitNone(value, Marker);
    NoTokensNoLog(value);
  }

  /** The decode throws exactly when the time stamp of one of the pairs is invalid. */
  lemma EventLogFailsAtABadTimestamp(value: string)
    ensures PowerFailureEventLog(value).Failure? <==> HasBadTimestamp(Tokens(value), PairStarts(Tokens(value), 0))
  {
    var tokens := Tokens(value);
    var ps := PairStarts(tokens, 0);
    EntriesFromPairStarts(tokens, 0, Entry);
    EntriesFailAtABadPair(tokens, ps, Entry);
    forall k | 0 <= k < |ps|
      ensures Entry(tokens[ps[k]], tokens[ps[k] + 1]).Failure? <==> ParseTimestamp(tokens[ps[k]]).Failure?
    {
      EntryParts(tokens[ps[k]], tokens[ps[k] + 1]);
    }
  }

  /**
   * A decoded log holds the count read before the marker and one entry per
   * pair of non-empty tokens at positions 0-1, 2-3, ... in order, so at
   * most half as many entries as tokens.
   */
  lemma EventLogIsThePairs(value: string)
    ensures PowerFailureEventLog(value).Success? ==>
      && PowerFailureEventLog(value).value.count == CountOf(Split(value, Marker)[0])
      && MadeFromPairs(Tokens(value), PairStarts(Tokens(value), 0), Entry, PowerFailureEventLog(value).value.log)
      && 2 * |PowerFailureEventLog(value).value.log| <= |Tokens(value)|
  {
    var tokens := Tokens(value);
    var ps := PairStarts(tokens, 0);
    EntriesFromPairStarts(tokens, 0, Entry);
    EntriesAreThePairs(tokens, ps, Entry);
    EntriesBound(tokens, 0, Entry);
  }

  /** The tokens of a sequence of (time stamp, duration) pairs, in order. */
  function Flatten(pairs: seq<(string, string)>): (r: seq<string>)
    ensures |r| == 2 * |pairs|
  {
    if pairs == [] then [] else [pairs[0].0, pairs[0].1] + Flatten(pairs[1..])
  }

  /** Tokens in front move the loop's positions along without changing what it collects. */
  lemma {:induction false} EntriesFromShift(xs: seq<string>, rest: seq<string>, i: nat, decode: PairDecoder)
    ensures EntriesFrom(xs + rest, |xs| + i, decode) == EntriesFrom(rest, i, decode)
    decreases |rest| + 2 - i
  {
    if i <= |rest| {
      EntriesFromShift(xs, rest, i + 2, decode);
      assert IsPair(xs + rest, |xs| + i) == IsPair(rest, i);
      if IsPair(rest, i) {
        assert (xs + rest)[|xs| + i] == rest[i];
        assert (xs + rest)[|xs| + i + 1] == rest[i + 1];
      }
    }
  }

  /** When every pair decodes, the loop collects the decoded pairs in order. */
  lemma {:induction false} EntriesOfFlatten(pairs: seq<(string, string)>, decode: PairDecoder, entries: seq<LogEntry>)
    requires forall k :: 0 <= k < |pairs| ==> pairs[k].0 != "" && pairs[k].1 != ""
    requires |entries| == |pairs|
    requires forall k :: 0 <= k < |pairs| ==> decode(pairs[k].0, pairs[k].1) == Success(entries[k])
    ensures EntriesFrom(Flatten(pairs), 0, decode) == Success(entries)
  {
    if pairs == [] {
      assert EntriesFrom([], 2, decode) == Success([]);
    } else {
      var tokens := Flatten(pairs);
      var head := [pairs[0].0, pairs[0].1];
      assert tokens == head + Flatten(pairs[1..]);
      EntriesOfFlatten(pairs[1..], decode, entries[1..]);
      EntriesFromShift(head, Flatten(pairs[1..]), 0, decode);
      assert IsPair(tokens, 0);
      assert entries == [entries[0]] + entries[1..];
    }
  }

  /** Tokens that lack a character leave it out of the flattened sequence. */
  lemma {:induction false} FlattenLacksChar(pairs: seq<(string, string)>, c: char)
    requires forall k :: 0 <= k < |pairs| ==> c !in pairs[k].0 && c !in pairs[k].1
    ensures forall k :: 0 <= k < |Flatten(pairs)| ==> c !in Flatten(pairs)[k]
  {
    if pairs != [] {
      FlattenLacksChar(pairs[1..], c);
      assert Flatten(pairs) == [pairs[0].0, pairs[0].1] + Flatten(pairs[1..]);
    }
  }

  /**
   * A count, the marker and then time stamp and duration tokens joined by
   * `)(` split back into that count and those tokens, in order, as long as
   * the count has no `)` and the tokens are non-empty and have neither `)`
   * nor `-`.
   */
  lemma EventLogTokens(countText: string, pairs: seq<(string, string)>)
    requires ')' !in countText && |pairs| >= 1
    requires forall k :: 0 <= k < |pairs| ==> pairs[k].0 != "" && pairs[k].1 != ""
    requires forall k :: 0 <= k < |pairs| ==> ')' !in pairs[k].0 && ')' !in pairs[k].1
    requires forall k :: 0 <= k < |pairs| ==> '-' !in pairs[k].0 && '-' !in pairs[k].1
    ensures Split(countText + Marker + Join(Flatten(pairs), Separator), Marker)[0] == countText
    ensures Tokens(countText + Marker + Join(Flatten(pairs), Separator)) == Flatten(pairs)
  {
    var tokens := Flatten(pairs);
    var body := Join(tokens, Separator);
    var value := countText + Marker + body;
    FlattenLacksChar(pairs, ')');
    FlattenLacksChar(pairs, '-');
    JoinLacksChar(tokens, Separator, '-');
    FirstAfterStart(countText, Marker, body);
    MissingCharNotContained(body, Marker, '-');
    SplitNone(body, Marker);
    SplitAt(countText, Marker, body);
    assert Split(value, Marker) == [countText, body];
    forall k | 0 <= k < |tokens|
      ensures !Contains(tokens[k], Separator)
    {
      MissingCharNotContained(tokens[k], Separator, ')');
    }
    SplitJoinPair(tokens, Separator);
    assert tokens[0] != "";
    assert body != "" by {
      assert |body| >= |tokens[0]|;
    }
  }

  /** The log is the count before the marker and the entries the tokens after it decode to. */
  lemma EventLogOfEntries(value: string, entries: seq<LogEntry>)
    requires EntriesFrom(Tokens(value), 0, Entry) == Success(entries)
    ensures PowerFailureEventLog(value) == Success(EventLog(CountOf(Split(value, Marker)[0]), entries))
  {
  }

  /**
   * Such a value decodes to the count and one entry per pair, in order,
   * when every pair decodes.
   */
  lemma EventLogRoundTrip(countText: string, pairs: seq<(string, string)>, entries: seq<LogEntry>)
    requires ')' !in countText && |pairs| >= 1
    requires forall k :: 0 <= k < |pairs| ==> pairs[k].0 != "" && pairs[k].1 != ""
    requires forall k :: 0 <= k < |pairs| ==> ')' !in pairs[k].0 && ')' !in pairs[k].1
    requires forall k :: 0 <= k < |pairs| ==> '-' !in pairs[k].0 && '-' !in pairs[k].1
    requires |entries| == |pairs|
    requires forall k :: 0 <= k < |pairs| ==> Entry(pairs[k].0, pairs[k].1) == Success(entries[k])
    ensures PowerFailureEventLog(countText + Marker + Join(Flatten(pairs), Separator))
         == Success(EventLog(CountOf(countText), entries))
  {
    var value := countText + Marker + Join(Flatten(pairs), Separator);
    EventLogTokens(countText, pairs);
    EntriesOfFlatten(pairs, Entry, entries);
    EventLogOfEntries(value, entries);
  }

  /**
   * The count is read from the text before the marker, not counted: a
   * value that announces `n` failures decodes to count `n` whatever the
   * number of entries that follow.
   */
  lemma CountIsRead(n: nat, pairs: seq<(string, string)>, entries: seq<LogEntry>)
    requires |pairs| >= 1
    requires forall k :: 0 <= k < |pairs| ==> pairs[k].0 != "" && pairs[k].1 != ""
    requires forall k :: 0 <= k < |pairs| ==> ')' !in pairs[k].0 && ')' !in pairs[k].1
    requires forall k :: 0 <= k < |pairs| ==> '-' !in pairs[k].0 && '-' !in pairs[k].1
    requires |entries| == |pairs|
    requires forall k :: 0 <= k < |pairs| ==> Entry(pairs[k].0, pairs[k].1) == Success(entries[k])
    ensures PowerFailureEventLog(NatToDecimal(n) + Marker + Join(Flatten(pairs), Separator))
         == Success(EventLog(n, entries))
  {
    var countText := NatToDecimal(n);
    assert ')' !in countText by {
      assert forall k :: 0 <= k < |countText| ==> IsDigit(countText[k]);
    }
    EventLogRoundTrip(countText, pairs, entries);
    ParseIntOfDecimal(n);
  }

  /**
   * A duration sent with leading zeros, `00000000<digits>*s`, reads as the
   * value of its digits in seconds.
   */
  lemma ExampleEntry(timestamp: string, date: DateFields, digits: string, tail: string, n: nat)
    requires ParseTimestamp(timestamp) == Success(date)
    requires digits == seq(8, _ => '0') + tail && tail != "" && AllDigits(tail) && DigitsValue(tail, false) == n
    ensures Entry(timestamp, digits + "*" + "s") == Success(LogEntry(date, Int(n), Some("s")))
  {
    LeadingZeros(8, tail, false);
    EntryOfTokens(timestamp, digits, "s");
  }
}
