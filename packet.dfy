/**
 * `parsePacket` in lib/parsePacket.js: a P1 telegram, split into lines,
 * decoded line by line into a nested record through the OBIS code table.
 */
module Packet {
  import opened Wrappers
  import opened JsString
  import opened JsNumber
  import opened Lines
  import opened Timestamp
  import opened PowerFailureLog
  import HR = HourlyReading
  import opened Obis

  /** A reading and its unit, which the decoder always sets together. */
  datatype Quantity = Quantity(reading: Option<JsFloat>, unit: Option<string>)

  /** The readings in one direction: tariff 1, tariff 2 and the actual power. */
  datatype Tariffs = Tariffs(tariff1: Quantity, tariff2: Quantity, actual: Quantity)

  /** The `{ value, unit }` object the threshold line creates. */
  datatype Limit = Limit(value: JsFloat, unit: Option<string>)

  datatype TextMessage = TextMessage(codes: Option<string>, message: Option<string>)

  datatype Electricity = Electricity(
    received: Tariffs,
    delivered: Tariffs,
    tariffIndicator: Option<JsInt>,
    threshold: Option<Limit>,
    switchPosition: Option<string>,
    numberOfPowerFailures: Option<JsInt>,
    numberOfLongPowerFailures: Option<JsInt>,
    longPowerFailureLog: Option<EventLog>,
    voltageSagsL1: Option<JsInt>,
    voltageSagsL2: Option<JsInt>,
    voltageSagsL3: Option<JsInt>,
    voltageSwellL1: Option<JsInt>,
    voltageSwellL2: Option<JsInt>,
    voltageSwellL3: Option<JsInt>)

  /** The meter assumed to be on M-Bus 1. */
  datatype Gas = Gas(
    deviceType: Option<string>,
    equipmentId: Option<string>,
    timestamp: Option<DateFields>,
    reading: Option<JsFloat>,
    unit: Option<string>,
    valvePosition: Option<string>)

  /** The decoded packet; `None` is a field that is still `null` (or a unit that is `undefined`). */
  datatype Packet = Packet(
    meterType: string,
    version: Option<string>,
    timestamp: Option<DateFields>,
    equipmentId: Option<string>,
    textMessage: TextMessage,
    electricity: Electricity,
    gas: Gas)

  const NoQuantity: Quantity := Quantity(None, None)
  const NoTariffs: Tariffs := Tariffs(NoQuantity, NoQuantity, NoQuantity)

  /** The record the decoder starts from: every field `null` except the meter type. */
  function Initial(meterType: string): Packet {
    Packet(meterType, None, None, None, TextMessage(None, None),
      Electricity(NoTariffs, NoTariffs, None, None, None, None, None, None, None, None, None, None, None, None),
      Gas(None, None, None, None, None, None))
  }

  /** What one `case` of the `switch` stores, by the shape of its destination. */
  datatype Slot =
    | TextSlot(text: Option<string>)
    | TimeSlot(time: Option<DateFields>)
    | CountSlot(number: Option<JsInt>)
    | QuantitySlot(quantity: Quantity)
    | ThresholdSlot(limit: Option<Limit>)
    | LogSlot(log: Option<EventLog>)
    | HourlySlot(at: Option<DateFields>, reading: Option<JsFloat>, unit: Option<string>)

  /** The shape of a slot, and of the destination of a field. */
  datatype Shape = TextShape | TimeShape | CountShape | QuantityShape | ThresholdShape | LogShape | HourlyShape

  function ShapeOf(v: Slot): Shape {
    match v
    case TextSlot(_) => TextShape
    case TimeSlot(_) => TimeShape
    case CountSlot(_) => CountShape
    case QuantitySlot(_) => QuantityShape
    case ThresholdSlot(_) => ThresholdShape
    case LogSlot(_) => LogShape
    case HourlySlot(_, _, _) => HourlyShape
  }

  function FieldShape(f: Field): Shape {
    match f
    case Version => TextShape
    case PacketTimestamp => TimeShape
    case EquipmentId => TextShape
    case ReceivedTariff1 => QuantityShape
    case ReceivedTariff2 => QuantityShape
    case DeliveredTariff1 => QuantityShape
    case DeliveredTariff2 => QuantityShape
    case TariffIndicator => CountShape
    case ReceivedActual => QuantityShape
    case DeliveredActual => QuantityShape
    case Threshold => ThresholdShape
    case SwitchPosition => TextShape
    case PowerFailures => CountShape
    case LongPowerFailures => CountShape
    case LongPowerFailureLog => LogShape
    case VoltageSagsL1 => CountShape
    case VoltageSagsL2 => CountShape
    case VoltageSagsL3 => CountShape
    case VoltageSwellL1 => CountShape
    case VoltageSwellL2 => CountShape
    case VoltageSwellL3 => CountShape
    case MessageCodes => TextShape
    case MessageText => TextShape
    case GasDeviceType => TextShape
    case GasEquipmentId => TextShape
    case GasHourlyReading => HourlyShape
    case GasValvePosition => TextShape
  }

  /** The slot has the shape of the field's destination. */
  predicate Fits(f: Field, v: Slot) {
    ShapeOf(v) == FieldShape(f)
  }

  /** The destination of a field in the record. */
  function Get(p: Packet, f: Field): (r: Slot)
    ensures Fits(f, r)
  {
    match f
    case Version => TextSlot(p.version)
    case PacketTimestamp => TimeSlot(p.timestamp)
    case EquipmentId => TextSlot(p.equipmentId)
    case ReceivedTariff1 => QuantitySlot(p.electricity.received.tariff1)
    case ReceivedTariff2 => QuantitySlot(p.electricity.received.tariff2)
    case DeliveredTariff1 => QuantitySlot(p.electricity.delivered.tariff1)
    case DeliveredTariff2 => QuantitySlot(p.electricity.delivered.tariff2)
    case TariffIndicator => CountSlot(p.electricity.tariffIndicator)
    case ReceivedActual => QuantitySlot(p.electricity.received.actual)
    case DeliveredActual => QuantitySlot(p.electricity.delivered.actual)
    case Threshold => ThresholdSlot(p.electricity.threshold)
    case SwitchPosition => TextSlot(p.electricity.switchPosition)
    case PowerFailures => CountSlot(p.electricity.numberOfPowerFailures)
    case LongPowerFailures => CountSlot(p.electricity.numberOfLongPowerFailures)
    case LongPowerFailureLog => LogSlot(p.electricity.longPowerFailureLog)
    case VoltageSagsL1 => CountSlot(p.electricity.voltageSagsL1)
    case VoltageSagsL2 => CountSlot(p.electricity.voltageSagsL2)
    case VoltageSagsL3 => CountSlot(p.electricity.voltageSagsL3)
    case VoltageSwellL1 => CountSlot(p.electricity.voltageSwellL1)
    case VoltageSwellL2 => CountSlot(p.electricity.voltageSwellL2)
    case VoltageSwellL3 => CountSlot(p.electricity.voltageSwellL3)
    case MessageCodes => TextSlot(p.textMessage.codes)
    case MessageText => TextSlot(p.textMessage.message)
    case GasDeviceType => TextSlot(p.gas.deviceType)
    case GasEquipmentId => TextSlot(p.gas.equipmentId)
    case GasHourlyReading => HourlySlot(p.gas.timestamp, p.gas.reading, p.gas.unit)
    case GasValvePosition => TextSlot(p.gas.valvePosition)
  }

  /** The assignments of one `case`: the field's destination overwritten with `v`. */
  function Set(p: Packet, f: Field, v: Slot): Packet
    requires Fits(f, v)
  {
    var e := p.electricity;
    match f
    case Version => p.(version := v.text)
    case PacketTimestamp => p.(timestamp := v.time)
    case EquipmentId => p.(equipmentId := v.text)
    case ReceivedTariff1 => p.(electricity := e.(received := e.received.(tariff1 := v.quantity)))
    case ReceivedTariff2 => p.(electricity := e.(received := e.received.(tariff2 := v.quantity)))
    case DeliveredTariff1 => p.(electricity := e.(delivered := e.delivered.(tariff1 := v.quantity)))
    case DeliveredTariff2 => p.(electricity := e.(delivered := e.delivered.(tariff2 := v.quantity)))
    case TariffIndicator => p.(electricity := e.(tariffIndicator := v.number))
    case ReceivedActual => p.(electricity := e.(received := e.received.(actual := v.quantity)))
    case DeliveredActual => p.(electricity := e.(delivered := e.delivered.(actual := v.quantity)))
    case Threshold => p.(electricity := e.(threshold := v.limit))
    case SwitchPosition => p.(electricity := e.(switchPosition := v.text))
    case PowerFailures => p.(electricity := e.(numberOfPowerFailures := v.number))
    case LongPowerFailures => p.(electricity := e.(numberOfLongPowerFailures := v.number))
    case LongPowerFailureLog => p.(electricity := e.(longPowerFailureLog := v.log))
    case VoltageSagsL1 => p.(electricity := e.(voltageSagsL1 := v.number))
    case VoltageSagsL2 => p.(electricity := e.(voltageSagsL2 := v.number))
    case VoltageSagsL3 => p.(electricity := e.(voltageSagsL3 := v.number))
    case VoltageSwellL1 => p.(electricity := e.(voltageSwellL1 := v.number))
    case VoltageSwellL2 => p.(electricity := e.(voltageSwellL2 := v.number))
    case VoltageSwellL3 => p.(electricity := e.(voltageSwellL3 := v.number))
    case MessageCodes => p.(textMessage := p.textMessage.(codes := v.text))
    case MessageText => p.(textMessage := p.textMessage.(message := v.text))
    case GasDeviceType => p.(gas := p.gas.(deviceType := v.text))
    case GasEquipmentId => p.(gas := p.gas.(equipmentId := v.text))
    case GasHourlyReading => p.(gas := p.gas.(timestamp := v.at, reading := v.reading, unit := v.unit))
    case GasValvePosition => p.(gas := p.gas.(valvePosition := v.text))
  }

  predicate IsReading(f: Field) {
    FieldShape(f) == QuantityShape
  }

  /** The fields in groups, to keep the proofs about storing small. */
  datatype Part = HeaderPart | ReadingPart | MeterStatePart | QualityPart | GasPart

  function PartOf(f: Field): Part {
    match f
    case Version => HeaderPart
    case PacketTimestamp => HeaderPart
    case EquipmentId => HeaderPart
    case ReceivedTariff1 => ReadingPart
    case ReceivedTariff2 => ReadingPart
    case DeliveredTariff1 => ReadingPart
    case DeliveredTariff2 => ReadingPart
    case TariffIndicator => MeterStatePart
    case ReceivedActual => ReadingPart
    case DeliveredActual => ReadingPart
    case Threshold => MeterStatePart
    case SwitchPosition => MeterStatePart
    case PowerFailures => MeterStatePart
    case LongPowerFailures => MeterStatePart
    case LongPowerFailureLog => MeterStatePart
    case VoltageSagsL1 => QualityPart
    case VoltageSagsL2 => QualityPart
    case VoltageSagsL3 => QualityPart
    case VoltageSwellL1 => QualityPart
    case VoltageSwellL2 => QualityPart
    case VoltageSwellL3 => QualityPart
    case MessageCodes => HeaderPart
    case MessageText => HeaderPart
    case GasDeviceType => GasPart
    case GasEquipmentId => GasPart
    case GasHourlyReading => GasPart
    case GasValvePosition => GasPart
  }

  /** Storing into one of the packet's own fields and the text message changes that field only. */
  lemma GetSetHeader(p: Packet, f: Field, v: Slot, g: Field)
    requires PartOf(f) == HeaderPart
    requires Fits(f, v)
    ensures Get(Set(p, f, v), g) == (if g == f then v else Get(p, g))
  {
  }

  /** Storing into one of the electricity readings changes that field only. */
  lemma GetSetReadings(p: Packet, f: Field, v: Slot, g: Field)
    requires PartOf(f) == ReadingPart
    requires Fits(f, v)
    ensures Get(Set(p, f, v), g) == (if g == f then v else Get(p, g))
  {
  }

  /** Storing into one of the tariff, threshold, switch and power failure fields changes that field only. */
  lemma GetSetMeterState(p: Packet, f: Field, v: Slot, g: Field)
    requires PartOf(f) == MeterStatePart
    requires Fits(f, v)
    ensures Get(Set(p, f, v), g) == (if g == f then v else Get(p, g))
  {
  }

  /** Storing into one of the voltage sag and swell counters changes that field only. */
  lemma GetSetQuality(p: Packet, f: Field, v: Slot, g: Field)
    requires PartOf(f) == QualityPart
    requires Fits(f, v)
    ensures Get(Set(p, f, v), g) == (if g == f then v else Get(p, g))
  {
  }

  /** Storing into one of the gas meter fields changes that field only. */
  lemma GetSetGas(p: Packet, f: Field, v: Slot, g: Field)
    requires PartOf(f) == GasPart
    requires Fits(f, v)
    ensures Get(Set(p, f, v), g) == (if g == f then v else Get(p, g))
  {
  }

  /** Storing into a field keeps the meter type. */
  lemma SetKeepsMeterType(p: Packet, f: Field, v: Slot)
    requires Fits(f, v)
    ensures Set(p, f, v).meterType == p.meterType
  {
  }

  /**
   * Storing into a field changes that field and nothing else: every other
   * field, and the meter type, keep their values.
   */
  lemma GetSet(p: Packet, f: Field, v: Slot, g: Field)
    requires Fits(f, v)
    ensures Get(Set(p, f, v), g) == (if g == f then v else Get(p, g))
    ensures Set(p, f, v).meterType == p.meterType
  {
    SetKeepsMeterType(p, f, v);
    match PartOf(f)
    case HeaderPart => GetSetHeader(p, f, v, g);
    case ReadingPart => GetSetReadings(p, f, v, g);
    case MeterStatePart => GetSetMeterState(p, f, v, g);
    case QualityPart => GetSetQuality(p, f, v, g);
    case GasPart => GetSetGas(p, f, v, g);
  }

  /**
   * A record is determined by its meter type and what `Get` reads, so the
   * fields above are all the destinations the record has.
   */
  lemma FieldsDetermineRecord(p: Packet, q: Packet)
    requires p.meterType == q.meterType
    requires forall f: Field :: Get(p, f) == Get(q, f)
    ensures p == q
  {
    ReceivedDetermined(p, q);
    DeliveredDetermined(p, q);
    MeterStateDetermined(p, q);
    QualityDetermined(p, q);
    GasDetermined(p, q);
    assert Get(p, Version) == Get(q, Version);
    assert Get(p, PacketTimestamp) == Get(q, PacketTimestamp);
    assert Get(p, EquipmentId) == Get(q, EquipmentId);
    assert Get(p, MessageCodes) == Get(q, MessageCodes);
    assert Get(p, MessageText) == Get(q, MessageText);
  }

  lemma ReceivedDetermined(p: Packet, q: Packet)
    requires forall f: Field :: Get(p, f) == Get(q, f)
    ensures p.electricity.received == q.electricity.received
  {
    assert Get(p, ReceivedTariff1) == Get(q, ReceivedTariff1);
    assert Get(p, ReceivedTariff2) == Get(q, ReceivedTariff2);
    assert Get(p, ReceivedActual) == Get(q, ReceivedActual);
  }

  lemma DeliveredDetermined(p: Packet, q: Packet)
    requires forall f: Field :: Get(p, f) == Get(q, f)
    ensures p.electricity.delivered == q.electricity.delivered
  {
    assert Get(p, DeliveredTariff1) == Get(q, DeliveredTariff1);
    assert Get(p, DeliveredTariff2) == Get(q, DeliveredTariff2);
    assert Get(p, DeliveredActual) == Get(q, DeliveredActual);
  }

  lemma MeterStateDetermined(p: Packet, q: Packet)
    requires forall f: Field :: Get(p, f) == Get(q, f)
    ensures p.electricity.tariffIndicator == q.electricity.tariffIndicator
    ensures p.electricity.threshold == q.electricity.threshold
    ensures p.electricity.switchPosition == q.electricity.switchPosition
    ensures p.electricity.numberOfPowerFailures == q.electricity.numberOfPowerFailures
    ensures p.electricity.numberOfLongPowerFailures == q.electricity.numberOfLongPowerFailures
    ensures p.electricity.longPowerFailureLog == q.electricity.longPowerFailureLog
  {
    assert Get(p, TariffIndicator) == Get(q, TariffIndicator);
    assert Get(p, Threshold) == Get(q, Threshold);
    assert Get(p, SwitchPosition) == Get(q, SwitchPosition);
    assert Get(p, PowerFailures) == Get(q, PowerFailures);
    assert Get(p, LongPowerFailures) == Get(q, LongPowerFailures);
    assert Get(p, LongPowerFailureLog) == Get(q, LongPowerFailureLog);
  }

  lemma QualityDetermined(p: Packet, q: Packet)
    requires forall f: Field :: Get(p, f) == Get(q, f)
    ensures p.electricity.voltageSagsL1 == q.electricity.voltageSagsL1
    ensures p.electricity.voltageSagsL2 == q.electricity.voltageSagsL2
    ensures p.electricity.voltageSagsL3 == q.electricity.voltageSagsL3
    ensures p.electricity.voltageSwellL1 == q.electricity.voltageSwellL1
    ensures p.electricity.voltageSwellL2 == q.electricity.voltageSwellL2
    ensures p.electricity.voltageSwellL3 == q.electricity.voltageSwellL3
  {
    assert Get(p, VoltageSagsL1) == Get(q, VoltageSagsL1);
    assert Get(p, VoltageSagsL2) == Get(q, VoltageSagsL2);
    assert Get(p, VoltageSagsL3) == Get(q, VoltageSagsL3);
    assert Get(p, VoltageSwellL1) == Get(q, VoltageSwellL1);
    assert Get(p, VoltageSwellL2) == Get(q, VoltageSwellL2);
    assert Get(p, VoltageSwellL3) == Get(q, VoltageSwellL3);
  }

  lemma GasDetermined(p: Packet, q: Packet)
    requires forall f: Field :: Get(p, f) == Get(q, f)
    ensures p.gas == q.gas
  {
    assert Get(p, GasDeviceType) == Get(q, GasDeviceType);
    assert Get(p, GasEquipmentId) == Get(q, GasEquipmentId);
    assert Get(p, GasHourlyReading) == Get(q, GasHourlyReading);
    assert Get(p, GasValvePosition) == Get(q, GasValvePosition);
  }

  /** The slot a field holds before any line is decoded: `null` throughout. */
  function EmptySlot(f: Field): (r: Slot)
    ensures Fits(f, r)
  {
    match FieldShape(f)
    case TextShape => TextSlot(None)
    case TimeShape => TimeSlot(None)
    case CountShape => CountSlot(None)
    case QuantityShape => QuantitySlot(NoQuantity)
    case ThresholdShape => ThresholdSlot(None)
    case LogShape => LogSlot(None)
    case HourlyShape => HourlySlot(None, None, None)
  }

  /** The initial record holds `null` in every field and the meter type it was given. */
  lemma InitialIsEmpty(meterType: string, f: Field)
    ensures Get(Initial(meterType), f) == EmptySlot(f)
    ensures Initial(meterType).meterType == meterType
  {
  }

  /** `parseFloat` of a value that may be `null`, which reads as the text "null": NaN. */
  function ParseFloatOrNull(number: string -> JsFloat, s: Option<string>): JsFloat {
    match s
    case None => FloatNaN
    case Some(t) => number(t)
  }

  /**
   * The parts of the decoder the loop is written over: `_parseLine`, the
   * `switch` from OBIS code to field, and the helpers the `case`s call
   * (`parseInt`, `parseFloat`, `_parseTimestamp`, `_parsePowerFailureEventLog`
   * and `_parseHourlyReading`). What is proved about the loop for any `Parsers`
   * holds for `Library`, the ones of lib/parsePacket.js.
   */
  datatype Parsers = Parsers(
    line: string -> ParsedLine,
    select: string -> Option<Field>,
    integer: string -> JsInt,
    number: string -> JsFloat,
    timestamp: string -> Result<DateFields, DecodeError>,
    eventLog: string -> Result<EventLog, DecodeError>,
    hourly: string -> HR.Reading)

  const Library: Parsers := Parsers(ParseLine, FieldFor, ParseInt, ParseFloat, ParseTimestamp, PowerFailureEventLog, HR.ParseHourlyReading)

  /**
   * The value one `case` computes from the line's value and unit: a string
   * kept as it is, `parseInt`, `parseFloat` with the unit, the threshold
   * object, a time stamp, the event log, or the three fields of the hourly
   * gas reading. An invalid time stamp throws, and so does a missing one
   * in the hourly reading (`_parseTimestamp(null)`).
   */
  function Transform(h: Parsers, f: Field, value: string, unit: Option<string>): (r: Result<Slot, DecodeError>)
    ensures r.Success? ==> Fits(f, r.value)
  {
    match FieldShape(f)
    case TextShape => Success(TextSlot(Some(value)))
    case TimeShape =>
      var time :- h.timestamp(value);
      Success(TimeSlot(Some(time)))
    case CountShape => Success(CountSlot(Some(h.integer(value))))
    case QuantityShape => Success(QuantitySlot(Quantity(Some(h.number(value)), unit)))
    case ThresholdShape => Success(ThresholdSlot(Some(Limit(h.number(value), unit))))
    case LogShape =>
      var log :- h.eventLog(value);
      Success(LogSlot(Some(log)))
    case HourlyShape =>
      var hourly := h.hourly(value);
      var at :- match hourly.timestamp
        case None => Failure(NullTimestamp)
        case Some(t) => h.timestamp(t);
      Success(HourlySlot(Some(at), Some(ParseFloatOrNull(h.number, hourly.value)), hourly.unit))
  }

  /** The event log line stores the log, or throws what `_parsePowerFailureEventLog` throws. */
  lemma LogOfLine(h: Parsers, value: string, unit: Option<string>)
    ensures h.eventLog(value).Failure? ==> Transform(h, LongPowerFailureLog, value, unit) == Failure(h.eventLog(value).error)
    ensures h.eventLog(value).Success? ==>
      Transform(h, LongPowerFailureLog, value, unit) == Success(LogSlot(Some(h.eventLog(value).value)))
  {
  }

  /**
   * Exactly three kinds of line throw: an invalid packet time stamp, an
   * event log with an invalid time stamp, and an hourly gas reading whose
   * time stamp is missing or invalid.
   */
  lemma TransformFails(h: Parsers, f: Field, value: string, unit: Option<string>)
    ensures Transform(h, f, value, unit).Failure? <==>
      || (f == PacketTimestamp && h.timestamp(value).Failure?)
      || (f == LongPowerFailureLog && h.eventLog(value).Failure?)
      || (f == GasHourlyReading &&
          (h.hourly(value).timestamp.None? || h.timestamp(h.hourly(value).timestamp.value).Failure?))
  {
  }

  /** Without two non-empty `)(`-pieces the hourly reading has no time stamp, and the decoder throws. */
  lemma GasReadingWithoutTimestamp(value: string, unit: Option<string>)
    requires !HR.HasTwoPieces(value)
    ensures Transform(Library, GasHourlyReading, value, unit) == Failure(NullTimestamp)
  {
    HR.HourlyReadingFields(value);
    assert Library.hourly(value).timestamp.None?;
    HourlyWithoutTimestamp(Library, value, unit);
  }

  /** An hourly reading without a time stamp throws the `TypeError` of `null.substring`. */
  lemma HourlyWithoutTimestamp(h: Parsers, value: string, unit: Option<string>)
    requires h.hourly(value).timestamp.None?
    ensures Transform(h, GasHourlyReading, value, unit) == Failure(NullTimestamp)
  {
  }

  /** `timestamp)(value*unit` stores the time stamp's fields, the value and the unit. */
  lemma GasReadingOfParts(timestamp: string, value: string, unit: string, lineUnit: Option<string>, date: DateFields)
    requires timestamp != "" && ')' !in timestamp
    requires '*' !in value && ')' !in value
    requires '*' !in unit && ')' !in unit
    requires ParseTimestamp(timestamp) == Success(date)
    ensures Transform(Library, GasHourlyReading, timestamp + HR.Separator + (value + "*" + unit), lineUnit)
         == Success(HourlySlot(Some(date), Some(ParseFloat(value)), Some(unit)))
  {
    var reading := timestamp + HR.Separator + (value + "*" + unit);
    HR.HourlyReadingRoundTrip(timestamp, value, unit);
    assert Library.hourly(reading) == HR.Reading(Some(timestamp), Some(value), Some(unit));
    assert Library.timestamp(timestamp) == Success(date);
    HourlyOfParts(Library, reading, lineUnit);
    assert ParseFloatOrNull(Library.number, Some(value)) == ParseFloat(value);
  }

  /**
   * The hourly gas reading stores the time stamp's fields, `parseFloat` of
   * the value and the unit the value carries, not the unit of the line.
   */
  lemma HourlyOfParts(h: Parsers, value: string, lineUnit: Option<string>)
    requires h.hourly(value).timestamp.Some?
    requires h.timestamp(h.hourly(value).timestamp.value).Success?
    ensures Transform(h, GasHourlyReading, value, lineUnit)
         == Success(HourlySlot(Some(h.timestamp(h.hourly(value).timestamp.value).value),
                               Some(ParseFloatOrNull(h.number, h.hourly(value).value)), h.hourly(value).unit))
  {
  }

  /**
   * A stored hourly reading always has a value: `_parseHourlyReading` sets
   * the value together with the time stamp, so `parseFloat(null)` is never
   * reached, and the reading is `parseFloat` of the text it found.
   */
  lemma HourlyValueIsRead(value: string, unit: Option<string>)
    ensures var r := Transform(Library, GasHourlyReading, value, unit);
      r.Success? ==>
        && r.value.HourlySlot?
        && HR.ParseHourlyReading(value).value.Some?
        && r.value.reading == Some(ParseFloat(HR.ParseHourlyReading(value).value.value))
  {
    HR.HourlyReadingFields(value);
    HourlyValuePresent(Library, value, unit);
  }

  /** With helpers that set the value whenever they set the time stamp, the stored reading is read from that value. */
  lemma HourlyValuePresent(h: Parsers, value: string, unit: Option<string>)
    requires h.hourly(value).timestamp.Some? ==> h.hourly(value).value.Some?
    ensures var r := Transform(h, GasHourlyReading, value, unit);
      r.Success? ==> r.value.HourlySlot? && h.hourly(value).value.Some? && r.value.reading == Some(h.number(h.hourly(value).value.value))
  {
  }

  /** A reading takes `parseFloat` of the value and the unit of the same line. */
  lemma ReadingOfLine(h: Parsers, f: Field, value: string, unit: Option<string>)
    requires IsReading(f)
    ensures Transform(h, f, value, unit) == Success(QuantitySlot(Quantity(Some(h.number(value)), unit)))
  {
  }
}
