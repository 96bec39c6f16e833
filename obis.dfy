/**
 * The OBIS codes the decoder in lib/parsePacket.js recognises, and the
 * field of the decoded packet each one writes (DSMR 4.0 P1 Companion
 * Standard, section 6.12; identifiers as in IEC 62056-61).
 */
module Obis {
  import opened Wrappers

  /** A destination of the dispatch: one field, or one group of fields written together. */
  datatype Field =
    | Version | PacketTimestamp | EquipmentId
    | ReceivedTariff1 | ReceivedTariff2 | DeliveredTariff1 | DeliveredTariff2
    | TariffIndicator | ReceivedActual | DeliveredActual | Threshold | SwitchPosition
    | PowerFailures | LongPowerFailures | LongPowerFailureLog
    | VoltageSagsL1 | VoltageSagsL2 | VoltageSagsL3
    | VoltageSwellL1 | VoltageSwellL2 | VoltageSwellL3
    | MessageCodes | MessageText
    | GasDeviceType | GasEquipmentId | GasHourlyReading | GasValvePosition

  /** The code of the `case` that writes the field. */
  function CodeOf(f: Field): string {
    match f
    case Version => "1-3:0.2.8"
    case PacketTimestamp => "0-0:1.0.0"
    case EquipmentId => "0-0:96.1.1"
    case ReceivedTariff1 => "1-0:1.8.1"
    case ReceivedTariff2 => "1-0:1.8.2"
    case DeliveredTariff1 => "1-0:2.8.1"
    case DeliveredTariff2 => "1-0:2.8.2"
    case TariffIndicator => "0-0:96.14.0"
    case ReceivedActual => "1-0:1.7.0"
    case DeliveredActual => "1-0:2.7.0"
    case Threshold => "0-0:17.0.0"
    case SwitchPosition => "0-0:96.3.10"
    case PowerFailures => "0-0:96.7.21"
    case LongPowerFailures => "0-0:96.7.9"
    case LongPowerFailureLog => "1-0:99.97.0"
    case VoltageSagsL1 => "1-0:32.32.0"
    case VoltageSagsL2 => "1-0:52.32.0"
    case VoltageSagsL3 => "1-0:72.32.0"
    case VoltageSwellL1 => "1-0:32.36.0"
    case VoltageSwellL2 => "1-0:52.36.0"
    case VoltageSwellL3 => "1-0:72.36.0"
    case MessageCodes => "0-0:96.13.1"
    case MessageText => "0-0:96.13.0"
    case GasDeviceType => "0-1:24.1.0"
    case GasEquipmentId => "0-1:96.1.0"
    case GasHourlyReading => "0-1:24.2.1"
    case GasValvePosition => "0-1:24.4.0"
  }

  /** The fields in the order of the `case`s of the `switch`. */
  const Cases: seq<Field> :=
    [Version, PacketTimestamp, EquipmentId, ReceivedTariff1, ReceivedTariff2, DeliveredTariff1,
     DeliveredTariff2, TariffIndicator, ReceivedActual, DeliveredActual, Threshold, SwitchPosition,
     PowerFailures, LongPowerFailures, LongPowerFailureLog, VoltageSagsL1, VoltageSagsL2,
     VoltageSagsL3, VoltageSwellL1, VoltageSwellL2, VoltageSwellL3, MessageCodes, MessageText,
     GasDeviceType, GasEquipmentId, GasHourlyReading, GasValvePosition]

  /**
   * The `switch` from the `case` at index `n` on: the first case whose
   * code matches, or none when the `default` branch is reached.
   */
  function FieldFrom(code: string, n: nat): (r: Option<Field>)
    ensures r.Some? ==> CodeOf(r.value) == code
    ensures r.Some? ==>
      exists m :: n <= m < |Cases| && Cases[m] == r.value && forall j :: n <= j < m ==> CodeOf(Cases[j]) != code
    ensures r.None? ==> forall m :: n <= m < |Cases| ==> CodeOf(Cases[m]) != code
    decreases |Cases| - n
  {
    if n >= |Cases| then None
    else if CodeOf(Cases[n]) == code then Some(Cases[n])
    else FieldFrom(code, n + 1)
  }

  /** Every field has a `case`. */
  lemma EveryFieldHasACase(f: Field)
    ensures f in Cases
  {
  }

  /**
   * The `switch` on the OBIS code: a field whose code it is, or none for
   * the `default` branch when no field has that code.
   */
  function FieldFor(code: string): (r: Option<Field>)
    ensures r.Some? ==> CodeOf(r.value) == code
    ensures r.None? ==> forall f: Field :: CodeOf(f) != code
  {
    var r := FieldFrom(code, 0);
    assert r.None? ==> forall f: Field :: CodeOf(f) != code by {
      forall f: Field ensures r.None? ==> CodeOf(f) != code {
        EveryFieldHasACase(f);
      }
    }
    r
  }

  /**
   * The length and three characters of a code; no two codes of the table
   * agree on all four.
   */
  function Signature(code: string): (int, char, char, char)
    requires |code| >= 5
  {
    (|code|, code[4], code[|code| - 3], code[|code| - 1])
  }

  /** The field whose code has the signature. */
  function FieldWithSignature(sig: (int, char, char, char)): Option<Field> {
    if sig == (9, '0', '2', '8') then Some(Version)
    else if sig == (9, '1', '0', '0') then Some(PacketTimestamp)
    else if sig == (10, '9', '1', '1') then Some(EquipmentId)
    else if sig == (9, '1', '8', '1') then Some(ReceivedTariff1)
    else if sig == (9, '1', '8', '2') then Some(ReceivedTariff2)
    else if sig == (9, '2', '8', '1') then Some(DeliveredTariff1)
    else if sig == (9, '2', '8', '2') then Some(DeliveredTariff2)
    else if sig == (11, '9', '4', '0') then Some(TariffIndicator)
    else if sig == (9, '1', '7', '0') then Some(ReceivedActual)
    else if sig == (9, '2', '7', '0') then Some(DeliveredActual)
    else if sig == (10, '1', '0', '0') then Some(Threshold)
    else if sig == (11, '9', '.', '0') then Some(SwitchPosition)
    else if sig == (11, '9', '.', '1') then Some(PowerFailures)
    else if sig == (10, '9', '7', '9') then Some(LongPowerFailures)
    else if sig == (11, '9', '7', '0') then Some(LongPowerFailureLog)
    else if sig == (11, '3', '2', '0') then Some(VoltageSagsL1)
    else if sig == (11, '5', '2', '0') then Some(VoltageSagsL2)
    else if sig == (11, '7', '2', '0') then Some(VoltageSagsL3)
    else if sig == (11, '3', '6', '0') then Some(VoltageSwellL1)
    else if sig == (11, '5', '6', '0') then Some(VoltageSwellL2)
    else if sig == (11, '7', '6', '0') then Some(VoltageSwellL3)
    else if sig == (11, '9', '3', '1') then Some(MessageCodes)
    else if sig == (11, '9', '3', '0') then Some(MessageText)
    else if sig == (10, '2', '1', '0') then Some(GasDeviceType)
    else if sig == (10, '9', '1', '0') then Some(GasEquipmentId)
    else if sig == (10, '2', '2', '1') then Some(GasHourlyReading)
    else if sig == (10, '2', '4', '0') then Some(GasValvePosition)
    else None
  }

  lemma SignatureIdentifiesField(f: Field)
    ensures |CodeOf(f)| >= 5 && FieldWithSignature(Signature(CodeOf(f))) == Some(f)
  {
    match f
    case Version =>
    case PacketTimestamp =>
    case EquipmentId =>
    case ReceivedTariff1 =>
    case ReceivedTariff2 =>
    case DeliveredTariff1 =>
    case DeliveredTariff2 =>
    case TariffIndicator =>
    case ReceivedActual =>
    case DeliveredActual =>
    case Threshold =>
    case SwitchPosition =>
    case PowerFailures =>
    case LongPowerFailures =>
    case LongPowerFailureLog =>
    case VoltageSagsL1 =>
    case VoltageSagsL2 =>
    case VoltageSagsL3 =>
    case VoltageSwellL1 =>
    case VoltageSwellL2 =>
    case VoltageSwellL3 =>
    case MessageCodes =>
    case MessageText =>
    case GasDeviceType =>
    case GasEquipmentId =>
    case GasHourlyReading =>
    case GasValvePosition =>
  }

  /** No two fields share a code. */
  lemma CodesDiffer(f: Field, g: Field)
    ensures CodeOf(f) == CodeOf(g) ==> f == g
  {
    SignatureIdentifiesField(f);
    SignatureIdentifiesField(g);
  }

  /** Every field has its own case, and no earlier case shadows it. */
  lemma CodeSelectsField(f: Field)
    ensures FieldFor(CodeOf(f)) == Some(f)
  {
    var r := FieldFor(CodeOf(f));
    if r.Some? {
      CodesDiffer(r.value, f);
    }
  }

  /**
   * The table is one to one: a code selects a field exactly when it is
   * that field's code.
   */
  lemma FieldForIsCodeOf(code: string, f: Field)
    ensures FieldFor(code) == Some(f) <==> code == CodeOf(f)
  {
    if code == CodeOf(f) {
      CodeSelectsField(f);
    }
  }
}
