/** HID framing and the TS telemetry decoder: where the numeric ranges of a reading come from. */
module Protocol {
  import opened Wrappers
  import opened Telemetry

  type byte = x: int | 0 <= x < 256

  datatype ProtocolError = PayloadLength | ReportLength | EchoMismatch | Busy | ImplausibleTelemetry

  const READ: byte := 0x51

  predicate AllZero(s: seq<byte>) { forall i :: 0 <= i < |s| ==> s[i] == 0 }

  /** Builds the unnumbered write buffer in place, report-ID zero first. */
  method Request(opcode: byte, command: byte, payload: seq<byte>) returns (r: Result<seq<byte>, ProtocolError>)
    ensures r.Err? <==> |payload| > 62
    ensures r.Err? ==> r.error == PayloadLength
    ensures r.Ok? ==> IsRequest(r.value, opcode, command, payload)
  {
    if |payload| > 62 { return Err(PayloadLength); }
    var report := new byte[65](_ => 0);
    report[1] := opcode;
    report[2] := command;
    forall i | 0 <= i < |payload| { report[3 + i] := payload[i]; }
    r := Ok(report[..]);
  }

  ghost predicate IsRequest(report: seq<byte>, opcode: byte, command: byte, payload: seq<byte>) {
    && |payload| <= 62 && |report| == 65
    && report[0] == 0 && report[1] == opcode && report[2] == command
    && report[3..3 + |payload|] == payload && AllZero(report[3 + |payload|..])
  }

  function Normalize(report: seq<byte>): Result<seq<byte>, ProtocolError> {
    if |report| == 64 then Ok(report)
    else if |report| == 65 && report[0] == 0 then Ok(report[1..])
    else Err(ReportLength)
  }

  predicate BusyPattern(report: seq<byte>) { |report| > 2 && report[2] == 0xfe && AllZero(report[3..]) }

  function Response(raw: seq<byte>, opcode: byte, command: byte, length: nat): (r: Result<seq<byte>, ProtocolError>)
    ensures r.Ok? ==> |r.value| == length <= 62
  {
    match Normalize(raw)
    case Err(e) => Err(e)
    case Ok(report) =>
      if report[0] != opcode || report[1] != command then Err(EchoMismatch)
      else if BusyPattern(report) then Err(Busy)
      else if length > 62 then Err(PayloadLength)
      else Ok(report[2..2 + length])
  }

  /** Echoing a request back yields its payload, unless the payload is FE followed by nothing, which reads as busy. */
  lemma EchoRoundTrip(report: seq<byte>, opcode: byte, command: byte, payload: seq<byte>)
    requires IsRequest(report, opcode, command, payload)
    ensures Response(report, opcode, command, |payload|) == Ok(payload)
       <==> !(|payload| > 0 && payload[0] == 0xfe && AllZero(payload[1..]))
  {
    var body := report[1..];
    forall i | 0 <= i < |payload|
      ensures body[2..2 + |payload|][i] == payload[i]
    {
      assert report[3..3 + |payload|][i] == report[3 + i] == body[2 + i];
    }
    assert body[2..2 + |payload|] == payload;
    if |payload| > 0 {
      assert body[3..] == payload[1..] + report[3 + |payload|..];
      assert body[2] == payload[0];
      if AllZero(body[3..]) {
        forall i | 0 <= i < |payload[1..]|
          ensures payload[1..][i] == 0
        {
          assert body[3..][i] == 0;
        }
      }
    } else {
      assert report[3..][0] == 0;
      assert body[2] == report[3];
    }
  }

  /** Echoing a request whose payload is a single FE reads as the busy sentinel. */
  lemma BusyEcho(report: seq<byte>, opcode: byte, command: byte)
    requires IsRequest(report, opcode, command, [0xfe])
    ensures Response(report, opcode, command, 1) == Err(Busy)
  {
    assert report[3..4][0] == 0xfe;
    assert report[1..][3..] == report[4..];
  }

  function Pow2(n: nat): nat { if n == 0 then 1 else 2 * Pow2(n - 1) }

  lemma {:induction false} Pow2Positive(n: nat)
    ensures Pow2(n) > 0
  {
    if n == 0 {
    } else {
      Pow2Positive(n - 1);
    }
  }

  datatype Scale = Base | Milli | Micro

  function Factor(s: Scale): nat {
    match s
    case Base => 1
    case Milli => 1000
    case Micro => 1_000_000
  }

  /** Unsigned 11-bit mantissa, signed five-bit exponent; right shifts drop the remainder. */
  function UnsignedLinear11(raw: nat, scale: Scale): (v: int)
    requires raw < 0x1_0000
    ensures v >= 0
  {
    var exponent := if raw / 2048 < 16 then raw / 2048 else raw / 2048 - 32;
    var mantissa := raw % 2048 * Factor(scale);
    if exponent >= 0 then mantissa * Pow2(exponent)
    else (Pow2Positive(-exponent); mantissa / Pow2(-exponent))
  }

  function Reading(d: seq<byte>, offset: nat, scale: Scale): (v: int)
    requires offset + 1 < |d|
    ensures v >= 0
  {
    UnsignedLinear11(d[offset] as int + 256 * (d[offset + 1] as int), scale)
  }

  datatype Rail = Rail(voltageMv: int, currentMa: int)

  datatype TsTelemetry = TsTelemetry(powerUw: int, efficiencyMillipercent: int, temperatureMc: int, fanRpm: int,
                                     rails: seq<Rail>, connectors: seq<Conductors>)

  function ConnectorAt(d: seq<byte>, c: nat): Conductors
    requires |d| == 44 && c < 2
  {
    seq(6, i requires 0 <= i < 6 => Reading(d, 6 + c * 12 + i * 2, Milli))
  }

  function Decoded(d: seq<byte>): TsTelemetry
    requires |d| == 44
  {
    TsTelemetry(Reading(d, 30, Micro), Reading(d, 32, Milli), Reading(d, 34, Milli), Reading(d, 36, Base),
                [Rail(Reading(d, 38, Milli), Reading(d, 0, Milli)),
                 Rail(Reading(d, 40, Milli), Reading(d, 2, Milli)),
                 Rail(Reading(d, 42, Milli), Reading(d, 4, Milli))],
                [ConnectorAt(d, 0), ConnectorAt(d, 1)])
  }

  predicate Plausible(t: TsTelemetry) {
    && t.powerUw <= MAX_POWER_UW && t.temperatureMc <= 200_000 && t.efficiencyMillipercent <= 100_000
    && (forall i :: 0 <= i < |t.rails| ==> t.rails[i].voltageMv <= 20_000 && t.rails[i].currentMa <= 200_000)
    && (forall c, i :: 0 <= c < |t.connectors| && 0 <= i < 6 ==> t.connectors[c][i] <= 50_000)
  }

  function DecodeTsTelemetry(report: seq<byte>): Result<TsTelemetry, ProtocolError> {
    match Response(report, READ, 0xe0, 44)
    case Err(e) => Err(e)
    case Ok(d) => if Plausible(Decoded(d)) then Ok(Decoded(d)) else Err(ImplausibleTelemetry)
  }

  /** Every accepted report carries non-negative readings inside the ranges that the ledger and the alarms rely on. */
  lemma AcceptedRanges(report: seq<byte>)
    requires DecodeTsTelemetry(report).Ok?
    ensures var t := DecodeTsTelemetry(report).value;
            && 0 <= t.powerUw <= MAX_POWER_UW
            && 0 <= t.efficiencyMillipercent <= 100_000
            && 0 <= t.temperatureMc <= 200_000 && 0 <= t.fanRpm
            && |t.rails| == 3
            && (forall r :: r in t.rails ==> 0 <= r.voltageMv <= 20_000 && 0 <= r.currentMa <= 200_000)
            && |t.connectors| == 2
            && (forall c, i :: 0 <= c < 2 && 0 <= i < 6 ==> 0 <= t.connectors[c][i] <= 50_000)
  {
    var d := Response(report, READ, 0xe0, 44).value;
    var t := Decoded(d);
    assert forall c, i :: 0 <= c < 2 && 0 <= i < 6 ==> t.connectors[c][i] == Reading(d, 6 + c * 12 + i * 2, Milli);
  }
}
