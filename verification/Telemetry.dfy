/** One PSU reading, reduced to the fields that the ledger, the alert engine and the pipeline read. */
module Telemetry {
  import opened Wrappers

  /** The six conductor currents of one connector, in milliamperes. */
  type Conductors = s: seq<int> | |s| == 6 witness [0, 0, 0, 0, 0, 0]

  datatype Sample = Sample(
    device: string,
    session: string,
    sequence: nat,
    capturedMs: int,          // wall clock
    monotonicMs: nat,         // boot-time clock, never steps back
    powerUw: int,
    efficiencyMillipercent: int,
    connectors: seq<Conductors>,
    alertsRaw: seq<nat>,
    safeguards: seq<nat>,     // the raw status byte of each fault snapshot
    groupErrors: seq<string>
  )

  /** Integer division that truncates toward zero, as the source's `/` does. */
  function TruncDiv(n: int, d: int): int
    requires d > 0
  {
    if n >= 0 then n / d else -((-n) / d)
  }

  predicate EfficiencyValid(s: Sample) { 0 < s.efficiencyMillipercent <= 100_000 }

  function EstimatedInputUw(s: Sample): Option<int> {
    if EfficiencyValid(s) then Some(TruncDiv(s.powerUw * 100_000, s.efficiencyMillipercent)) else None
  }

  const MAX_POWER_UW := 2_500_000_000
  const MAX_INPUT_UW := 250_000_000_000_000

  /** What the TS decoder guarantees about the power reading of an accepted report. */
  predicate PowerInRange(s: Sample) { 0 <= s.powerUw <= MAX_POWER_UW }

  /** The estimate is the floor of the exact quotient, is at least the output, and stays far inside 64 bits. */
  lemma EstimateAtLeastOutput(s: Sample)
    requires PowerInRange(s) && EfficiencyValid(s)
    ensures var input := EstimatedInputUw(s).value;
            && s.powerUw <= input <= MAX_INPUT_UW
            && input * s.efficiencyMillipercent <= s.powerUw * 100_000 < (input + 1) * s.efficiencyMillipercent
  {
    var e := s.efficiencyMillipercent;
    var n := s.powerUw * 100_000;
    assert n == (n / e) * e + n % e;
    assert n >= s.powerUw * e by { MulMonotone(s.powerUw, e, 100_000); }
    QuotientBounds(n, e, s.powerUw, MAX_INPUT_UW);
  }

  lemma MulMonotone(a: int, x: int, y: int)
    requires a >= 0 && x <= y
    ensures a * x <= a * y
  {}

  lemma QuotientBounds(n: int, e: int, low: int, high: int)
    requires e >= 1 && low * e <= n <= high && n >= 0
    ensures low <= n / e <= high
  {
    if n / e < low {
      assert (n / e + 1) * e <= low * e by { MulMonotone(e, n / e + 1, low); }
    }
    if n / e > high {
      assert (n / e) * e >= n / e by { MulMonotone(n / e, 1, e); }
    }
  }
}
