/** The sample and energy tables, what one recorded sample does to them, and what every run of them keeps. */
module Ledger {
  import opened Wrappers
  import opened Telemetry
  import opened Totals
  import opened Energy

  datatype Row = Row(outputUj: int, inputUj: int, observedMs: int, inputObservedMs: int)

  /** Primary key of the energy table: device and minute. */
  type RowKey = (string, int)

  datatype SampleKey = SampleKey(device: string, session: string, sequence: nat)

  function KeyOf(s: Sample): SampleKey { SampleKey(s.device, s.session, s.sequence) }

  datatype Books = Books(samples: map<SampleKey, Sample>, energy: map<RowKey, Row>, previous: Option<Sample>)

  const NO_BOOKS := Books(map[], map[], None)

  /** Two samples bound one continuous observation. */
  predicate Continuous(p: Sample, s: Sample, maxGapMs: nat) {
    var elapsed := SaturatingSub(s.monotonicMs, p.monotonicMs);
    var wall := s.capturedMs - p.capturedMs;
    && p.session == s.session
    && p.device == s.device
    && s.sequence > p.sequence
    && 0 < elapsed <= maxGapMs
    && wall > 0
    && -100 <= wall - elapsed <= 100
  }

  predicate BothInputs(p: Sample, s: Sample) { EstimatedInputUw(p).Some? && EstimatedInputUw(s).Some? }

  /** What one piece of the interval from p to s adds to its minute row. */
  function Contribution(p: Sample, s: Sample, piece: Piece): Row
    requires p.capturedMs < s.capturedMs
  {
    var wall := s.capturedMs - p.capturedMs;
    var output := Integrate(p.powerUw, s.powerUw, p.capturedMs, wall, piece);
    if BothInputs(p, s) then
      Row(output, Integrate(EstimatedInputUw(p).value, EstimatedInputUw(s).value, p.capturedMs, wall, piece),
          Duration(piece), Duration(piece))
    else
      Row(output, 0, Duration(piece), 0)
  }

  function AddRows(a: Row, b: Row): Row {
    Row(a.outputUj + b.outputUj, a.inputUj + b.inputUj,
        a.observedMs + b.observedMs, a.inputObservedMs + b.inputObservedMs)
  }

  /** INSERT ... ON CONFLICT DO UPDATE of one energy row. */
  function Upsert(energy: map<RowKey, Row>, key: RowKey, row: Row): map<RowKey, Row> {
    energy[key := if key in energy then AddRows(energy[key], row) else row]
  }

  function NextPiece(at: int, s: Sample): Piece { Piece(at, Min(MinuteOf(at) + MINUTE_MS, s.capturedMs)) }

  /** The rows once the part of the interval from `at` on has been added. */
  function AddFrom(energy: map<RowKey, Row>, p: Sample, s: Sample, at: int): map<RowKey, Row>
    requires p.capturedMs < s.capturedMs
    decreases s.capturedMs - at
  {
    if at >= s.capturedMs then energy else
      var piece := NextPiece(at, s);
      AddFrom(Upsert(energy, (s.device, MinuteOf(at)), Contribution(p, s, piece)), p, s, piece.end)
  }

  predicate IsNew(b: Books, s: Sample) { s.sequence <= I64_MAX && KeyOf(s) !in b.samples }

  predicate Accepts(b: Books, s: Sample, maxGapMs: nat) {
    IsNew(b, s) && b.previous.Some? && Continuous(b.previous.value, s, maxGapMs)
  }

  /** One call of `record` whose transaction commits; a sequence above the signed range is the caller's error. */
  function Record(b: Books, s: Sample, maxGapMs: nat): Books {
    if !IsNew(b, s) then b else
      Books(b.samples[KeyOf(s) := s],
            if Accepts(b, s, maxGapMs) then AddFrom(b.energy, b.previous.value, s, b.previous.value.capturedMs)
              else b.energy,
            Some(s))
  }

  /** DELETE of some samples captured before the cutoff. */
  function PruneSamples(samples: map<SampleKey, Sample>, cutoff: int, victims: set<SampleKey>): map<SampleKey, Sample> {
    map k | k in samples && !(k in victims && samples[k].capturedMs < cutoff) :: samples[k]
  }

  // ---------------------------------------------------------------- runs

  /** Restart models a new process: the tables survive, the previous sample does not. */
  datatype Op = RecordOp(sample: Sample, maxGapMs: nat) | PruneOp(cutoff: int, victims: set<SampleKey>) | RestartOp

  function Apply(b: Books, op: Op): Books {
    match op
    case RecordOp(s, gap) => Record(b, s, gap)
    case PruneOp(cutoff, victims) => b.(samples := PruneSamples(b.samples, cutoff, victims))
    case RestartOp => b.(previous := None)
  }

  function Run(ops: seq<Op>): Books {
    if ops == [] then NO_BOOKS else Apply(Run(ops[..|ops| - 1]), ops[|ops| - 1])
  }

  // ---------------------------------------------------------------- conservation

  function Output(r: Row): int { r.outputUj }
  function Input(r: Row): int { r.inputUj }
  function Observed(r: Row): int { r.observedMs }
  function InputObserved(r: Row): int { r.inputObservedMs }

  /** The sample fits the sequence column and no row of the sample table has its device, session and sequence. */
  ghost predicate Unrecorded(b: Books, s: Sample) {
    s.sequence <= I64_MAX && forall k :: k in b.samples ==> k != SampleKey(s.device, s.session, s.sequence)
  }

  /**
   * Two readings of one session and device, in order, at most the gap apart by the boot-time clock, and by the wall
   * clock as far apart to within 100 ms.
   */
  ghost predicate Bridges(p: Sample, s: Sample, maxGapMs: nat) {
    && s.session == p.session && s.device == p.device && p.sequence < s.sequence
    && p.monotonicMs < s.monotonicMs <= p.monotonicMs + maxGapMs
    && p.capturedMs < s.capturedMs
    && -100 <= (s.capturedMs - s.monotonicMs) - (p.capturedMs - p.monotonicMs) <= 100
  }

  /** The reported efficiency is above zero and at most one. */
  ghost predicate InputKnown(s: Sample) { 0 < s.efficiencyMillipercent <= 100_000 }

  /** What the accepted intervals of a run should amount to; areas are microwatt-milliseconds, doubled. */
  datatype Tally = Tally(ms: int, area: int, pieces: nat, inputMs: int, inputArea: int, inputPieces: nat)

  ghost function Owed(b: Books, op: Op): Tally {
    if op.RecordOp? && b.previous.Some? && Unrecorded(b, op.sample) &&
       Bridges(b.previous.value, op.sample, op.maxGapMs) then
      var p, s := b.previous.value, op.sample;
      var wall, k := s.capturedMs - p.capturedMs, |Pieces(p.capturedMs, s.capturedMs)|;
      var area := (p.powerUw + s.powerUw) * wall;
      if InputKnown(p) && InputKnown(s) then
        Tally(wall, area, k, wall, (EstimatedInputUw(p).value + EstimatedInputUw(s).value) * wall, k)
      else
        Tally(wall, area, k, 0, 0, 0)
    else
      Tally(0, 0, 0, 0, 0, 0)
  }

  function AddTally(a: Tally, b: Tally): Tally {
    Tally(a.ms + b.ms, a.area + b.area, a.pieces + b.pieces,
          a.inputMs + b.inputMs, a.inputArea + b.inputArea, a.inputPieces + b.inputPieces)
  }

  /** The tally of the intervals that `record` accepted over a run. */
  ghost function Accepted(ops: seq<Op>): Tally {
    if ops == [] then Tally(0, 0, 0, 0, 0, 0) else
      AddTally(Accepted(ops[..|ops| - 1]), Owed(Run(ops[..|ops| - 1]), ops[|ops| - 1]))
  }

  lemma {:induction false} AddFromTotals(energy: map<RowKey, Row>, p: Sample, s: Sample, at: int)
    requires p.capturedMs < s.capturedMs && at <= s.capturedMs
    ensures var after, ps, wall := AddFrom(energy, p, s, at), Pieces(at, s.capturedMs), s.capturedMs - p.capturedMs;
            && Total(after, Observed) == Total(energy, Observed) + (s.capturedMs - at)
            && Total(after, Output) == Total(energy, Output) +
               TotalIntegral(p.powerUw, s.powerUw, p.capturedMs, wall, ps)
            && Total(after, InputObserved) == Total(energy, InputObserved) +
               (if BothInputs(p, s) then s.capturedMs - at else 0)
            && Total(after, Input) == Total(energy, Input) +
               (if BothInputs(p, s)
                then TotalIntegral(EstimatedInputUw(p).value, EstimatedInputUw(s).value, p.capturedMs, wall, ps) else 0)
    decreases s.capturedMs - at
  {
    if at >= s.capturedMs {
    } else {
      var piece, key := NextPiece(at, s), (s.device, MinuteOf(at));
      var row := Contribution(p, s, piece);
      var next := Upsert(energy, key, row);
      assert Pieces(at, s.capturedMs) == [piece] + Pieces(piece.end, s.capturedMs);
      TotalUpdate(energy, key, next[key], Observed);
      TotalUpdate(energy, key, next[key], Output);
      TotalUpdate(energy, key, next[key], InputObserved);
      TotalUpdate(energy, key, next[key], Input);
      AddFromTotals(next, p, s, piece.end);
    }
  }

  /** Exactly a new sample that bridges from the one recorded before it is integrated. */
  lemma AcceptsExactly(b: Books, s: Sample, maxGapMs: nat)
    ensures Accepts(b, s, maxGapMs) <==>
            b.previous.Some? && Unrecorded(b, s) && Bridges(b.previous.value, s, maxGapMs)
  {}

  /** An integrated interval adds exactly its time, and its trapezoids to within half a unit a piece. */
  lemma IntervalTotals(energy: map<RowKey, Row>, p: Sample, s: Sample)
    requires p.capturedMs < s.capturedMs
    ensures var after, wall := AddFrom(energy, p, s, p.capturedMs), s.capturedMs - p.capturedMs;
            var k := |Pieces(p.capturedMs, s.capturedMs)|;
            && Total(after, Observed) - Total(energy, Observed) == wall
            && Total(after, InputObserved) - Total(energy, InputObserved) == (if BothInputs(p, s) then wall else 0)
            && -1000 * k <= 2000 * (Total(after, Output) - Total(energy, Output)) - (p.powerUw + s.powerUw) * wall
                 <= 1000 * k
            && (!BothInputs(p, s) ==> Total(after, Input) == Total(energy, Input))
            && (BothInputs(p, s) ==>
                  -1000 * k <= 2000 * (Total(after, Input) - Total(energy, Input)) -
                    (EstimatedInputUw(p).value + EstimatedInputUw(s).value) * wall <= 1000 * k)
  {
    AddFromTotals(energy, p, s, p.capturedMs);
    TrapezoidsTelescope(p.powerUw, s.powerUw, p.capturedMs, s.capturedMs);
    if BothInputs(p, s) {
      TrapezoidsTelescope(EstimatedInputUw(p).value, EstimatedInputUw(s).value, p.capturedMs, s.capturedMs);
    }
  }

  lemma RecordTotals(b: Books, s: Sample, maxGapMs: nat)
    ensures var owed := Owed(b, RecordOp(s, maxGapMs)); var after := Record(b, s, maxGapMs).energy;
            && Total(after, Observed) - Total(b.energy, Observed) == owed.ms
            && Total(after, InputObserved) - Total(b.energy, InputObserved) == owed.inputMs
            && -1000 * owed.pieces <= 2000 * (Total(after, Output) - Total(b.energy, Output)) - owed.area
                 <= 1000 * owed.pieces
            && -1000 * owed.inputPieces <= 2000 * (Total(after, Input) - Total(b.energy, Input)) - owed.inputArea
                 <= 1000 * owed.inputPieces
  {
    AcceptsExactly(b, s, maxGapMs);
    if Accepts(b, s, maxGapMs) { IntervalTotals(b.energy, b.previous.value, s); }
  }

  /**
   * Recording changes the observed time exactly when the sample is new and bridges from the one recorded before it,
   * and then by the wall-clock time between the two.
   */
  lemma RecordChangesExactly(b: Books, s: Sample, maxGapMs: nat)
    ensures var change := Total(Record(b, s, maxGapMs).energy, Observed) - Total(b.energy, Observed);
            && (change != 0 <==>
                  b.previous.Some? && Unrecorded(b, s) && Bridges(b.previous.value, s, maxGapMs))
            && (change != 0 ==> change == s.capturedMs - b.previous.value.capturedMs)
  {
    RecordTotals(b, s, maxGapMs);
  }

  /** The part of [from, to) that lies in the minute starting at `minute`, in milliseconds. */
  function Overlap(from: int, to: int, minute: int): int {
    Max(0, Min(to, minute + MINUTE_MS) - Max(from, minute))
  }

  function ObservedIn(energy: map<RowKey, Row>, key: RowKey): int {
    if key in energy then energy[key].observedMs else 0
  }

  lemma {:induction false} AddFromByMinute(energy: map<RowKey, Row>, p: Sample, s: Sample, at: int, key: RowKey)
    requires p.capturedMs < s.capturedMs && key.1 % MINUTE_MS == 0
    ensures var after := AddFrom(energy, p, s, at);
            ObservedIn(after, key) - ObservedIn(energy, key) ==
            if key.0 == s.device then Overlap(at, s.capturedMs, key.1) else 0
    decreases s.capturedMs - at
  {
    if at >= s.capturedMs {
    } else {
      var piece := NextPiece(at, s);
      MinuteBounds(at);
      AddFromByMinute(Upsert(energy, (s.device, MinuteOf(at)), Contribution(p, s, piece)), p, s, piece.end, key);
      SameMinute(at, key.1);
    }
  }

  /** Two minute starts are the same or at least a minute apart. */
  lemma SameMinute(at: int, minute: int)
    requires minute % MINUTE_MS == 0
    ensures minute == MinuteOf(at) || minute + MINUTE_MS <= MinuteOf(at) || MinuteOf(at) + MINUTE_MS <= minute
  {}

  /**
   * Minute by minute: an integrated interval adds to each row of its device just the part of it in that minute, and
   * nothing anywhere else; a sample that is not integrated leaves every row as it is.
   */
  lemma RecordByMinute(b: Books, s: Sample, maxGapMs: nat, key: RowKey)
    requires key.1 % MINUTE_MS == 0
    ensures var after := Record(b, s, maxGapMs).energy;
            ObservedIn(after, key) - ObservedIn(b.energy, key) ==
            if b.previous.Some? && Unrecorded(b, s) && Bridges(b.previous.value, s, maxGapMs) && key.0 == s.device
            then Overlap(b.previous.value.capturedMs, s.capturedMs, key.1) else 0
  {
    AcceptsExactly(b, s, maxGapMs);
    if Accepts(b, s, maxGapMs) {
      AddFromByMinute(b.energy, b.previous.value, s, b.previous.value.capturedMs, key);
    }
  }

  // ---------------------------------------------------------------- a recording without interruption

  /** The samples of one recording: their sequences fit and no two share device, session and sequence. */
  ghost predicate Distinct(xs: seq<Sample>) {
    && (forall i :: 0 <= i < |xs| ==> xs[i].sequence <= I64_MAX)
    && (forall i, j :: 0 <= i < j < |xs| ==> KeyOf(xs[i]) != KeyOf(xs[j]))
  }

  function Recording(xs: seq<Sample>, maxGapMs: nat): seq<Op> {
    seq(|xs|, i requires 0 <= i < |xs| => RecordOp(xs[i], maxGapMs))
  }

  function LastOf(xs: seq<Sample>): Option<Sample> { if xs == [] then None else Some(xs[|xs| - 1]) }

  /** What the step to x contributes: its wall-clock time if it bridges, and nothing otherwise. */
  ghost function StepMs(previous: Option<Sample>, x: Sample, maxGapMs: nat): int {
    if previous.Some? && Bridges(previous.value, x, maxGapMs) then x.capturedMs - previous.value.capturedMs else 0
  }

  ghost function BridgedMs(xs: seq<Sample>, maxGapMs: nat): int {
    if xs == [] then 0 else
      BridgedMs(xs[..|xs| - 1], maxGapMs) + StepMs(LastOf(xs[..|xs| - 1]), xs[|xs| - 1], maxGapMs)
  }

  ghost predicate Holds(b: Books, xs: seq<Sample>) {
    b.previous == LastOf(xs) && forall k :: k in b.samples ==> exists i :: 0 <= i < |xs| && KeyOf(xs[i]) == k
  }

  lemma RecordAdds(b: Books, x: Sample, maxGapMs: nat)
    requires Unrecorded(b, x)
    ensures Total(Record(b, x, maxGapMs).energy, Observed) ==
            Total(b.energy, Observed) + StepMs(b.previous, x, maxGapMs)
  {
    RecordChangesExactly(b, x, maxGapMs);
  }

  lemma RecordHolds(b: Books, xs: seq<Sample>, x: Sample, maxGapMs: nat)
    requires Holds(b, xs) && Distinct(xs + [x])
    ensures Unrecorded(b, x) && Holds(Record(b, x, maxGapMs), xs + [x])
  {
    var all := xs + [x];
    forall k | k in b.samples
      ensures k != KeyOf(x) && exists i :: 0 <= i < |all| && KeyOf(all[i]) == k
    {
      var i :| 0 <= i < |xs| && KeyOf(xs[i]) == k;
      assert all[i] == xs[i] && all[|xs|] == x;
    }
    assert all[|xs|] == x;
  }

  lemma NextIsRecorded(b: Books, xs: seq<Sample>, maxGapMs: nat)
    requires xs != [] && Distinct(xs) && Holds(b, xs[..|xs| - 1])
    requires Total(b.energy, Observed) == BridgedMs(xs[..|xs| - 1], maxGapMs)
    ensures var next := Record(b, xs[|xs| - 1], maxGapMs);
            Total(next.energy, Observed) == BridgedMs(xs, maxGapMs) && Holds(next, xs)
  {
    var before, x := xs[..|xs| - 1], xs[|xs| - 1];
    assert xs == before + [x];
    RecordHolds(b, before, x, maxGapMs);
    RecordAdds(b, x, maxGapMs);
  }

  /** The observed time of a recording is the wall-clock time of the steps that bridge, and of no others. */
  lemma {:induction false} RecordingObserves(xs: seq<Sample>, maxGapMs: nat)
    requires Distinct(xs)
    ensures var b := Run(Recording(xs, maxGapMs));
            Total(b.energy, Observed) == BridgedMs(xs, maxGapMs) && Holds(b, xs)
  {
    if xs == [] {
      assert NO_BOOKS.energy == map[];
    } else {
      var before, ops := xs[..|xs| - 1], Recording(xs, maxGapMs);
      RecordingObserves(before, maxGapMs);
      assert ops[..|ops| - 1] == Recording(before, maxGapMs);
      NextIsRecorded(Run(Recording(before, maxGapMs)), xs, maxGapMs);
    }
  }

  /** Steps that all bridge are observed from the first capture to the last. */
  lemma UnbrokenRecording(xs: seq<Sample>, maxGapMs: nat)
    requires Distinct(xs) && xs != []
    requires forall i :: 0 < i < |xs| ==> Bridges(xs[i - 1], xs[i], maxGapMs)
    ensures Total(Run(Recording(xs, maxGapMs)).energy, Observed) == xs[|xs| - 1].capturedMs - xs[0].capturedMs
  {
    RecordingObserves(xs, maxGapMs);
    BridgedAround(xs, maxGapMs, |xs|);
  }

  /** One step that does not bridge costs exactly its own wall-clock time. */
  lemma BrokenRecording(xs: seq<Sample>, maxGapMs: nat, k: nat)
    requires Distinct(xs) && 0 < k < |xs|
    requires forall i :: 0 < i < |xs| ==> (Bridges(xs[i - 1], xs[i], maxGapMs) <==> i != k)
    ensures Total(Run(Recording(xs, maxGapMs)).energy, Observed) ==
            (xs[k - 1].capturedMs - xs[0].capturedMs) + (xs[|xs| - 1].capturedMs - xs[k].capturedMs)
  {
    RecordingObserves(xs, maxGapMs);
    BridgedAround(xs, maxGapMs, k);
  }

  lemma {:induction false} BridgedAround(xs: seq<Sample>, maxGapMs: nat, k: nat)
    requires 0 < k && xs != []
    requires forall i :: 0 < i < |xs| ==> (Bridges(xs[i - 1], xs[i], maxGapMs) <==> i != k)
    ensures BridgedMs(xs, maxGapMs) == xs[|xs| - 1].capturedMs - xs[0].capturedMs -
            if k < |xs| then xs[k].capturedMs - xs[k - 1].capturedMs else 0
  {
    if |xs| == 1 {
    } else {
      var before := xs[..|xs| - 1];
      forall i | 0 < i < |before|
        ensures Bridges(before[i - 1], before[i], maxGapMs) <==> i != k
      {
        assert Bridges(xs[i - 1], xs[i], maxGapMs) <==> i != k;
      }
      BridgedAround(before, maxGapMs, k);
      assert Bridges(xs[|xs| - 1 - 1], xs[|xs| - 1], maxGapMs) <==> |xs| - 1 != k;
    }
  }

  /**
   * Conservation over every run, with restarts, duplicates and pruning: the observed time in the table is exactly
   * the sum of the accepted intervals, and the stored energy is their exact trapezoids to within half a unit a piece.
   */
  lemma {:induction false} EnergyIsConserved(ops: seq<Op>)
    ensures var e, owed := Run(ops).energy, Accepted(ops);
            && Total(e, Observed) == owed.ms
            && Total(e, InputObserved) == owed.inputMs
            && -1000 * owed.pieces <= 2000 * Total(e, Output) - owed.area <= 1000 * owed.pieces
            && -1000 * owed.inputPieces <= 2000 * Total(e, Input) - owed.inputArea <= 1000 * owed.inputPieces
  {
    if ops == [] {
    } else {
      var before, op := ops[..|ops| - 1], ops[|ops| - 1];
      EnergyIsConserved(before);
      if op.RecordOp? { RecordTotals(Run(before), op.sample, op.maxGapMs); }
    }
  }

  // ---------------------------------------------------------------- rows

  ghost predicate RowOk(key: RowKey, r: Row) {
    && key.1 % MINUTE_MS == 0
    && 0 < r.observedMs && 0 <= r.inputObservedMs <= r.observedMs
    && (r.inputObservedMs == 0 ==> r.inputUj == 0)
  }

  /** Bounds that hold of rows built from decoder-accepted readings, in microjoules per observed millisecond. */
  ghost predicate RowInRange(r: Row) {
    && 0 <= r.outputUj <= 2_500_000 * r.observedMs
    && 0 <= r.inputUj <= 250_000_000_000 * r.inputObservedMs
    && (r.inputObservedMs == r.observedMs ==> r.inputUj >= r.outputUj)
  }

  ghost predicate RowsOk(energy: map<RowKey, Row>) { forall k :: k in energy ==> RowOk(k, energy[k]) }

  ghost predicate RowsInRange(energy: map<RowKey, Row>) { forall k :: k in energy ==> RowInRange(energy[k]) }

  /** No row has observed more than the part of its minute that had passed at `highWater`. */
  ghost predicate RowsWithin(energy: map<RowKey, Row>, highWater: int) {
    forall k :: k in energy ==> energy[k].observedMs <= MINUTE_MS && energy[k].observedMs <= highWater - k.1
  }

  lemma {:induction false} AddFromKeepsRowsOk(energy: map<RowKey, Row>, p: Sample, s: Sample, at: int)
    requires p.capturedMs < s.capturedMs && RowsOk(energy)
    ensures RowsOk(AddFrom(energy, p, s, at))
    decreases s.capturedMs - at
  {
    if at >= s.capturedMs {
    } else {
      var piece := NextPiece(at, s);
      AddFromKeepsRowsOk(Upsert(energy, (s.device, MinuteOf(at)), Contribution(p, s, piece)), p, s, piece.end);
    }
  }

  lemma {:induction false} AddFromKeepsWithin(energy: map<RowKey, Row>, p: Sample, s: Sample, at: int)
    requires p.capturedMs < s.capturedMs && at <= s.capturedMs && RowsOk(energy) && RowsWithin(energy, at)
    ensures RowsWithin(AddFrom(energy, p, s, at), s.capturedMs)
    decreases s.capturedMs - at
  {
    if at >= s.capturedMs {
    } else {
      var piece, key := NextPiece(at, s), (s.device, MinuteOf(at));
      var next := Upsert(energy, key, Contribution(p, s, piece));
      assert RowsOk(next) by { UpsertKeepsRowsOk(energy, key, Contribution(p, s, piece)); }
      AddFromKeepsWithin(next, p, s, piece.end);
    }
  }

  lemma UpsertKeepsRowsOk(energy: map<RowKey, Row>, key: RowKey, row: Row)
    requires RowsOk(energy) && RowOk(key, row)
    ensures RowsOk(Upsert(energy, key, row))
  {}

  lemma {:induction false} AddFromKeepsRange(energy: map<RowKey, Row>, p: Sample, s: Sample, at: int)
    requires p.capturedMs <= at && p.capturedMs < s.capturedMs
    requires PowerInRange(p) && PowerInRange(s) && RowsOk(energy) && RowsInRange(energy)
    ensures RowsInRange(AddFrom(energy, p, s, at))
    decreases s.capturedMs - at
  {
    if at >= s.capturedMs {
    } else {
      var piece, key := NextPiece(at, s), (s.device, MinuteOf(at));
      var row := Contribution(p, s, piece);
      ContributionInRange(p, s, piece);
      assert RowOk(key, row);
      UpsertKeepsRowsOk(energy, key, row);
      var next := Upsert(energy, key, row);
      assert RowsInRange(next);
      AddFromKeepsRange(next, p, s, piece.end);
    }
  }

  lemma ContributionInRange(p: Sample, s: Sample, piece: Piece)
    requires p.capturedMs <= piece.start < piece.end <= s.capturedMs
    requires PowerInRange(p) && PowerInRange(s)
    ensures RowInRange(Contribution(p, s, piece))
  {
    var wall := s.capturedMs - p.capturedMs;
    IntegrateInRange(p.powerUw, s.powerUw, p.capturedMs, wall, piece, 2_500_000);
    if BothInputs(p, s) {
      EstimateAtLeastOutput(p);
      EstimateAtLeastOutput(s);
      var a, b := EstimatedInputUw(p).value, EstimatedInputUw(s).value;
      IntegrateInRange(a, b, p.capturedMs, wall, piece, 250_000_000_000);
      IntegrateMonotone(p.powerUw, s.powerUw, a, b, p.capturedMs, wall, piece);
    }
  }

  lemma IntegrateInRange(left: int, right: int, origin: int, wall: int, piece: Piece, perMs: nat)
    requires origin <= piece.start < piece.end <= origin + wall
    requires 0 <= left <= 1000 * perMs && 0 <= right <= 1000 * perMs
    ensures 0 <= Integrate(left, right, origin, wall, piece) <= perMs * Duration(piece)
  {
    var x, len := (piece.start - origin) + (piece.end - origin), Duration(piece);
    var mean := 2 * left * wall + (right - left) * x;
    ProductBounds(left, 2 * wall - x, 1000 * perMs);
    ProductBounds(right, x, 1000 * perMs);
    assert 1000 * perMs * (2 * wall - x) + 1000 * perMs * x == 2000 * perMs * wall;
    ProductBounds(mean, len, 2000 * perMs * wall);
    assert 2000 * perMs * wall * len == perMs * len * (2000 * wall);
    RoundAtMost(mean * len, 2000 * wall, perMs * len);
    RoundMonotone(0, mean * len, 2000 * wall);
  }

  lemma ProductBounds(a: int, x: int, top: int)
    requires 0 <= a <= top && 0 <= x
    ensures 0 <= a * x <= top * x
  {}

  lemma IntegrateMonotone(left: int, right: int, a: int, b: int, origin: int, wall: int, piece: Piece)
    requires origin <= piece.start < piece.end <= origin + wall
    requires 0 <= left <= a && 0 <= right <= b
    ensures Integrate(left, right, origin, wall, piece) <= Integrate(a, b, origin, wall, piece)
  {
    var x, len := (piece.start - origin) + (piece.end - origin), Duration(piece);
    ProductBounds(left, 2 * wall - x, a);
    ProductBounds(right, x, b);
    var low := 2 * left * wall + (right - left) * x;
    var high := 2 * a * wall + (b - a) * x;
    ProductBounds(low, len, high);
    RoundMonotone(low * len, high * len, 2000 * wall);
  }

  // ---------------------------------------------------------------- rows over runs

  lemma {:induction false} RunRowsOk(ops: seq<Op>)
    ensures RowsOk(Run(ops).energy)
  {
    if ops == [] {
    } else {
      var before, op := ops[..|ops| - 1], ops[|ops| - 1];
      RunRowsOk(before);
      var b := Run(before);
      if op.RecordOp? && Accepts(b, op.sample, op.maxGapMs) {
        AddFromKeepsRowsOk(b.energy, b.previous.value, op.sample, b.previous.value.capturedMs);
      }
    }
  }

  /** Capture time of the last sample that the run recorded as new. */
  function LastRecorded(ops: seq<Op>): Option<int> {
    if ops == [] then None else
      var before, op := ops[..|ops| - 1], ops[|ops| - 1];
      if op.RecordOp? && IsNew(Run(before), op.sample) then Some(op.sample.capturedMs) else LastRecorded(before)
  }

  /** Each newly recorded sample was captured no earlier than the one recorded before it, restarts included. */
  ghost predicate NeverStepsBack(ops: seq<Op>) {
    ops == [] ||
    var before, op := ops[..|ops| - 1], ops[|ops| - 1];
    && NeverStepsBack(before)
    && (op.RecordOp? && IsNew(Run(before), op.sample) && LastRecorded(before).Some? ==>
          LastRecorded(before).value <= op.sample.capturedMs)
  }

  /** Without backward steps of the wall clock no minute row ever exceeds a minute. */
  lemma {:induction false} MinuteNeverOverflows(ops: seq<Op>)
    requires NeverStepsBack(ops)
    ensures var b := Run(ops);
            && (forall k :: k in b.energy ==> b.energy[k].observedMs <= MINUTE_MS)
            && (b.previous.Some? ==> LastRecorded(ops) == Some(b.previous.value.capturedMs))
            && (LastRecorded(ops).None? ==> b.energy == map[])
            && (LastRecorded(ops).Some? ==> RowsWithin(b.energy, LastRecorded(ops).value))
  {
    if ops == [] {
    } else {
      var before, op := ops[..|ops| - 1], ops[|ops| - 1];
      MinuteNeverOverflows(before);
      RunRowsOk(before);
      var b := Run(before);
      if op.RecordOp? && Accepts(b, op.sample, op.maxGapMs) {
        AddFromKeepsWithin(b.energy, b.previous.value, op.sample, b.previous.value.capturedMs);
      }
    }
  }

  ghost predicate DecoderRange(ops: seq<Op>) {
    forall i :: 0 <= i < |ops| && ops[i].RecordOp? ==> PowerInRange(ops[i].sample)
  }

  lemma {:induction false} RunRowsInRange(ops: seq<Op>)
    requires DecoderRange(ops)
    ensures RowsInRange(Run(ops).energy)
    ensures Run(ops).previous.Some? ==> PowerInRange(Run(ops).previous.value)
  {
    if ops == [] {
    } else {
      var before, op := ops[..|ops| - 1], ops[|ops| - 1];
      RunRowsInRange(before);
      RunRowsOk(before);
      var b := Run(before);
      if op.RecordOp? && Accepts(b, op.sample, op.maxGapMs) {
        AddFromKeepsRange(b.energy, b.previous.value, op.sample, b.previous.value.capturedMs);
      }
    }
  }

  /** With decoder-accepted power and no backward clock step, every stored row fits a signed 64-bit column. */
  lemma RowsFitI64(ops: seq<Op>, key: RowKey)
    requires DecoderRange(ops) && NeverStepsBack(ops) && key in Run(ops).energy
    ensures var r := Run(ops).energy[key];
            && 0 <= r.outputUj <= 150_000_000_000
            && 0 <= r.inputUj <= 15_000_000_000_000_000 < I64_MAX
            && 0 < r.observedMs <= MINUTE_MS
  {
    RunRowsInRange(ops);
    RunRowsOk(ops);
    MinuteNeverOverflows(ops);
  }

  /** Recording the sample that was recorded last changes nothing. */
  lemma RecordTwice(b: Books, s: Sample, maxGapMs: nat)
    ensures Record(Record(b, s, maxGapMs), s, maxGapMs) == Record(b, s, maxGapMs)
  {}
}
