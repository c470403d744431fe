/** Priced summaries: energy rows grouped by calendar bucket, each row priced at the rate of its minute. */
module Summary {
  import opened Wrappers
  import opened Telemetry
  import opened Totals
  import opened Energy
  import opened Ledger
  import opened Tariffs

  /** One selected energy row. */
  datatype Line = Line(minute: int, row: Row)

  /** The calendar key of a minute; None for a stored timestamp the calendar cannot represent. */
  type Calendar = int -> Option<string>

  /** Accumulator of one bucket; cost is microjoules times micro-units per kWh. */
  datatype Bucket = Bucket(outputUj: int, inputUj: int, observedMs: int, inputObservedMs: int,
                           pricedMs: int, cost: int, currency: Option<string>)

  const NO_BUCKET := Bucket(0, 0, 0, 0, 0, 0, None)
  const MAX_BUCKETS := 10_000
  const UJ_PER_KWH := 3_600_000_000_000

  function AddLine(b: Bucket, r: Row, rate: Option<Rate>): Bucket {
    var priced := if rate.Some? then r.inputObservedMs else 0;
    var cost := if rate.Some? then r.inputUj * rate.value.microPerKwh else 0;
    Bucket(b.outputUj + r.outputUj, b.inputUj + r.inputUj, b.observedMs + r.observedMs,
           b.inputObservedMs + r.inputObservedMs, b.pricedMs + priced, b.cost + cost,
           if rate.Some? then Some(rate.value.currency) else b.currency)
  }

  /** Micro-units of a bucket: the accumulated cost over one kWh, half a unit added, truncated. */
  function Micro(cost: int): int { TruncDiv(cost + UJ_PER_KWH / 2, UJ_PER_KWH) }

  datatype EnergySummary = EnergySummary(totals: Bucket, cost: Option<int>, incomplete: bool)

  function Finish(b: Bucket): EnergySummary {
    EnergySummary(b, if b.pricedMs > 0 then Some(Micro(b.cost)) else None, b.pricedMs < b.observedMs)
  }

  ghost predicate Ordered(lines: seq<Line>) {
    forall i, j :: 0 <= i < j < |lines| ==> lines[i].minute < lines[j].minute
  }

  /** The rows a query returns: the device's minutes in range, in order. */
  ghost predicate Selected(lines: seq<Line>, energy: map<RowKey, Row>, device: string, from: int, to: int) {
    && Ordered(lines)
    && (forall i :: 0 <= i < |lines| ==>
          && (device, lines[i].minute) in energy && lines[i].row == energy[(device, lines[i].minute)]
          && from <= lines[i].minute < to)
    && (forall m :: (device, m) in energy && from <= m < to ==> exists i :: 0 <= i < |lines| && lines[i].minute == m)
  }

  /** The table, the device and the range determine the selection. */
  lemma {:induction false} SelectionIsUnique(a: seq<Line>, b: seq<Line>, energy: map<RowKey, Row>, device: string,
      from: int, to: int)
    requires Selected(a, energy, device, from, to) && Selected(b, energy, device, from, to)
    ensures a == b
    decreases |a|
  {
    SameEmptiness(a, b, energy, device, from, to);
    if a == [] {
    } else {
      SameLast(a, b, energy, device, from, to);
      SelectedBefore(a, energy, device, from, to);
      SelectedBefore(b, energy, device, from, to);
      SelectionIsUnique(a[..|a| - 1], b[..|b| - 1], energy, device, from, a[|a| - 1].minute);
      assert a == a[..|a| - 1] + [a[|a| - 1]] && b == b[..|b| - 1] + [b[|b| - 1]];
    }
  }

  lemma SameEmptiness(a: seq<Line>, b: seq<Line>, energy: map<RowKey, Row>, device: string, from: int, to: int)
    requires Selected(a, energy, device, from, to) && Selected(b, energy, device, from, to)
    ensures a == [] <==> b == []
  {
    if a != [] {
      assert (device, a[0].minute) in energy;
      var i :| 0 <= i < |b| && b[i].minute == a[0].minute;
    }
    if b != [] {
      assert (device, b[0].minute) in energy;
      var i :| 0 <= i < |a| && a[i].minute == b[0].minute;
    }
  }

  lemma SameLast(a: seq<Line>, b: seq<Line>, energy: map<RowKey, Row>, device: string, from: int, to: int)
    requires Selected(a, energy, device, from, to) && Selected(b, energy, device, from, to) && a != [] && b != []
    ensures a[|a| - 1] == b[|b| - 1]
  {
    var i :| 0 <= i < |b| && b[i].minute == a[|a| - 1].minute;
    var j :| 0 <= j < |a| && a[j].minute == b[|b| - 1].minute;
  }

  lemma SelectedBefore(a: seq<Line>, energy: map<RowKey, Row>, device: string, from: int, to: int)
    requires Selected(a, energy, device, from, to) && a != []
    ensures Selected(a[..|a| - 1], energy, device, from, a[|a| - 1].minute)
  {
    var before, last := a[..|a| - 1], a[|a| - 1].minute;
    forall m | (device, m) in energy && from <= m < last
      ensures exists i :: 0 <= i < |before| && before[i].minute == m
    {
      var i :| 0 <= i < |a| && a[i].minute == m;
      assert before[i] == a[i];
    }
  }

  // ---------------------------------------------------------------- reference definition

  function Keys(lines: seq<Line>, calendar: Calendar): set<string> {
    set i | 0 <= i < |lines| && calendar(lines[i].minute).Some? :: calendar(lines[i].minute).value
  }

  /** The bucket of one key: exactly the rows whose minute has that key, each at the rate in force. */
  ghost function BucketOf(lines: seq<Line>, table: map<int, Rate>, calendar: Calendar, key: string): Bucket {
    if lines == [] then NO_BUCKET else
      var before, l := lines[..|lines| - 1], lines[|lines| - 1];
      var b := BucketOf(before, table, calendar, key);
      if calendar(l.minute) == Some(key) then AddLine(b, l.row, RateAt(table, l.minute)) else b
  }

  ghost function Buckets(lines: seq<Line>, table: map<int, Rate>, calendar: Calendar): map<string, Bucket> {
    map k | k in Keys(lines, calendar) :: BucketOf(lines, table, calendar, k)
  }

  /** All rows in one accumulator, whatever their key. */
  ghost function Straight(lines: seq<Line>, table: map<int, Rate>): Bucket {
    if lines == [] then NO_BUCKET else
      AddLine(Straight(lines[..|lines| - 1], table), lines[|lines| - 1].row, RateAt(table, lines[|lines| - 1].minute))
  }

  ghost predicate Dated(lines: seq<Line>, calendar: Calendar) {
    forall i :: 0 <= i < |lines| ==> calendar(lines[i].minute).Some?
  }

  lemma KeysSnoc(lines: seq<Line>, l: Line, calendar: Calendar)
    ensures Keys(lines + [l], calendar) ==
            Keys(lines, calendar) + (if calendar(l.minute).Some? then {calendar(l.minute).value} else {})
  {
    var all := lines + [l];
    forall k | k in Keys(lines, calendar)
      ensures k in Keys(all, calendar)
    {
      var i :| 0 <= i < |lines| && calendar(lines[i].minute) == Some(k);
      assert all[i] == lines[i];
    }
    if calendar(l.minute).Some? {
      assert all[|lines|] == l;
    }
  }

  /** One more row changes only its own bucket. */
  lemma BucketsSnoc(lines: seq<Line>, l: Line, table: map<int, Rate>, calendar: Calendar)
    requires calendar(l.minute).Some?
    ensures var k, prior := calendar(l.minute).value, Buckets(lines, table, calendar);
            Buckets(lines + [l], table, calendar) ==
            prior[k := AddLine(if k in prior then prior[k] else NO_BUCKET, l.row, RateAt(table, l.minute))]
  {
    var all := lines + [l];
    assert all[..|all| - 1] == lines;
    KeysSnoc(lines, l, calendar);
    var k := calendar(l.minute).value;
    if k !in Keys(lines, calendar) { AbsentKeyIsEmpty(lines, table, calendar, k); }
  }

  lemma {:induction false} AbsentKeyIsEmpty(lines: seq<Line>, table: map<int, Rate>, calendar: Calendar, key: string)
    requires key !in Keys(lines, calendar)
    ensures BucketOf(lines, table, calendar, key) == NO_BUCKET
  {
    if lines == [] {
    } else {
      var before, l := lines[..|lines| - 1], lines[|lines| - 1];
      assert lines == before + [l];
      KeysSnoc(before, l, calendar);
      AbsentKeyIsEmpty(before, table, calendar, key);
    }
  }

  // ---------------------------------------------------------------- the items of a bucket

  /** The rows whose minute has the key, in order. */
  ghost function RowsOf(lines: seq<Line>, calendar: Calendar, key: string): seq<Line> {
    if lines == [] then [] else
      RowsOf(lines[..|lines| - 1], calendar, key) +
      if calendar(lines[|lines| - 1].minute) == Some(key) then [lines[|lines| - 1]] else []
  }

  ghost function Sum(rows: seq<Line>, f: Line -> int): int {
    if rows == [] then 0 else Sum(rows[..|rows| - 1], f) + f(rows[|rows| - 1])
  }

  function LineOutput(l: Line): int { l.row.outputUj }
  function LineInput(l: Line): int { l.row.inputUj }
  function LineObserved(l: Line): int { l.row.observedMs }
  function LineInputObserved(l: Line): int { l.row.inputObservedMs }

  /** The price of a row: its input energy times the rate in force at its minute, nothing without one. */
  ghost function Charge(table: map<int, Rate>): Line -> int {
    (l: Line) => if RateAt(table, l.minute).Some? then l.row.inputUj * RateAt(table, l.minute).value.microPerKwh else 0
  }

  /** The observed input time of a row that has a rate in force. */
  ghost function PricedTime(table: map<int, Rate>): Line -> int {
    (l: Line) => if RateAt(table, l.minute).Some? then l.row.inputObservedMs else 0
  }

  /** Row i is the last of the rows with a rate in force. */
  ghost predicate LastPriced(rows: seq<Line>, table: map<int, Rate>, i: nat) {
    && i < |rows| && RateAt(table, rows[i].minute).Some?
    && forall j :: i < j < |rows| ==> RateAt(table, rows[j].minute).None?
  }

  /** The currency is that of the last row with a rate in force, and there is none without such a row. */
  ghost predicate CurrencyOf(currency: Option<string>, rows: seq<Line>, table: map<int, Rate>) {
    && (currency.None? <==> forall i :: 0 <= i < |rows| ==> RateAt(table, rows[i].minute).None?)
    && forall i: nat :: LastPriced(rows, table, i) ==> currency == Some(RateAt(table, rows[i].minute).value.currency)
  }

  /** A bucket adds up its rows, one by one. */
  ghost predicate Itemized(b: Bucket, rows: seq<Line>, table: map<int, Rate>) {
    && b.outputUj == Sum(rows, LineOutput) && b.inputUj == Sum(rows, LineInput)
    && b.observedMs == Sum(rows, LineObserved) && b.inputObservedMs == Sum(rows, LineInputObserved)
    && b.cost == Sum(rows, Charge(table)) && b.pricedMs == Sum(rows, PricedTime(table))
    && CurrencyOf(b.currency, rows, table)
  }

  lemma CurrencySnoc(currency: Option<string>, rows: seq<Line>, l: Line, table: map<int, Rate>)
    requires CurrencyOf(currency, rows, table)
    ensures CurrencyOf(if RateAt(table, l.minute).Some? then Some(RateAt(table, l.minute).value.currency) else currency,
              rows + [l], table)
  {
    var all := rows + [l];
    assert forall i :: 0 <= i < |rows| ==> all[i] == rows[i];
    assert all[|rows|] == l;
    forall i: nat | LastPriced(all, table, i) && i < |rows|
      ensures LastPriced(rows, table, i) && RateAt(table, l.minute).None?
    {
      assert RateAt(table, all[|rows|].minute).None?;
      forall j | i < j < |rows|
        ensures RateAt(table, rows[j].minute).None?
      {
        assert all[j] == rows[j];
      }
    }
  }

  lemma SumSnoc(rows: seq<Line>, l: Line, f: Line -> int)
    ensures Sum(rows + [l], f) == Sum(rows, f) + f(l)
  {
    assert (rows + [l])[..|rows|] == rows;
  }

  lemma ItemizedSnoc(b: Bucket, rows: seq<Line>, l: Line, table: map<int, Rate>)
    requires Itemized(b, rows, table)
    ensures Itemized(AddLine(b, l.row, RateAt(table, l.minute)), rows + [l], table)
  {
    SumSnoc(rows, l, LineOutput);
    SumSnoc(rows, l, LineInput);
    SumSnoc(rows, l, LineObserved);
    SumSnoc(rows, l, LineInputObserved);
    SumSnoc(rows, l, Charge(table));
    SumSnoc(rows, l, PricedTime(table));
    CurrencySnoc(b.currency, rows, l, table);
  }

  /**
   * Whatever rows were selected, the bucket of a key adds up the rows of that key: its cost is each row's input energy
   * at the rate in force at that row's minute.
   */
  lemma {:induction false} BucketIsItemized(lines: seq<Line>, table: map<int, Rate>, calendar: Calendar, key: string)
    ensures Itemized(BucketOf(lines, table, calendar, key), RowsOf(lines, calendar, key), table)
  {
    if lines == [] {
    } else {
      var before, l := lines[..|lines| - 1], lines[|lines| - 1];
      BucketIsItemized(before, table, calendar, key);
      var b, rows := BucketOf(before, table, calendar, key), RowsOf(before, calendar, key);
      if calendar(l.minute) == Some(key) {
        ItemizedSnoc(b, rows, l, table);
        assert RowsOf(lines, calendar, key) == rows + [l];
      } else {
        assert RowsOf(lines, calendar, key) == rows;
      }
    }
  }

  /**
   * The summary of a bucket, from its rows: an amount exactly when some input time is priced, namely the exact price
   * over one kWh rounded half up, and marked incomplete exactly when some observed time is not priced.
   */
  ghost predicate Bills(e: EnergySummary, rows: seq<Line>, table: map<int, Rate>) {
    var exact := Sum(rows, Charge(table));
    && Itemized(e.totals, rows, table)
    && (e.cost.Some? <==> Sum(rows, PricedTime(table)) > 0)
    && (e.cost.Some? && exact >= 0 ==> -UJ_PER_KWH <= 2 * (exact - UJ_PER_KWH * e.cost.value) < UJ_PER_KWH)
    && (e.incomplete <==> Sum(rows, PricedTime(table)) < Sum(rows, LineObserved))
  }

  lemma SummaryBills(lines: seq<Line>, table: map<int, Rate>, calendar: Calendar, key: string)
    ensures Bills(Finish(BucketOf(lines, table, calendar, key)), RowsOf(lines, calendar, key), table)
  {
    BucketIsItemized(lines, table, calendar, key);
  }

  /** Where one rate governs every row, the exact price is that rate times the input energy, all of it priced. */
  lemma {:induction false} OneRate(rows: seq<Line>, table: map<int, Rate>, rate: Rate)
    requires forall i :: 0 <= i < |rows| ==> RateAt(table, rows[i].minute) == Some(rate)
    ensures Sum(rows, Charge(table)) == rate.microPerKwh * Sum(rows, LineInput)
    ensures Sum(rows, PricedTime(table)) == Sum(rows, LineInputObserved)
  {
    if rows == [] {
    } else {
      OneRate(rows[..|rows| - 1], table, rate);
    }
  }

  // ---------------------------------------------------------------- partition without loss

  function OutputUj(b: Bucket): int { b.outputUj }
  function InputUj(b: Bucket): int { b.inputUj }
  function ObservedMs(b: Bucket): int { b.observedMs }
  function InputObservedMs(b: Bucket): int { b.inputObservedMs }
  function PricedMs(b: Bucket): int { b.pricedMs }
  function ExactCost(b: Bucket): int { b.cost }

  /** A measure that a row adds to, whatever is already in the bucket. */
  ghost predicate Additive(f: Bucket -> int) {
    f(NO_BUCKET) == 0 && forall b, r, rate :: f(AddLine(b, r, rate)) == f(b) + f(AddLine(NO_BUCKET, r, rate))
  }

  lemma {:induction false} MeasurePartitions(lines: seq<Line>, table: map<int, Rate>, calendar: Calendar,
      f: Bucket -> int)
    requires Dated(lines, calendar) && Additive(f)
    ensures Total(Buckets(lines, table, calendar), f) == f(Straight(lines, table))
  {
    if lines == [] {
      assert Buckets(lines, table, calendar) == map[];
    } else {
      var before, l := lines[..|lines| - 1], lines[|lines| - 1];
      assert lines == before + [l];
      MeasurePartitions(before, table, calendar, f);
      BucketsSnoc(before, l, table, calendar);
      var prior, k, rate := Buckets(before, table, calendar), calendar(l.minute).value, RateAt(table, l.minute);
      var b := if k in prior then prior[k] else NO_BUCKET;
      TotalUpdate(prior, k, AddLine(b, l.row, rate), f);
      assert f(AddLine(b, l.row, rate)) == f(b) + f(AddLine(NO_BUCKET, l.row, rate));
    }
  }

  /** The buckets sum to the straight totals of the selected rows, for any calendar. */
  lemma BucketsPartition(lines: seq<Line>, table: map<int, Rate>, calendar: Calendar)
    requires Dated(lines, calendar)
    ensures var all, s := Buckets(lines, table, calendar), Straight(lines, table);
            && Total(all, OutputUj) == s.outputUj
            && Total(all, InputUj) == s.inputUj
            && Total(all, ObservedMs) == s.observedMs
            && Total(all, InputObservedMs) == s.inputObservedMs
            && Total(all, PricedMs) == s.pricedMs
            && Total(all, ExactCost) == s.cost
  {
    MeasurePartitions(lines, table, calendar, OutputUj);
    MeasurePartitions(lines, table, calendar, InputUj);
    MeasurePartitions(lines, table, calendar, ObservedMs);
    MeasurePartitions(lines, table, calendar, InputObservedMs);
    MeasurePartitions(lines, table, calendar, PricedMs);
    MeasurePartitions(lines, table, calendar, ExactCost);
  }

  // ---------------------------------------------------------------- what reachable rows imply

  ghost predicate LinesOk(lines: seq<Line>, device: string) {
    forall i :: 0 <= i < |lines| ==> RowOk((device, lines[i].minute), lines[i].row)
  }

  ghost predicate LinesInRange(lines: seq<Line>) { forall i :: 0 <= i < |lines| ==> RowInRange(lines[i].row) }

  /** Priced time within input time within output time; no priced time means no cost at all. */
  ghost predicate BucketOk(b: Bucket) {
    && 0 <= b.pricedMs <= b.inputObservedMs <= b.observedMs
    && (b.pricedMs == 0 ==> b.cost == 0)
  }

  /** With decoder-accepted readings: nothing is negative, and full input coverage means input at least output. */
  ghost predicate BucketInRange(b: Bucket) {
    && 0 <= b.cost && 0 <= b.outputUj && 0 <= b.inputUj
    && (b.inputObservedMs == b.observedMs ==> b.inputUj >= b.outputUj)
  }

  lemma {:induction false} BucketsOk(lines: seq<Line>, table: map<int, Rate>, calendar: Calendar, key: string,
      device: string)
    requires LinesOk(lines, device)
    ensures BucketOk(BucketOf(lines, table, calendar, key))
  {
    if lines == [] {
    } else {
      BucketsOk(lines[..|lines| - 1], table, calendar, key, device);
      assert RowOk((device, lines[|lines| - 1].minute), lines[|lines| - 1].row);
    }
  }

  /** A bucket whose input and output were observed equally long used at least as much input as output. */
  lemma {:induction false} BucketsInRange(lines: seq<Line>, table: map<int, Rate>, calendar: Calendar, key: string,
      device: string)
    requires LinesOk(lines, device) && LinesInRange(lines) && TableOk(table)
    ensures BucketInRange(BucketOf(lines, table, calendar, key))
  {
    if lines == [] {
    } else {
      var before, l := lines[..|lines| - 1], lines[|lines| - 1];
      BucketsInRange(before, table, calendar, key, device);
      BucketsOk(before, table, calendar, key, device);
      assert RowOk((device, l.minute), l.row) && RowInRange(l.row);
      if RateAt(table, l.minute).Some? {
        ProductBounds(0, RateAt(table, l.minute).value.microPerKwh, l.row.inputUj);
      }
    }
  }

  // ---------------------------------------------------------------- rounding

  /** The bucket's rounding is to nearest exactly when the cost is not below minus half a unit, or lands on a half. */
  lemma MicroIsNearestIff(n: int)
    ensures -(UJ_PER_KWH / 2) <= UJ_PER_KWH * Micro(n) - n <= UJ_PER_KWH / 2
       <==> n >= -(UJ_PER_KWH / 2) || (n + UJ_PER_KWH / 2) % UJ_PER_KWH == 0
  {}

  /** Half a unit and one part below zero: zero is billed, though minus one is nearer. */
  lemma NegativeRoundsToZero()
    ensures var n := -1_800_000_000_001;
            && Micro(n) == 0 && UJ_PER_KWH * Micro(n) - n > UJ_PER_KWH / 2
            && -(UJ_PER_KWH / 2) <= UJ_PER_KWH * -1 - n <= UJ_PER_KWH / 2
  {}

  function Billed(b: Bucket): int { if Finish(b).cost.Some? then Finish(b).cost.value else 0 }

  ghost predicate Billable(m: map<string, Bucket>) {
    forall k :: k in m ==> m[k].cost >= 0 && (m[k].pricedMs <= 0 ==> m[k].cost == 0)
  }

  function Costed(m: map<string, Bucket>): set<string> { set k | k in m && Finish(m[k]).cost.Some? }

  /** `billed` micro-units differ from `exact` microjoules-times-rate by at most k halves of a micro-unit. */
  ghost predicate WithinHalves(billed: int, exact: int, k: nat) {
    -(UJ_PER_KWH * k) <= 2 * (UJ_PER_KWH * billed - exact) <= UJ_PER_KWH * k
  }

  /** The billed micro-units of k costed buckets differ from the exact cost by at most k halves. */
  lemma {:induction false} BilledWithinHalves(m: map<string, Bucket>)
    requires Billable(m)
    ensures WithinHalves(Total(m, Billed), Total(m, ExactCost), |Costed(m)|)
    decreases |m|
  {
    if m == map[] {
    } else {
      var k :| k in m;
      var rest := m - {k};
      TotalTakeOut(m, k, Billed);
      TotalTakeOut(m, k, ExactCost);
      BilledWithinHalves(rest);
      assert Costed(m) - {k} == Costed(rest);
      var one := if k in Costed(m) then 1 else 0;
      assert |Costed(m)| == one + |Costed(rest)| by {
        if k !in Costed(m) { assert Costed(m) == Costed(rest); }
      }
    }
  }

  // ---------------------------------------------------------------- late pricing

  /** Storing a rate changes only buckets holding a row from its time up to the next dated rate. */
  lemma {:induction false} LatePricingIsLocal(lines: seq<Line>, table: map<int, Rate>, calendar: Calendar, key: string,
                                              t: Tariff, next: Option<int>)
    requires NextRate(table, t.effectiveMs, next)
    requires forall i :: 0 <= i < |lines| && calendar(lines[i].minute) == Some(key) ==>
               lines[i].minute < t.effectiveMs || (next.Some? && next.value <= lines[i].minute)
    ensures BucketOf(lines, Stored(table, t), calendar, key) == BucketOf(lines, table, calendar, key)
  {
    if lines == [] {
    } else {
      var l := lines[|lines| - 1];
      LatePricingIsLocal(lines[..|lines| - 1], table, calendar, key, t, next);
      StoringIsLocal(table, t, next, l.minute);
    }
  }

  // ---------------------------------------------------------------- ranges

  const MAX_ROW_COST := 15_000_000_000_000_000_000_000_000_000
  const YEAR_MINUTES := 528_480   // 367 days cover any calendar year in any time zone

  /** A bucket spanning `minutes` minutes costs at most that many full rows at the highest rate. */
  lemma {:induction false} CostBound(lines: seq<Line>, table: map<int, Rate>, calendar: Calendar, key: string,
                                     device: string, start: int, minutes: nat)
    requires LinesOk(lines, device) && LinesInRange(lines) && TableOk(table) && Ordered(lines)
    requires forall i :: 0 <= i < |lines| ==> lines[i].row.observedMs <= MINUTE_MS
    requires start % MINUTE_MS == 0
    requires forall i :: 0 <= i < |lines| && calendar(lines[i].minute) == Some(key) ==>
               start <= lines[i].minute < start + minutes * MINUTE_MS
    ensures BucketOf(lines, table, calendar, key).cost <= minutes * MAX_ROW_COST
  {
    if lines == [] {
    } else {
      var before, l := lines[..|lines| - 1], lines[|lines| - 1];
      if calendar(l.minute) == Some(key) {
        assert RowOk((device, l.minute), l.row) && RowInRange(l.row);
        var sofar := (l.minute - start) / MINUTE_MS;
        assert sofar * MINUTE_MS == l.minute - start;
        CostBound(before, table, calendar, key, device, start, sofar);
        LineCost(l.row, RateAt(table, l.minute));
        ProductBounds(sofar + 1, MAX_ROW_COST, minutes);
      } else {
        CostBound(before, table, calendar, key, device, start, minutes);
      }
    }
  }

  lemma LineCost(r: Row, rate: Option<Rate>)
    requires RowInRange(r) && 0 <= r.inputObservedMs <= r.observedMs <= MINUTE_MS
    requires rate.Some? ==> 0 <= rate.value.microPerKwh <= MAX_RATE
    ensures rate.Some? ==> r.inputUj * rate.value.microPerKwh <= MAX_ROW_COST
  {
    if rate.Some? {
      ProductBounds(r.inputUj, rate.value.microPerKwh, 15_000_000_000_000_000);
      MulMonotone(15_000_000_000_000_000, rate.value.microPerKwh, MAX_RATE);
    }
  }

  /** The accumulator of a calendar year, and half a kWh more, fit signed 128 bits. */
  lemma YearFitsI128(lines: seq<Line>, table: map<int, Rate>, calendar: Calendar, key: string, device: string,
      start: int)
    requires LinesOk(lines, device) && LinesInRange(lines) && TableOk(table) && Ordered(lines)
    requires forall i :: 0 <= i < |lines| ==> lines[i].row.observedMs <= MINUTE_MS
    requires start % MINUTE_MS == 0
    requires forall i :: 0 <= i < |lines| && calendar(lines[i].minute) == Some(key) ==>
               start <= lines[i].minute < start + YEAR_MINUTES * MINUTE_MS
    ensures 0 <= BucketOf(lines, table, calendar, key).cost + UJ_PER_KWH / 2 <= I128_MAX
  {
    BucketsInRange(lines, table, calendar, key, device);
    var b := BucketOf(lines, table, calendar, key);
    assert b.cost <= YEAR_MINUTES * MAX_ROW_COST by {
      CostBound(lines, table, calendar, key, device, start, YEAR_MINUTES);
    }
  }
}
