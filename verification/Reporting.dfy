/** From recorded samples and dated rates to the priced report: every summary of every reachable archive. */
module Reporting {
  import opened Wrappers
  import opened Totals
  import opened Energy
  import opened Ledger
  import opened Tariffs
  import opened Summary

  /** One call on the database: a ledger operation, or a dated rate that may be refused. */
  datatype Act = Entry(op: Op) | Priced(t: Tariff, replace: bool)

  datatype Archive = Archive(books: Books, rates: map<int, Rate>)

  /** The currency that `set_tariff` compares with: that of some stored rate. */
  ghost function CurrencyIn(table: map<int, Rate>): (c: Option<string>)
    ensures AnyCurrency(table, c)
  {
    if table == map[] then None else
      assert exists e :: e in table by { var e := SomeElement(table.Keys); assert e in table; }
      var e :| e in table;
      Some(table[e].currency)
  }

  ghost function SetRate(table: map<int, Rate>, t: Tariff, replace: bool): map<int, Rate> {
    if Check(table, CurrencyIn(table), t, replace).None? then Stored(table, t) else table
  }

  ghost function Perform(a: Archive, act: Act): Archive {
    match act
    case Entry(op) => a.(books := Apply(a.books, op))
    case Priced(t, replace) => a.(rates := SetRate(a.rates, t, replace))
  }

  ghost function Play(acts: seq<Act>): Archive {
    if acts == [] then Archive(NO_BOOKS, map[]) else Perform(Play(acts[..|acts| - 1]), acts[|acts| - 1])
  }

  function Entries(acts: seq<Act>): seq<Op> {
    if acts == [] then [] else
      Entries(acts[..|acts| - 1]) + (if acts[|acts| - 1].Entry? then [acts[|acts| - 1].op] else [])
  }

  function Pricings(acts: seq<Act>): seq<Act> {
    if acts == [] then [] else
      Pricings(acts[..|acts| - 1]) + (if acts[|acts| - 1].Priced? then [acts[|acts| - 1]] else [])
  }

  // ---------------------------------------------------------------- order-free pricing

  /** The archive is the ledger of the entries beside the rate table of the pricings. */
  lemma {:induction false} ArchiveSplits(acts: seq<Act>)
    ensures Play(acts) == Archive(Run(Entries(acts)), Play(Pricings(acts)).rates)
  {
    if acts == [] {
    } else {
      var before, act := acts[..|acts| - 1], acts[|acts| - 1];
      ArchiveSplits(before);
      if act.Entry? {
        assert Pricings(before) + [] == Pricings(before);
      } else {
        assert Entries(before) + [] == Entries(before);
      }
    }
  }

  /** However recording and pricing are interleaved, the archive, and so every later summary, is the same. */
  lemma InterleavingIsIrrelevant(a: seq<Act>, b: seq<Act>)
    requires Entries(a) == Entries(b) && Pricings(a) == Pricings(b)
    ensures Play(a) == Play(b)
  {
    ArchiveSplits(a);
    ArchiveSplits(b);
  }

  /** Every reachable rate table is minute-aligned, priced in range, in one currency and at most 4096 long. */
  lemma {:induction false} RatesAlwaysOk(acts: seq<Act>)
    ensures TableOk(Play(acts).rates)
  {
    if acts == [] {
    } else {
      var before, act := acts[..|acts| - 1], acts[|acts| - 1];
      RatesAlwaysOk(before);
      var table := Play(before).rates;
      if act.Priced? && Check(table, CurrencyIn(table), act.t, act.replace).None? {
        StoredKeepsTableOk(table, CurrencyIn(table), act.t, act.replace);
      }
    }
  }

  // ---------------------------------------------------------------- every summary of every reachable archive

  lemma ReachableLines(acts: seq<Act>, lines: seq<Line>, device: string, from: int, to: int)
    requires Selected(lines, Play(acts).books.energy, device, from, to)
    ensures LinesOk(lines, device)
    ensures DecoderRange(Entries(acts)) ==> LinesInRange(lines)
    ensures NeverStepsBack(Entries(acts)) ==> forall i :: 0 <= i < |lines| ==> lines[i].row.observedMs <= MINUTE_MS
  {
    ArchiveSplits(acts);
    RunRowsOk(Entries(acts));
    if DecoderRange(Entries(acts)) { RunRowsInRange(Entries(acts)); }
    if NeverStepsBack(Entries(acts)) { MinuteNeverOverflows(Entries(acts)); }
  }

  /**
   * For decoder-accepted readings every bucket of every summary is ordered and in range, and the billed amounts
   * together differ from the exact cost of the selected rows by at most half a micro-unit per costed bucket.
   */
  lemma SummariesAreSound(acts: seq<Act>, lines: seq<Line>, device: string, from: int, to: int, calendar: Calendar)
    requires DecoderRange(Entries(acts))
    requires Selected(lines, Play(acts).books.energy, device, from, to) && Dated(lines, calendar)
    ensures var rates := Play(acts).rates; var all := Buckets(lines, rates, calendar);
            && (forall k :: k in all ==> BucketOk(all[k]) && BucketInRange(all[k]))
            && WithinHalves(Total(all, Billed), Straight(lines, rates).cost, |Costed(all)|)
  {
    ReachableLines(acts, lines, device, from, to);
    RatesAlwaysOk(acts);
    var rates := Play(acts).rates;
    var all := Buckets(lines, rates, calendar);
    forall k | k in all
      ensures BucketOk(all[k]) && BucketInRange(all[k])
    {
      BucketsOk(lines, rates, calendar, k, device);
      BucketsInRange(lines, rates, calendar, k, device);
    }
    BilledWithinHalves(all);
    BucketsPartition(lines, rates, calendar);
  }

  // ---------------------------------------------------------------- from samples to the report

  /** A measure of rows and the measure of buckets it feeds. */
  ghost predicate Feeds(f: Row -> int, g: Bucket -> int) {
    g(NO_BUCKET) == 0 && forall b, r, rate :: g(AddLine(b, r, rate)) == g(b) + f(r)
  }

  ghost predicate HasLine(lines: seq<Line>, minute: int) { exists i :: 0 <= i < |lines| && lines[i].minute == minute }

  ghost predicate LinesMatch(lines: seq<Line>, energy: map<RowKey, Row>, device: string) {
    forall i :: 0 <= i < |lines| ==>
      (device, lines[i].minute) in energy && lines[i].row == energy[(device, lines[i].minute)]
  }

  /** Every row of the table is one of the lines, and every line a row of the table. */
  ghost predicate ListsRows(lines: seq<Line>, energy: map<RowKey, Row>, device: string) {
    && Ordered(lines) && LinesMatch(lines, energy, device)
    && (forall k :: k in energy ==> k.0 == device && HasLine(lines, k.1))
  }

  /** Summing every row of the table once, by line or by key, is the same. */
  lemma {:induction false} StraightIsTotal(lines: seq<Line>, energy: map<RowKey, Row>, device: string,
                                           table: map<int, Rate>, f: Row -> int, g: Bucket -> int)
    requires Feeds(f, g) && ListsRows(lines, energy, device)
    ensures g(Straight(lines, table)) == Total(energy, f)
  {
    if lines == [] {
      assert energy == map[];
    } else {
      var before, l := lines[..|lines| - 1], lines[|lines| - 1];
      var key := (device, l.minute);
      StraightIsTotal(before, energy - {key}, device, table, f, g);
      TotalTakeOut(energy, key, f);
    }
  }

  /** The query covers every row of the table. */
  ghost predicate Covers(energy: map<RowKey, Row>, device: string, from: int, to: int) {
    forall k :: k in energy ==> k.0 == device && from <= k.1 < to
  }

  lemma MeasureReachesReport(acts: seq<Act>, lines: seq<Line>, device: string, from: int, to: int, calendar: Calendar,
                             f: Row -> int, g: Bucket -> int)
    requires Selected(lines, Play(acts).books.energy, device, from, to) && Dated(lines, calendar)
    requires Covers(Play(acts).books.energy, device, from, to)
    requires Feeds(f, g) && Additive(g)
    ensures Total(Buckets(lines, Play(acts).rates, calendar), g) == Total(Run(Entries(acts)).energy, f)
  {
    ArchiveSplits(acts);
    MeasurePartitions(lines, Play(acts).rates, calendar, g);
    StraightIsTotal(lines, Play(acts).books.energy, device, Play(acts).rates, f, g);
  }

  /**
   * End to end: over any history, the observed time of a report that covers the whole table is exactly the sum of the
   * accepted sample intervals, and its energy is their exact trapezoids to within half a microjoule a piece,
   * whatever the calendar, the rates, the restarts, the duplicates and the pruning.
   */
  lemma ReportAccountsForEverySample(acts: seq<Act>, lines: seq<Line>, device: string, from: int, to: int,
      calendar: Calendar)
    requires Selected(lines, Play(acts).books.energy, device, from, to) && Dated(lines, calendar)
    requires Covers(Play(acts).books.energy, device, from, to)
    ensures var all, owed := Buckets(lines, Play(acts).rates, calendar), Accepted(Entries(acts));
            && Total(all, ObservedMs) == owed.ms
            && Total(all, InputObservedMs) == owed.inputMs
            && -1000 * owed.pieces <= 2000 * Total(all, OutputUj) - owed.area <= 1000 * owed.pieces
            && -1000 * owed.inputPieces <= 2000 * Total(all, InputUj) - owed.inputArea <= 1000 * owed.inputPieces
  {
    MeasureReachesReport(acts, lines, device, from, to, calendar, Observed, ObservedMs);
    MeasureReachesReport(acts, lines, device, from, to, calendar, InputObserved, InputObservedMs);
    MeasureReachesReport(acts, lines, device, from, to, calendar, Output, OutputUj);
    MeasureReachesReport(acts, lines, device, from, to, calendar, Input, InputUj);
    EnergyIsConserved(Entries(acts));
  }
}
