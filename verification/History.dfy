/** The history database as the daemon uses it: tables changed in place, one transaction at a time. */
module History {
  import opened Wrappers
  import opened Telemetry
  import opened Energy
  import opened Ledger
  import opened Tariffs
  import opened Summary
  import opened Alerts
  import opened Storage
  import opened Restart

  datatype HistoryError =
    | SequenceTooLarge
    | DiskFailure
    | TariffRefused(reason: TariffError)
    | TooManyRates
    | BadRange
    | BadTimestamp
    | TooManyBuckets
    | IncidentNotFound

  lemma {:induction false} LeastExists(s: set<int>) returns (x: int)
    requires s != {}
    ensures x in s && forall y :: y in s ==> x <= y
    decreases s
  {
    x := SomeElement(s);
    if s != {x} {
      var y := LeastExists(s - {x});
      assert forall z :: z in s ==> z == x || z in s - {x};
      if y < x { x := y; }
    } else {
      assert forall z :: z in s ==> x <= z;
    }
  }

  lemma MoreKeys(lines: seq<Line>, n: nat, calendar: Calendar)
    requires n <= |lines|
    ensures Keys(lines[..n], calendar) <= Keys(lines, calendar)
    ensures |Keys(lines[..n], calendar)| <= |Keys(lines, calendar)|
  {
    forall k | k in Keys(lines[..n], calendar)
      ensures k in Keys(lines, calendar)
    {
      var i :| 0 <= i < n && calendar(lines[..n][i].minute) == Some(k);
      assert lines[i] == lines[..n][i];
    }
    SubsetSize(Keys(lines[..n], calendar), Keys(lines, calendar));
  }

  lemma SubsetSize(a: set<string>, b: set<string>)
    requires a <= b
    ensures |a| <= |b|
  {
    assert b == a + (b - a);
  }

  /** What the next row does to the buckets, and that a new key beyond the limit dooms the whole query. */
  lemma NextRow(rows: seq<Line>, n: nat, table: map<int, Rate>, calendar: Calendar)
    requires n < |rows| && calendar(rows[n].minute).Some? && Dated(rows[..n], calendar)
    ensures var l, prior := rows[n], Buckets(rows[..n], table, calendar); var key := calendar(l.minute).value;
            && Dated(rows[..n + 1], calendar)
            && Buckets(rows[..n + 1], table, calendar) ==
               prior[key := AddLine(if key in prior then prior[key] else NO_BUCKET, l.row, RateAt(table, l.minute))]
            && |Buckets(rows[..n + 1], table, calendar)| == |prior| + (if key in prior then 0 else 1)
            && |Buckets(rows[..n + 1], table, calendar)| <= |Keys(rows, calendar)|
  {
    assert rows[..n + 1] == rows[..n] + [rows[n]];
    BucketsSnoc(rows[..n], rows[n], table, calendar);
    BucketCount(rows[..n], rows[n], table, calendar);
    MoreKeys(rows, n + 1, calendar);
  }

  lemma BucketCount(before: seq<Line>, l: Line, table: map<int, Rate>, calendar: Calendar)
    requires calendar(l.minute).Some?
    ensures |Buckets(before + [l], table, calendar)| == |Keys(before + [l], calendar)|
    ensures |Buckets(before + [l], table, calendar)| ==
            |Buckets(before, table, calendar)| +
            (if calendar(l.minute).value in Buckets(before, table, calendar) then 0 else 1)
  {
    KeysSnoc(before, l, calendar);
    var prior, next, key := Buckets(before, table, calendar), Buckets(before + [l], table, calendar),
      calendar(l.minute).value;
    assert prior.Keys == Keys(before, calendar) && next.Keys == Keys(before + [l], calendar) == prior.Keys + {key};
  }

  /** Every summary of the reply is billed from the rows of its key. */
  ghost predicate BillEach(m: map<string, EnergySummary>, lines: seq<Line>, table: map<int, Rate>, calendar: Calendar) {
    forall k :: k in m ==> Bills(m[k], RowsOf(lines, calendar, k), table)
  }

  ghost function Finished(lines: seq<Line>, table: map<int, Rate>, calendar: Calendar): map<string, EnergySummary> {
    map k | k in Keys(lines, calendar) :: Finish(BucketOf(lines, table, calendar, k))
  }

  lemma FinishedBill(lines: seq<Line>, table: map<int, Rate>, calendar: Calendar)
    ensures BillEach(Finished(lines, table, calendar), lines, table, calendar)
  {
    forall k | k in Keys(lines, calendar)
      ensures Bills(Finished(lines, table, calendar)[k], RowsOf(lines, calendar, k), table)
    {
      SummaryBills(lines, table, calendar, k);
    }
  }

  /** The reply to a query: whether it succeeds, and with what buckets, each billed from its rows. */
  ghost predicate Answers(r: Result<map<string, EnergySummary>, HistoryError>, lines: seq<Line>, table: map<int, Rate>,
                          from: int, to: int, calendar: Calendar) {
    && (r.Ok? <==> from < to && from % MINUTE_MS == 0 && to % MINUTE_MS == 0 && |table| <= MAX_TARIFFS &&
                   Dated(lines, calendar) && |Keys(lines, calendar)| <= MAX_BUCKETS)
    && (r.Ok? ==> r.value == Finished(lines, table, calendar) && BillEach(r.value, lines, table, calendar))
  }

  class Database {
    var samples: map<SampleKey, Sample>
    var energy: map<RowKey, Row>
    var previous: Option<Sample>
    var tariffs: map<int, Rate>
    var incidents: IncidentTable
    var evidence: EvidenceTable

    constructor ()
      ensures Value() == Store(NO_BOOKS, map[], map[]) && tariffs == map[]
    {
      samples, energy, previous, tariffs, incidents, evidence := map[], map[], None, map[], map[], map[];
    }

    ghost function Value(): Store
      reads this
    {
      Store(Books(samples, energy, previous), incidents, evidence)
    }

    // -------------------------------------------------------------- energy

    /** One transaction; a failure before the commit, or a sample already stored, leaves everything as it was. */
    method RecordSample(s: Sample, maxGapMs: nat, fails: bool) returns (r: Result<(), HistoryError>)
      modifies this`samples, this`energy, this`previous
      ensures r.Ok? <==> s.sequence <= I64_MAX && !fails
      ensures r.Ok? ==> Value().books == Record(old(Value().books), s, maxGapMs)
      ensures r.Err? ==> Value() == old(Value())
    {
      if s.sequence > I64_MAX { return Err(SequenceTooLarge); }
      if fails { return Err(DiskFailure); }
      if KeyOf(s) in samples { return Ok(()); }
      var rows := energy;
      if previous.Some? {
        var p := previous.value;
        var elapsed, wall := SaturatingSub(s.monotonicMs, p.monotonicMs), s.capturedMs - p.capturedMs;
        if p.session == s.session && p.device == s.device && s.sequence > p.sequence && elapsed > 0 &&
          elapsed <= maxGapMs
           && wall > 0 && -100 <= wall - elapsed <= 100 {
          rows := AddInterval(p, s);
        }
      }
      samples, energy, previous := samples[KeyOf(s) := s], rows, Some(s);
      r := Ok(());
    }

    /** Splits the interval at minute boundaries and adds each piece to its row. */
    method AddInterval(p: Sample, s: Sample) returns (rows: map<RowKey, Row>)
      requires p.capturedMs < s.capturedMs
      ensures rows == AddFrom(energy, p, s, p.capturedMs)
    {
      rows := energy;
      var at := p.capturedMs;
      while at < s.capturedMs
        invariant p.capturedMs <= at <= s.capturedMs
        invariant AddFrom(rows, p, s, at) == AddFrom(energy, p, s, p.capturedMs)
        decreases s.capturedMs - at
      {
        var minute := MinuteOf(at);
        var end := Min(minute + MINUTE_MS, s.capturedMs);
        var row := Contribution(p, s, Piece(at, end));
        var key := (s.device, minute);
        rows := rows[key := if key in rows then AddRows(rows[key], row) else row];
        at := end;
      }
    }

    /**
     * Deletes chosen samples captured more than 48 hours before `now`; a choice that honours the LIMIT deletes a
     * thousand of them, or all if there are fewer.
     */
    method PruneOld(now: int, choose: Chooser)
      modifies this`samples
      ensures Value() == Commit(old(Value()), Prune(now), choose)
      ensures HonoursLimit(choose, old(samples), now - RETENTION_MS) ==>
                |samples| == |old(samples)| - Min(PRUNE_LIMIT, |Outdated(old(samples), now - RETENTION_MS)|)
    {
      var cutoff := now - RETENTION_MS;
      PrunedCount(samples, cutoff, choose(samples, cutoff));
      var victims := choose(samples, cutoff);
      samples := map k | k in samples && !(k in victims && samples[k].capturedMs < cutoff) :: samples[k];
    }

    // -------------------------------------------------------------- tariffs

    method SetTariff(t: Tariff, replace: bool) returns (r: Result<(), HistoryError>)
      modifies this`tariffs
      ensures old(TableOk(tariffs)) ==> TableOk(tariffs) && (r.Ok? <==> Storable(old(tariffs), t, replace))
      ensures exists current :: AnyCurrency(old(tariffs), current) &&
                r == (if Check(old(tariffs), current, t, replace).None? then Ok(())
                      else Err(TariffRefused(Check(old(tariffs), current, t, replace).value)))
      ensures tariffs == if r.Ok? then Stored(old(tariffs), t) else old(tariffs)
    {
      var current: Option<string> := None;
      if tariffs != map[] {
        ghost var known := SomeElement(tariffs.Keys);
        assert known in tariffs;
        var e :| e in tariffs;
        current := Some(tariffs[e].currency);
      }
      assert AnyCurrency(tariffs, current);
      var refused := Check(tariffs, current, t, replace);
      if TableOk(tariffs) { AcceptedIffStorable(tariffs, current, t, replace); }
      if refused.Some? { return Err(TariffRefused(refused.value)); }
      if TableOk(tariffs) { StoredKeepsTableOk(tariffs, current, t, replace); }
      tariffs := tariffs[t.effectiveMs := Rate(t.microPerKwh, t.currency)];
      r := Ok(());
    }

    method SortedTimes(times: set<int>) returns (keys: seq<int>)
      ensures Increasing(keys) && forall x :: x in keys <==> x in times
    {
      keys := [];
      var rest := times;
      while rest != {}
        invariant rest <= times && Increasing(keys)
        invariant forall x :: x in keys <==> x in times && x !in rest
        invariant forall x, y :: x in keys && y in rest ==> x < y
        decreases rest
      {
        ghost var least := LeastExists(rest);
        var x :| x in rest && forall y :: y in rest ==> x <= y;
        ghost var prior := keys;
        keys := keys + [x];
        assert forall i :: 0 <= i < |prior| ==> prior[i] in prior;
        rest := rest - {x};
      }
    }

    method ListTariffs() returns (r: Result<seq<int>, HistoryError>)
      ensures r.Ok? <==> |tariffs| <= MAX_TARIFFS
      ensures r.Ok? ==> Lists(r.value, tariffs)
    {
      if |tariffs| > MAX_TARIFFS { return Err(TooManyRates); }
      var keys := SortedTimes(tariffs.Keys);
      r := Ok(keys);
    }

    // -------------------------------------------------------------- summaries

    method SelectLines(device: string, from: int, to: int) returns (lines: seq<Line>)
      ensures Selected(lines, energy, device, from, to)
    {
      var minutes := SortedTimes(set k | k in energy && k.0 == device && from <= k.1 < to :: k.1);
      lines := [];
      for n := 0 to |minutes|
        invariant |lines| == n
        invariant forall i :: 0 <= i < n ==>
              (device, minutes[i]) in energy && lines[i] == Line(minutes[i], energy[(device, minutes[i])])
      {
        assert minutes[n] in minutes;
        lines := lines + [Line(minutes[n], energy[(device, minutes[n])])];
      }
      assert forall i :: 0 <= i < |minutes| ==> minutes[i] in minutes;
      forall m | (device, m) in energy && from <= m < to
        ensures exists i :: 0 <= i < |lines| && lines[i].minute == m
      {
        assert m in minutes;
        var i :| 0 <= i < |minutes| && minutes[i] == m;
        assert lines[i].minute == m;
      }
    }

    method RateOf(keys: seq<int>, at: int) returns (rate: Option<Rate>)
      requires Lists(keys, tariffs)
      ensures rate == RateAt(tariffs, at)
    {
      var i := PartitionPoint(keys, at);
      LookupAgrees(keys, tariffs, at, i);
      rate := if i == 0 then None else Some(tariffs[keys[i - 1]]);
    }

    /** The loop over the rows: an error at the first row without a key or beyond the limit on keys. */
    method GroupRows(rows: seq<Line>, keys: seq<int>, calendar: Calendar)
        returns (r: Result<map<string, Bucket>, HistoryError>)
      requires Lists(keys, tariffs)
      ensures r.Ok? <==> Dated(rows, calendar) && |Keys(rows, calendar)| <= MAX_BUCKETS
      ensures r.Ok? ==> r.value == Buckets(rows, tariffs, calendar)
      ensures r.Ok? ==> forall k :: k in r.value ==> Itemized(r.value[k], RowsOf(rows, calendar, k), tariffs)
    {
      var buckets: map<string, Bucket> := map[];
      for n := 0 to |rows|
        invariant Dated(rows[..n], calendar)
        invariant buckets == Buckets(rows[..n], tariffs, calendar)
        invariant |buckets| <= MAX_BUCKETS
      {
        var l := rows[n];
        if calendar(l.minute).None? { return Err(BadTimestamp); }
        var key := calendar(l.minute).value;
        NextRow(rows, n, tariffs, calendar);
        if |buckets| >= MAX_BUCKETS && key !in buckets { return Err(TooManyBuckets); }
        var rate := RateOf(keys, l.minute);
        buckets := buckets[key := AddLine(if key in buckets then buckets[key] else NO_BUCKET, l.row, rate)];
      }
      assert rows[..|rows|] == rows;
      assert buckets.Keys == Keys(rows, calendar);
      r := Ok(buckets);
      forall k | k in buckets
        ensures Itemized(buckets[k], RowsOf(rows, calendar, k), tariffs)
      {
        BucketIsItemized(rows, tariffs, calendar, k);
      }
    }

    /**
     * Groups the selected rows by calendar key, pricing each at the rate of its minute. Succeeds exactly when the range
     * is valid, the rates are within their limit, every row has a key and there are at most 10,000 keys.
     */
    method Summarize(device: string, from: int, to: int, calendar: Calendar)
      returns (r: Result<map<string, EnergySummary>, HistoryError>)
      ensures forall lines :: Selected(lines, energy, device, from, to) ==>
              Answers(r, lines, tariffs, from, to, calendar)
    {
      var rows := SelectLines(device, from, to);
      r := SummarizeRows(rows, from, to, calendar);
      forall lines | Selected(lines, energy, device, from, to)
        ensures lines == rows
      {
        SelectionIsUnique(lines, rows, energy, device, from, to);
      }
    }

    method SummarizeRows(rows: seq<Line>, from: int, to: int, calendar: Calendar)
      returns (r: Result<map<string, EnergySummary>, HistoryError>)
      ensures Answers(r, rows, tariffs, from, to, calendar)
    {
      if !(from < to && from % MINUTE_MS == 0 && to % MINUTE_MS == 0) { return Err(BadRange); }
      var listed := ListTariffs();
      if listed.Err? { return Err(listed.error); }
      var grouped := GroupRows(rows, listed.value, calendar);
      if grouped.Err? { return Err(grouped.error); }
      FinishedBill(rows, tariffs, calendar);
      r := Ok(map k | k in grouped.value :: Finish(grouped.value[k]));
      assert r.value == Finished(rows, tariffs, calendar);
    }

    // -------------------------------------------------------------- incidents

    method UpsertRow(i: Incident)
      modifies this`incidents
      ensures incidents == UpsertIncident(old(incidents), i)
    {
      if i.id in incidents {
        incidents := incidents[i.id := incidents[i.id].(endMs := i.recoveredAtMs, json := i)];
      } else {
        incidents := incidents[i.id := NewRow(i)];
      }
    }

    method AcknowledgeRow(id: nat, at: int) returns (r: Result<(), HistoryError>)
      modifies this`incidents
      ensures incidents == Acknowledge(old(incidents), id, at)
      ensures r == if id in old(incidents) then Ok(()) else Err(IncidentNotFound)
    {
      if id !in incidents { return Err(IncidentNotFound); }
      var row := incidents[id];
      incidents := incidents[id := row.(ackMs := if row.ackMs.Some? then row.ackMs else Some(at))];
      r := Ok(());
    }

    method FileEvidence(x: Exhibit)
      modifies this`evidence
      ensures evidence == RecordEvidence(old(evidence), x)
      ensures ExhibitKey(x) in evidence
      ensures ExhibitKey(x) !in old(evidence) ==> evidence[ExhibitKey(x)] == x.sample
    {
      var key := (x.incident, x.sample.capturedMs);
      if key !in evidence { evidence := evidence[key := x.sample]; }
    }

    method Latest(ids: set<nat>) returns (x: nat)
      requires ids != {} && forall i :: i in ids ==> i in incidents
      ensures x in ids && forall q :: q in ids ==> incidents[q].startMs <= incidents[x].startMs
    {
      ghost var latest := LatestExists(incidents, ids);
      x :| x in ids && forall q :: q in ids ==> incidents[q].startMs <= incidents[x].startMs;
    }

    /** The open incidents, latest first up to the limit, inserted by kind: of one kind the earliest started stays. */
    method RestoreActive() returns (active: map<Kind, Incident>)
      ensures Restores(active, incidents)
    {
      active := map[];
      var rest, rows: set<nat> := OpenRowIds(incidents), {};
      while rest != {} && |rows| < RESTORE_LIMIT
        invariant Restoring(active, incidents, rest, rows)
        decreases rest
      {
        var x := Latest(rest);
        RestoreOne(active, incidents, rest, rows, x);
        active := active[incidents[x].json.kind := incidents[x].json.(acknowledgedAtMs := incidents[x].ackMs)];
        rest, rows := rest - {x}, rows + {x};
      }
      RestoreDone(active, incidents, rest, rows);
    }

    // -------------------------------------------------------------- one batch

    /** Upserts events in order until the budget is used up. */
    method WriteEvents(events: seq<Incident>, budget: nat) returns (n: nat)
      modifies this`incidents
      ensures n == Min(budget, |events|) && incidents == Upserts(old(incidents), events[..n])
    {
      n := 0;
      while n < |events| && n < budget
        invariant n <= |events| && n <= budget && incidents == Upserts(old(incidents), events[..n])
      {
        assert events[..n + 1][..n] == events[..n];
        UpsertRow(events[n]);
        n := n + 1;
      }
    }

    method WriteExhibits(exhibits: seq<Exhibit>, budget: nat) returns (n: nat)
      modifies this`evidence
      ensures n == Min(budget, |exhibits|) && evidence == Files(old(evidence), exhibits[..n])
    {
      n := 0;
      while n < |exhibits| && n < budget
        invariant n <= |exhibits| && n <= budget && evidence == Files(old(evidence), exhibits[..n])
      {
        assert exhibits[..n + 1][..n] == exhibits[..n];
        FileEvidence(exhibits[n]);
        n := n + 1;
      }
    }

    /**
     * The sample, the events and the exhibits of a batch, until the budget is used up; an oversized sequence fails at
     * once.
     */
    method WriteBatch(b: Batch, budget: nat, choose: Chooser) returns (complete: bool)
      modifies this`samples, this`energy, this`previous, this`incidents, this`evidence
      ensures complete <==> budget >= 1 + |b.events| + |b.exhibits| && b.sample.sequence <= I64_MAX
      ensures b.sample.sequence > I64_MAX ==> Value() == old(Value())
      ensures var n := Min(budget, 1 + |b.events| + |b.exhibits|);
              n <= |Transactions(b)| && (b.sample.sequence <= I64_MAX ==>
                Value() == CommitAll(old(Value()), Transactions(b)[..n], choose))
    {
      BatchLength(b);
      assert Transactions(b)[..0] == [];
      if budget == 0 { return false; }
      PartialBatch(Value(), b, Min(budget, 1 + |b.events| + |b.exhibits|), choose);
      var saved := RecordSample(b.sample, MAX_GAP_MS, false);
      if saved.Err? { return false; }
      var wrote := WriteEvents(b.events, budget - 1);
      var filed := WriteExhibits(b.exhibits, SaturatingSub(budget, 1 + |b.events|));
      complete := wrote == |b.events| && filed == |b.exhibits| && budget > |b.events| + |b.exhibits|;
    }

    /**
     * One attempt at a batch: it fails after `budget` transactions, or completes when the budget covers them all. A
     * sample whose sequence does not fit fails the attempt before anything is written.
     */
    method Attempt(b: Batch, budget: nat, choose: Chooser) returns (ok: bool)
      modifies this`samples, this`energy, this`previous, this`incidents, this`evidence
      ensures ok <==> budget >= |Transactions(b)| && b.sample.sequence <= I64_MAX
      ensures b.sample.sequence > I64_MAX ==> Value() == old(Value())
      ensures b.sample.sequence <= I64_MAX ==>
                Value() == CommitAll(old(Value()), Transactions(b)[..Min(budget, |Transactions(b)|)], choose)
    {
      ghost var s, total := Value(), 1 + |b.events| + |b.exhibits|;
      BatchLength(b);
      var complete := WriteBatch(b, budget, choose);
      if !complete { return false; }
      if b.sample.sequence % PRUNE_EVERY == 0 {
        if budget == 1 + |b.events| + |b.exhibits| { return false; }
        CommitNextOf(s, Transactions(b), total, choose);
        PruneOld(b.sample.capturedMs, choose);
      }
      ok := true;
    }

    /**
     * The retry loop: each attempt gets as far as its budget, and the daemon is stopped after the last one listed. A
     * batch that completes has taken effect exactly once, whatever attempts failed; one that does not can still be
     * completed by a clean run, unless its sequence does not fit, in which case nothing was ever written.
     */
    method Persist(b: Batch, budgets: seq<nat>, choose: Chooser) returns (ok: bool)
      modifies this`samples, this`energy, this`previous, this`incidents, this`evidence
      ensures ok <==> b.sample.sequence <= I64_MAX && exists m :: 0 <= m < |budgets| && budgets[m] >= |Transactions(b)|
      ensures ok ==> Value() == CommitAll(old(Value()), Transactions(b), choose)
      ensures ok ==> forall key :: key in evidence <==> key in old(evidence) || Bears(b.exhibits, key)
      ensures !ok ==> CommitAll(Value(), Transactions(b), choose) == CommitAll(old(Value()), Transactions(b), choose)
      ensures b.sample.sequence > I64_MAX ==> Value() == old(Value())
    {
      ok := false;
      BatchFilesExhibits(Value(), b, choose);
      for n := 0 to |budgets|
        invariant !ok
        invariant b.sample.sequence <= I64_MAX ==> forall m :: 0 <= m < n ==> budgets[m] < |Transactions(b)|
        invariant CommitAll(Value(), Transactions(b), choose) == CommitAll(old(Value()), Transactions(b), choose)
        invariant b.sample.sequence > I64_MAX ==> Value() == old(Value())
      {
        if budgets[n] < |Transactions(b)| { RetryAbsorbsAttempt(Value(), b, budgets[n], choose); }
        assert Transactions(b)[..|Transactions(b)|] == Transactions(b);
        ok := Attempt(b, budgets[n], choose);
        if ok { return; }
      }
    }
  }
}
