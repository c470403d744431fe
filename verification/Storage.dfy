/** The durable tables and the storage thread's batch: a sequence of separate transactions, retried from the start. */
module Storage {
  import opened Wrappers
  import opened Telemetry
  import opened Ledger
  import opened Alerts

  // ---------------------------------------------------------------- tables

  /** One row of the incidents table; json is the incident as last written. */
  datatype IncidentRow = IncidentRow(device: string, kind: Kind, startMs: int, endMs: Option<int>, ackMs: Option<int>,
    json: Incident)

  type IncidentTable = map<nat, IncidentRow>

  function NewRow(i: Incident): IncidentRow {
    IncidentRow(i.device, i.kind, i.startedAtMs, i.recoveredAtMs, i.acknowledgedAtMs, i)
  }

  /** On a known id only the end time and the stored incident change; the acknowledgement column never does. */
  function UpsertIncident(table: IncidentTable, i: Incident): IncidentTable {
    table[i.id := if i.id in table then table[i.id].(endMs := i.recoveredAtMs, json := i) else NewRow(i)]
  }

  /** The first acknowledgement time wins; an unknown id is an error and changes nothing. */
  function Acknowledge(table: IncidentTable, id: nat, at: int): IncidentTable {
    if id in table then table[id := table[id].(ackMs := if table[id].ackMs.Some? then table[id].ackMs else Some(at))]
      else table
  }

  /** A restart reads the open incidents back: at most a thousand, the latest; of one kind the earliest started wins. */
  ghost predicate Restores(restored: map<Kind, Incident>, table: IncidentTable) {
    exists rows :: RestoredFrom(restored, table, rows)
  }

  const RESTORE_LIMIT := 1000

  ghost predicate RestoredFrom(restored: map<Kind, Incident>, table: IncidentTable, rows: set<nat>) {
    var open := OpenRowIds(table);
    && rows <= open
    && (|open| <= RESTORE_LIMIT ==> rows == open)
    && (|open| > RESTORE_LIMIT ==> |rows| == RESTORE_LIMIT)
    && (forall r, q :: r in rows && q in open && q !in rows ==> table[q].startMs <= table[r].startMs)
    && (forall r :: r in rows ==> table[r].json.kind in restored)
    && (forall k :: k in restored ==> exists r: nat :: RestoredRow(restored[k], table, rows, k, r))
  }

  ghost predicate RestoredRow(i: Incident, table: IncidentTable, rows: set<nat>, k: Kind, r: nat) {
    && r in rows && r in table && table[r].json.kind == k
    && i == table[r].json.(acknowledgedAtMs := table[r].ackMs)
    && (forall q :: q in rows && q in table && table[q].json.kind == k ==> table[r].startMs <= table[q].startMs)
  }

  function OpenRowIds(table: IncidentTable): set<nat> { set id | id in table && table[id].endMs.None? }

  /** An evidence reading, filed under its incident. */
  datatype Exhibit = Exhibit(incident: nat, sample: Sample)

  type EvidenceTable = map<(nat, int), Sample>

  function RecordEvidence(table: EvidenceTable, x: Exhibit): EvidenceTable {
    if (x.incident, x.sample.capturedMs) in table then table else table[(x.incident, x.sample.capturedMs) := x.sample]
  }

  datatype Store = Store(books: Books, incidents: IncidentTable, evidence: EvidenceTable)

  // ---------------------------------------------------------------- batches

  datatype Batch = Batch(sample: Sample, events: seq<Incident>, exhibits: seq<Exhibit>)

  datatype Transaction =
    | SaveSample(sample: Sample)
    | SaveIncident(incident: Incident)
    | SaveExhibit(exhibit: Exhibit)
    | Prune(now: int)

  const MAX_GAP_MS := 3500
  const RETENTION_MS := 172_800_000
  const PRUNE_EVERY := 60

  /** Which rows a LIMITed DELETE takes is the database's choice, a function of the table. */
  type Chooser = (map<SampleKey, Sample>, int) -> set<SampleKey>

  const PRUNE_LIMIT := 1000

  function Outdated(samples: map<SampleKey, Sample>, cutoff: int): set<SampleKey> {
    set k | k in samples && samples[k].capturedMs < cutoff
  }

  /** DELETE ... LIMIT 1000 takes only outdated rows, as many as there are up to the limit. */
  ghost predicate HonoursLimit(choose: Chooser, samples: map<SampleKey, Sample>, cutoff: int) {
    var victims := choose(samples, cutoff);
    victims <= Outdated(samples, cutoff) && |victims| == Min(PRUNE_LIMIT, |Outdated(samples, cutoff)|)
  }

  lemma PrunedCount(samples: map<SampleKey, Sample>, cutoff: int, victims: set<SampleKey>)
    ensures victims <= Outdated(samples, cutoff) ==> |PruneSamples(samples, cutoff, victims)| == |samples| - |victims|
  {
    if victims <= Outdated(samples, cutoff) {
      var left := PruneSamples(samples, cutoff, victims);
      assert left.Keys == samples.Keys - victims;
      assert |left.Keys| == |samples.Keys| - |victims|;
    }
  }

  function EventTransactions(events: seq<Incident>): seq<Transaction> {
    seq(|events|, i requires 0 <= i < |events| => SaveIncident(events[i]))
  }

  function ExhibitTransactions(exhibits: seq<Exhibit>): seq<Transaction> {
    seq(|exhibits|, i requires 0 <= i < |exhibits| => SaveExhibit(exhibits[i]))
  }

  function Upkeep(b: Batch): seq<Transaction> {
    if b.sample.sequence % PRUNE_EVERY == 0 then [Prune(b.sample.capturedMs)] else []
  }

  /** The transactions of one batch, in order. */
  function Transactions(b: Batch): seq<Transaction> {
    [SaveSample(b.sample)] + EventTransactions(b.events) + ExhibitTransactions(b.exhibits) + Upkeep(b)
  }

  /** Which transaction stands where. */
  lemma TransactionLayout(b: Batch)
    ensures var xs, e, x := Transactions(b), |b.events|, |b.exhibits|;
            && |xs| == 1 + e + x + (if b.sample.sequence % PRUNE_EVERY == 0 then 1 else 0)
            && xs[0] == SaveSample(b.sample)
            && (forall i :: 1 <= i <= e ==> xs[i] == SaveIncident(b.events[i - 1]))
            && (forall i :: e < i <= e + x ==> xs[i] == SaveExhibit(b.exhibits[i - e - 1]))
            && (forall i :: e + x < i < |xs| ==> xs[i] == Prune(b.sample.capturedMs))
  {
    var xs, e, x := Transactions(b), |b.events|, |b.exhibits|;
    forall i | 1 <= i < |xs|
      ensures i <= e ==> xs[i] == SaveIncident(b.events[i - 1])
      ensures e < i <= e + x ==> xs[i] == SaveExhibit(b.exhibits[i - e - 1])
      ensures e + x < i ==> xs[i] == Prune(b.sample.capturedMs)
    {
      if i <= e {
        assert xs[i] == EventTransactions(b.events)[i - 1];
      } else if i <= e + x {
        assert xs[i] == ExhibitTransactions(b.exhibits)[i - e - 1];
      } else {
        assert xs[i] == Upkeep(b)[i - e - x - 1];
      }
    }
  }

  /** How many transactions a batch has; the last is the upkeep when there is any. */
  lemma BatchLength(b: Batch)
    ensures var xs, written := Transactions(b), 1 + |b.events| + |b.exhibits|;
            && |xs| == written + |Upkeep(b)|
            && (Upkeep(b) != [] ==> xs[written] == Prune(b.sample.capturedMs))
  {
    TransactionLayout(b);
  }

  lemma CommitNextOf(s: Store, xs: seq<Transaction>, n: nat, choose: Chooser)
    requires n < |xs|
    ensures CommitAll(s, xs[..n + 1], choose) == Commit(CommitAll(s, xs[..n], choose), xs[n], choose)
  {
    assert xs[..n + 1][..n] == xs[..n];
  }

  /** A sample whose sequence does not fit the signed column is refused on every attempt. */
  predicate CanCommit(x: Transaction) { x.SaveSample? ==> x.sample.sequence <= I64_MAX }

  function Commit(s: Store, x: Transaction, choose: Chooser): Store {
    match x
    case SaveSample(t) => s.(books := Record(s.books, t, MAX_GAP_MS))
    case SaveIncident(i) => s.(incidents := UpsertIncident(s.incidents, i))
    case SaveExhibit(e) => s.(evidence := RecordEvidence(s.evidence, e))
    case Prune(now) =>
      var cutoff := now - RETENTION_MS;
      s.(books := s.books.(samples := PruneSamples(s.books.samples, cutoff, choose(s.books.samples, cutoff))))
  }

  function CommitAll(s: Store, xs: seq<Transaction>, choose: Chooser): Store {
    if xs == [] then s else Commit(CommitAll(s, xs[..|xs| - 1], choose), xs[|xs| - 1], choose)
  }

  lemma {:induction false} CommitAllConcat(s: Store, a: seq<Transaction>, b: seq<Transaction>, choose: Chooser)
    ensures CommitAll(s, a + b, choose) == CommitAll(CommitAll(s, a, choose), b, choose)
  {
    if b == [] {
      assert a + b == a;
    } else {
      assert (a + b)[..|a + b| - 1] == a + b[..|b| - 1];
      CommitAllConcat(s, a, b[..|b| - 1], choose);
    }
  }

  // ---------------------------------------------------------------- incidents and evidence, row by row

  function Upserts(table: IncidentTable, events: seq<Incident>): IncidentTable {
    if events == [] then table else UpsertIncident(Upserts(table, events[..|events| - 1]), events[|events| - 1])
  }

  function Files(table: EvidenceTable, xs: seq<Exhibit>): EvidenceTable {
    if xs == [] then table else RecordEvidence(Files(table, xs[..|xs| - 1]), xs[|xs| - 1])
  }

  predicate Mentions(events: seq<Incident>, id: nat) { exists i :: 0 <= i < |events| && events[i].id == id }

  function FirstMention(events: seq<Incident>, id: nat): Incident
    requires Mentions(events, id)
  {
    if events[0].id == id then events[0] else
      assert Mentions(events[1..], id) by { MentionsTail(events, id); }
      FirstMention(events[1..], id)
  }

  lemma MentionsTail(events: seq<Incident>, id: nat)
    requires Mentions(events, id) && events[0].id != id
    ensures Mentions(events[1..], id)
  {
    var i :| 0 <= i < |events| && events[i].id == id;
    assert events[1..][i - 1].id == id;
  }

  function LastMention(events: seq<Incident>, id: nat): Incident
    requires Mentions(events, id)
  {
    if events[|events| - 1].id == id then events[|events| - 1] else
      assert Mentions(events[..|events| - 1], id) by { MentionsInit(events, id); }
      LastMention(events[..|events| - 1], id)
  }

  lemma MentionsInit(events: seq<Incident>, id: nat)
    requires Mentions(events, id) && events[|events| - 1].id != id
    ensures Mentions(events[..|events| - 1], id)
  {
    var i :| 0 <= i < |events| && events[i].id == id;
    assert events[..|events| - 1][i].id == id;
  }

  /** The columns that an upsert sets only when it inserts. */
  function Fixed(row: IncidentRow): (string, Kind, int, Option<int>) { (row.device, row.kind, row.startMs, row.ackMs) }

  ghost predicate FixedBy(row: IncidentRow, first: Incident) {
    && row.device == first.device && row.kind == first.kind
    && row.startMs == first.startedAtMs && row.ackMs == first.acknowledgedAtMs
  }

  /**
   * Row by row, what a sequence of upserts leaves: an unmentioned row is untouched; a mentioned one carries the last
   * mention, and the insert-only columns of the old row or else of the first mention.
   */
  lemma {:induction false} UpsertsByRow(table: IncidentTable, events: seq<Incident>, id: nat)
    ensures var after := Upserts(table, events);
            && (id in after <==> id in table || Mentions(events, id))
            && (!Mentions(events, id) && id in table ==> after[id] == table[id])
            && (Mentions(events, id) ==>
                  var last := LastMention(events, id);
                  && after[id].endMs == last.recoveredAtMs && after[id].json == last
                  && (id in table ==> Fixed(after[id]) == Fixed(table[id]))
                  && (id !in table ==> FixedBy(after[id], FirstMention(events, id))))
  {
    if events == [] {
    } else {
      var before, e := events[..|events| - 1], events[|events| - 1];
      assert events == before + [e];
      UpsertsByRow(table, before, id);
      if Mentions(before, id) {
        MentionsPrefix(before, events, id);
      } else if e.id == id {
        FirstMentionSnoc(before, e);
      } else if Mentions(events, id) {
        MentionsInit(events, id);
      }
    }
  }

  lemma {:induction false} MentionsPrefix(a: seq<Incident>, b: seq<Incident>, id: nat)
    requires a <= b && Mentions(a, id)
    ensures Mentions(b, id) && FirstMention(b, id) == FirstMention(a, id)
  {
    var i :| 0 <= i < |a| && a[i].id == id;
    assert b[i].id == id;
    if a[0].id != id {
      MentionsTail(a, id);
      MentionsPrefix(a[1..], b[1..], id);
    }
  }

  lemma {:induction false} FirstMentionSnoc(before: seq<Incident>, e: Incident)
    requires !Mentions(before, e.id)
    ensures Mentions(before + [e], e.id) && FirstMention(before + [e], e.id) == e
  {
    assert (before + [e])[|before|].id == e.id;
    if before == [] {
    } else {
      assert before[0].id != e.id;
      assert (before + [e])[1..] == before[1..] + [e];
      forall i | 0 <= i < |before[1..]|
        ensures before[1..][i].id != e.id
      {
        assert before[i + 1].id != e.id;
      }
      FirstMentionSnoc(before[1..], e);
    }
  }

  /** Writing a prefix first makes no difference to writing all of it. */
  lemma UpsertsAbsorbPrefix(table: IncidentTable, events: seq<Incident>, j: nat)
    requires j <= |events|
    ensures Upserts(Upserts(table, events[..j]), events) == Upserts(table, events)
  {
    var mid := Upserts(table, events[..j]);
    var a, b := Upserts(mid, events), Upserts(table, events);
    forall id: nat
      ensures id in a <==> id in b
      ensures id in a ==> a[id] == b[id]
    {
      UpsertsByRow(mid, events, id);
      UpsertsByRow(table, events, id);
      UpsertsByRow(table, events[..j], id);
      if Mentions(events[..j], id) { MentionsPrefix(events[..j], events, id); }
      if id in a && Mentions(events, id) { SameRow(a[id], b[id]); }
    }
  }

  lemma SameRow(a: IncidentRow, b: IncidentRow)
    requires Fixed(a) == Fixed(b) && a.endMs == b.endMs && a.json == b.json
    ensures a == b
  {}

  /** The incident and the capture time of an exhibit. */
  function ExhibitKey(x: Exhibit): (nat, int) { (x.incident, x.sample.capturedMs) }

  ghost predicate Bears(xs: seq<Exhibit>, key: (nat, int)) { exists i :: 0 <= i < |xs| && ExhibitKey(xs[i]) == key }

  /** Exhibit i is the first of the sequence under its incident and capture time. */
  ghost predicate FirstUnder(xs: seq<Exhibit>, key: (nat, int), i: nat) {
    i < |xs| && ExhibitKey(xs[i]) == key && forall j :: 0 <= j < i ==> ExhibitKey(xs[j]) != key
  }

  /**
   * Key by key, what filing exhibits leaves: an entry of the table stays as it was, and an exhibit's reading is there
   * under its incident and capture time, the first one if there are several; nothing else is.
   */
  lemma {:induction false} FilesByKey(table: EvidenceTable, xs: seq<Exhibit>, key: (nat, int))
    ensures var after := Files(table, xs);
            && (key in after <==> key in table || Bears(xs, key))
            && (key in table ==> after[key] == table[key])
            && (forall i: nat :: key !in table && FirstUnder(xs, key, i) ==> after[key] == xs[i].sample)
  {
    if xs == [] {
    } else {
      var before, x := xs[..|xs| - 1], xs[|xs| - 1];
      FilesByKey(table, before, key);
      assert forall i :: 0 <= i < |before| ==> before[i] == xs[i];
      assert ExhibitKey(x) == key ==> Bears(xs, key);
      assert Bears(before, key) ==> Bears(xs, key);
      forall i: nat | key !in table && FirstUnder(xs, key, i)
        ensures Files(table, xs)[key] == xs[i].sample
      {
        if i < |before| {
          assert FirstUnder(before, key, i) && Bears(before, key);
        } else {
          assert !Bears(before, key);
        }
      }
    }
  }

  lemma {:induction false} FilesAbsorbPrefix(table: EvidenceTable, xs: seq<Exhibit>, j: nat, n: nat)
    requires j <= |xs| && n <= |xs|
    ensures Files(Files(table, xs[..j]), xs[..n]) == Files(table, xs[..if n <= j then j else n])
    decreases n
  {
    if n == 0 {
      assert xs[..0] == [];
    } else {
      FilesAbsorbPrefix(table, xs, j, n - 1);
      assert xs[..n][..n - 1] == xs[..n - 1];
      var k := (xs[n - 1].incident, xs[n - 1].sample.capturedMs);
      if n <= j {
        assert Files(table, xs[..j]) == Files(table, xs[..n] + xs[n..j]) by { assert xs[..j] == xs[..n] + xs[n..j]; }
        FilesConcat(table, xs[..n], xs[n..j]);
        FilesByKey(Files(table, xs[..n]), xs[n..j], k);
      }
    }
  }

  lemma {:induction false} FilesConcat(table: EvidenceTable, a: seq<Exhibit>, b: seq<Exhibit>)
    ensures Files(table, a + b) == Files(Files(table, a), b)
  {
    if b == [] {
      assert a + b == a;
    } else {
      assert (a + b)[..|a + b| - 1] == a + b[..|b| - 1];
      FilesConcat(table, a, b[..|b| - 1]);
    }
  }

  // ---------------------------------------------------------------- the store after part of a batch

  lemma {:induction false} CommitEvents(s: Store, events: seq<Incident>, choose: Chooser)
    ensures CommitAll(s, EventTransactions(events), choose) == s.(incidents := Upserts(s.incidents, events))
  {
    if events == [] {
    } else {
      var xs := EventTransactions(events);
      assert xs[..|xs| - 1] == EventTransactions(events[..|events| - 1]);
      CommitEvents(s, events[..|events| - 1], choose);
    }
  }

  lemma {:induction false} CommitExhibits(s: Store, exhibits: seq<Exhibit>, choose: Chooser)
    ensures CommitAll(s, ExhibitTransactions(exhibits), choose) == s.(evidence := Files(s.evidence, exhibits))
  {
    if exhibits == [] {
    } else {
      var xs := ExhibitTransactions(exhibits);
      assert xs[..|xs| - 1] == ExhibitTransactions(exhibits[..|exhibits| - 1]);
      CommitExhibits(s, exhibits[..|exhibits| - 1], choose);
    }
  }

  /** How many events, and how many exhibits, the first n transactions of a batch have written. */
  function EventsDone(b: Batch, n: nat): nat { if n == 0 then 0 else Min(n - 1, |b.events|) }

  function ExhibitsDone(b: Batch, n: nat): nat {
    if n <= 1 + |b.events| then 0 else Min(n - 1 - |b.events|, |b.exhibits|)
  }

  /** The store once the sample and the given numbers of events and exhibits have been written. */
  function Written(s: Store, b: Batch, events: nat, exhibits: nat): Store
    requires events <= |b.events| && exhibits <= |b.exhibits|
  {
    Store(Record(s.books, b.sample, MAX_GAP_MS), Upserts(s.incidents, b.events[..events]),
      Files(s.evidence, b.exhibits[..exhibits]))
  }

  /** An attempt that has not reached its last step has written the sample, then events in order, then exhibits. */
  lemma PartialBatch(s: Store, b: Batch, n: nat, choose: Chooser)
    requires 0 < n <= 1 + |b.events| + |b.exhibits|
    ensures n <= |Transactions(b)|
    ensures CommitAll(s, Transactions(b)[..n], choose) == Written(s, b, EventsDone(b, n), ExhibitsDone(b, n))
  {
    var i, j := EventsDone(b, n), ExhibitsDone(b, n);
    var first, es, xs := [SaveSample(b.sample)], EventTransactions(b.events[..i]), ExhibitTransactions(b.exhibits[..j]);
    assert Transactions(b)[..n] == first + es + xs;
    CommitAllConcat(s, first + es, xs, choose);
    CommitAllConcat(s, first, es, choose);
    assert first[..0] == [];
    assert CommitAll(s, first, choose) == s.(books := Record(s.books, b.sample, MAX_GAP_MS));
    CommitEvents(CommitAll(s, first, choose), b.events[..i], choose);
    CommitExhibits(CommitAll(s, first + es, choose), b.exhibits[..j], choose);
  }

  /** A whole batch: everything written, then upkeep. */
  lemma WholeBatch(s: Store, b: Batch, choose: Chooser)
    ensures CommitAll(s, Transactions(b), choose) ==
            CommitAll(Written(s, b, |b.events|, |b.exhibits|), Upkeep(b), choose)
  {
    var n := 1 + |b.events| + |b.exhibits|;
    PartialBatch(s, b, n, choose);
    assert Transactions(b) == Transactions(b)[..n] + Upkeep(b);
    CommitAllConcat(s, Transactions(b)[..n], Upkeep(b), choose);
  }

  /** Restarting a batch after any unfinished attempt ends where a single clean attempt would have. */
  lemma RetryAbsorbsAttempt(s: Store, b: Batch, n: nat, choose: Chooser)
    requires n < |Transactions(b)|
    ensures CommitAll(CommitAll(s, Transactions(b)[..n], choose), Transactions(b), choose) ==
            CommitAll(s, Transactions(b), choose)
  {
    if n == 0 {
      assert Transactions(b)[..0] == [];
    } else {
      PartialBatch(s, b, n, choose);
      var i, j := EventsDone(b, n), ExhibitsDone(b, n);
      var mid := Written(s, b, i, j);
      WholeBatch(mid, b, choose);
      WholeBatch(s, b, choose);
      RecordTwice(s.books, b.sample, MAX_GAP_MS);
      assert b.events[..|b.events|] == b.events && b.exhibits[..|b.exhibits|] == b.exhibits;
      UpsertsAbsorbPrefix(s.incidents, b.events, i);
      FilesAbsorbPrefix(s.evidence, b.exhibits, j, |b.exhibits|);
    }
  }

  // ---------------------------------------------------------------- acknowledgements in between

  function AcknowledgeIn(s: Store, id: nat, at: int): Store { s.(incidents := Acknowledge(s.incidents, id, at)) }

  lemma AcknowledgeCommutes(s: Store, x: Transaction, choose: Chooser, id: nat, at: int)
    requires id in s.incidents
    ensures id in Commit(s, x, choose).incidents
    ensures Commit(AcknowledgeIn(s, id, at), x, choose) == AcknowledgeIn(Commit(s, x, choose), id, at)
  {}

  lemma {:induction false} AcknowledgeCommutesAll(s: Store, xs: seq<Transaction>, choose: Chooser, id: nat, at: int)
    requires id in s.incidents
    ensures id in CommitAll(s, xs, choose).incidents
    ensures CommitAll(AcknowledgeIn(s, id, at), xs, choose) == AcknowledgeIn(CommitAll(s, xs, choose), id, at)
  {
    if xs == [] {
    } else {
      AcknowledgeCommutesAll(s, xs[..|xs| - 1], choose, id, at);
      AcknowledgeCommutes(CommitAll(s, xs[..|xs| - 1], choose), xs[|xs| - 1], choose, id, at);
    }
  }

  /** What can happen while the storage thread works on a batch. */
  datatype Happening = Commits | Fails | Acks(id: nat, at: int)

  /** The store, how far the current attempt got, and the acknowledgements that found their incident. */
  datatype Progress = Progress(store: Store, done: nat, acks: seq<(nat, int)>)

  function Happen(g: Progress, xs: seq<Transaction>, choose: Chooser, a: Happening): Progress {
    match a
    case Commits =>
      if g.done < |xs| && CanCommit(xs[g.done])
      then g.(store := Commit(g.store, xs[g.done], choose), done := g.done + 1) else g
    case Fails => if g.done < |xs| then g.(done := 0) else g
    case Acks(id, at) =>
      if id in g.store.incidents then g.(store := AcknowledgeIn(g.store, id, at), acks := g.acks + [(id, at)]) else g
  }

  function Work(s: Store, xs: seq<Transaction>, choose: Chooser, trace: seq<Happening>): Progress {
    if trace == [] then Progress(s, 0, []) else
      Happen(Work(s, xs, choose, trace[..|trace| - 1]), xs, choose, trace[|trace| - 1])
  }

  function AcknowledgeAll(s: Store, acks: seq<(nat, int)>): Store {
    if acks == [] then s else
      AcknowledgeIn(AcknowledgeAll(s, acks[..|acks| - 1]), acks[|acks| - 1].0, acks[|acks| - 1].1)
  }

  /**
   * The store is some starting point plus the current attempt's transactions, and completing a clean run from that
   * point gives the clean run of the whole batch with the acknowledgements so far.
   */
  ghost predicate OnCourse(s: Store, b: Batch, choose: Chooser, g: Progress, base: Store) {
    var xs := Transactions(b);
    && g.done < |xs|
    && g.store == CommitAll(base, xs[..g.done], choose)
    && CommitAll(base, xs, choose) == AcknowledgeAll(CommitAll(s, xs, choose), g.acks)
  }

  lemma {:induction false} RetriesStayOnCourse(s: Store, b: Batch, choose: Chooser, trace: seq<Happening>)
      returns (base: Store)
    ensures var xs := Transactions(b); var g := Work(s, xs, choose, trace);
            if g.done < |xs| then OnCourse(s, b, choose, g, base)
            else g.done == |xs| && g.store == AcknowledgeAll(CommitAll(s, xs, choose), g.acks)
  {
    var xs := Transactions(b);
    if trace == [] {
      base := s;
      assert xs[..0] == [];
    } else {
      var before, a := trace[..|trace| - 1], trace[|trace| - 1];
      var g := Work(s, xs, choose, before);
      base := RetriesStayOnCourse(s, b, choose, before);
      match a
      case Commits =>
        if g.done < |xs| {
          CommitNextOf(base, xs, g.done, choose);
          assert xs[..|xs|] == xs;
        }
      case Fails =>
        if g.done < |xs| {
          RetryAbsorbsAttempt(base, b, g.done, choose);
          base := g.store;
          assert xs[..0] == [];
        }
      case Acks(id, at) =>
        if id in g.store.incidents {
          AcknowledgeAllSnoc(CommitAll(s, xs, choose), g.acks, id, at);
          if g.done < |xs| { base := AcknowledgeMidway(base, b, choose, g.done, id, at); }
        }
    }
  }

  lemma AcknowledgeAllSnoc(s: Store, acks: seq<(nat, int)>, id: nat, at: int)
    ensures AcknowledgeAll(s, acks + [(id, at)]) == AcknowledgeIn(AcknowledgeAll(s, acks), id, at)
  {
    assert (acks + [(id, at)])[..|acks|] == acks;
  }

  /** Acknowledging in mid-attempt amounts to restarting from the acknowledged store. */
  lemma AcknowledgeMidway(base: Store, b: Batch, choose: Chooser, n: nat, id: nat, at: int) returns (next: Store)
    requires n < |Transactions(b)| && id in CommitAll(base, Transactions(b)[..n], choose).incidents
    ensures var xs := Transactions(b);
            && CommitAll(next, xs[..n], choose) == AcknowledgeIn(CommitAll(base, xs[..n], choose), id, at)
            && CommitAll(next, xs, choose) == AcknowledgeIn(CommitAll(base, xs, choose), id, at)
  {
    var xs := Transactions(b);
    var mid := CommitAll(base, xs[..n], choose);
    next := AcknowledgeIn(mid, id, at);
    PrefixIsIdempotent(base, b, n, choose);
    RetryAbsorbsAttempt(base, b, n, choose);
    AcknowledgeCommutesAll(mid, xs[..n], choose, id, at);
    AcknowledgeCommutesAll(mid, xs, choose, id, at);
  }

  lemma PrefixIsIdempotent(s: Store, b: Batch, n: nat, choose: Chooser)
    requires n < |Transactions(b)|
    ensures CommitAll(CommitAll(s, Transactions(b)[..n], choose), Transactions(b)[..n], choose)
         == CommitAll(s, Transactions(b)[..n], choose)
  {
    if n == 0 {
      assert Transactions(b)[..0] == [];
    } else {
      PartialBatch(s, b, n, choose);
      var i, j := EventsDone(b, n), ExhibitsDone(b, n);
      var mid := Written(s, b, i, j);
      PartialBatch(mid, b, n, choose);
      RecordTwice(s.books, b.sample, MAX_GAP_MS);
      assert b.events[..i][..i] == b.events[..i];
      UpsertsAbsorbPrefix(s.incidents, b.events[..i], i);
      FilesAbsorbPrefix(s.evidence, b.exhibits, j, j);
    }
  }

  /**
   * Exactly-once effect: however many attempts fail and wherever, with acknowledgements arriving at any moment, the
   * attempt that completes leaves the tables and the previous sample of one clean run, with the acknowledgements that
   * found their incident applied to it.
   */
  lemma ExactlyOnce(s: Store, b: Batch, choose: Chooser, trace: seq<Happening>)
    requires Work(s, Transactions(b), choose, trace).done == |Transactions(b)|
    ensures var g := Work(s, Transactions(b), choose, trace);
            g.store == AcknowledgeAll(CommitAll(s, Transactions(b), choose), g.acks)
  {
    var base := RetriesStayOnCourse(s, b, choose, trace);
  }

  // ---------------------------------------------------------------- what a completed batch leaves

  /** Acknowledging changes only the acknowledgement column of known rows. */
  ghost predicate OnlyAcks(a: IncidentTable, b: IncidentTable) {
    && a.Keys == b.Keys
    && forall id: nat :: id in a ==> b[id].endMs == a[id].endMs && b[id].json == a[id].json
  }

  lemma {:induction false} AcknowledgingChangesNoMore(s: Store, acks: seq<(nat, int)>)
    ensures var t := AcknowledgeAll(s, acks);
            t.books == s.books && t.evidence == s.evidence && OnlyAcks(s.incidents, t.incidents)
  {
    if acks == [] {
    } else {
      AcknowledgingChangesNoMore(s, acks[..|acks| - 1]);
    }
  }

  lemma {:induction false} CompletionNeedsSequence(s: Store, b: Batch, choose: Chooser, trace: seq<Happening>)
    ensures Work(s, Transactions(b), choose, trace).done > 0 ==> b.sample.sequence <= I64_MAX
  {
    if trace == [] {
    } else {
      CompletionNeedsSequence(s, b, choose, trace[..|trace| - 1]);
      TransactionLayout(b);
    }
  }

  ghost predicate Outdates(b: Batch, s: Sample) { s.capturedMs < b.sample.capturedMs - RETENTION_MS }

  /** Upkeep touches the samples only, and of them only those captured more than 48 hours before the batch. */
  lemma UpkeepSparesTheRest(s: Store, b: Batch, choose: Chooser)
    ensures var t := CommitAll(s, Upkeep(b), choose);
            && t.incidents == s.incidents && t.evidence == s.evidence
            && t.books.energy == s.books.energy && t.books.previous == s.books.previous
            && forall k :: k in s.books.samples && !Outdates(b, s.books.samples[k]) ==>
                 k in t.books.samples && t.books.samples[k] == s.books.samples[k]
  {
    if Upkeep(b) != [] {
      assert Upkeep(b)[..0] == [];
    }
  }

  /** The evidence table after a whole batch holds what it held before and every reading of the batch, by key. */
  lemma BatchFilesExhibits(s: Store, b: Batch, choose: Chooser)
    ensures var after := CommitAll(s, Transactions(b), choose).evidence;
            forall key :: key in after <==> key in s.evidence || Bears(b.exhibits, key)
  {
    WholeBatch(s, b, choose);
    UpkeepSparesTheRest(Written(s, b, |b.events|, |b.exhibits|), b, choose);
    assert b.exhibits[..|b.exhibits|] == b.exhibits;
    forall key {
      FilesByKey(s.evidence, b.exhibits, key);
    }
  }

  /**
   * A batch that completes, after whatever failed attempts and with acknowledgements at any moment, is in the tables:
   * each exhibit's reading under its incident and capture time, the first filed there and no other; each event's row,
   * as last mentioned; and the sample, if it was new. Nothing appears beside them, no evidence goes, and no sample of
   * the last 48 hours either.
   */
  lemma CompletedBatchIsStored(s: Store, b: Batch, choose: Chooser, trace: seq<Happening>)
    requires Work(s, Transactions(b), choose, trace).done == |Transactions(b)|
    ensures var t := Work(s, Transactions(b), choose, trace).store;
            && (forall key :: key in t.evidence <==> key in s.evidence || Bears(b.exhibits, key))
            && (forall key :: key in s.evidence ==> t.evidence[key] == s.evidence[key])
            && (forall key, i: nat :: key !in s.evidence && FirstUnder(b.exhibits, key, i) ==>
                  t.evidence[key] == b.exhibits[i].sample)
            && (forall id: nat :: id in t.incidents <==> id in s.incidents || Mentions(b.events, id))
            && (forall id: nat :: Mentions(b.events, id) ==>
                  t.incidents[id].json == LastMention(b.events, id) &&
                  t.incidents[id].endMs == LastMention(b.events, id).recoveredAtMs)
            && (forall id: nat :: id in s.incidents && !Mentions(b.events, id) ==>
                  t.incidents[id].json == s.incidents[id].json && t.incidents[id].endMs == s.incidents[id].endMs)
            && (KeyOf(b.sample) !in s.books.samples ==>
                  KeyOf(b.sample) in t.books.samples && t.books.samples[KeyOf(b.sample)] == b.sample &&
                  t.books.previous == Some(b.sample))
            && (forall k :: k in s.books.samples && !Outdates(b, s.books.samples[k]) ==> k in t.books.samples)
  {
    var g := Work(s, Transactions(b), choose, trace);
    var written := Written(s, b, |b.events|, |b.exhibits|);
    ExactlyOnce(s, b, choose, trace);
    WholeBatch(s, b, choose);
    CompletionNeedsSequence(s, b, choose, trace);
    UpkeepSparesTheRest(written, b, choose);
    AcknowledgingChangesNoMore(CommitAll(s, Transactions(b), choose), g.acks);
    assert b.events[..|b.events|] == b.events && b.exhibits[..|b.exhibits|] == b.exhibits;
    forall key {
      FilesByKey(s.evidence, b.exhibits, key);
    }
    forall id: nat {
      UpsertsByRow(s.incidents, b.events, id);
    }
  }

  predicate IsAck(a: Happening, id: nat) { a.Acks? && a.id == id }

  ghost predicate NoAck(trace: seq<Happening>, id: nat) { forall i :: 0 <= i < |trace| ==> !IsAck(trace[i], id) }

  lemma HappenAcknowledges(g: Progress, xs: seq<Transaction>, choose: Chooser, a: Happening, id: nat)
    requires id in g.store.incidents
    ensures var t, was := Happen(g, xs, choose, a).store.incidents, g.store.incidents[id].ackMs;
            id in t && t[id].ackMs == if IsAck(a, id) && was.None? then Some(a.at) else was
  {}

  /**
   * The acknowledgement time of a stored incident is the first it was ever given, whatever else happens; a row without
   * one has none until its first acknowledgement.
   */
  lemma {:induction false} FirstAcknowledgementStays(s: Store, xs: seq<Transaction>, choose: Chooser,
      trace: seq<Happening>, id: nat)
    requires id in s.incidents
    ensures var t, was := Work(s, xs, choose, trace).store.incidents, s.incidents[id].ackMs;
            && id in t
            && (was.Some? || NoAck(trace, id) ==> t[id].ackMs == was)
            && (forall i :: was.None? && 0 <= i < |trace| && IsAck(trace[i], id) && NoAck(trace[..i], id) ==>
                  t[id].ackMs == Some(trace[i].at))
  {
    if trace == [] {
    } else {
      var before, a := trace[..|trace| - 1], trace[|trace| - 1];
      FirstAcknowledgementStays(s, xs, choose, before, id);
      HappenAcknowledges(Work(s, xs, choose, before), xs, choose, a, id);
      forall i | 0 <= i < |before|
        ensures trace[i] == before[i] && trace[..i] == before[..i]
      {}
      assert trace[..|before|] == before;
    }
  }
}
