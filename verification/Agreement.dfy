/** Agreement between the alert engine and the durable incidents table, over every interleaving and restart. */
module Agreement {
  import opened Wrappers
  import opened Telemetry
  import opened Alerts
  import opened AlertRuns
  import opened Storage
  import opened Monitoring
  import opened OpenRows
  import opened Pipeline

  // ---------------------------------------------------------------- the engine's events as a stream

  /** The kinds that a TS unit can report: 18 alarm bytes, two connectors, and the monitor itself. */
  predicate TsKind(k: Kind) {
    match k
    case Hardware(i) => i < ALARMS
    case Safeguard(c) => c < 2
    case Software(c) => c < 2
    case Monitoring => true
  }

  /** What the TS decoders produce: two connectors, and a snapshot for both or neither. */
  predicate TsShaped(t: Sample) { |t.connectors| <= 2 && |t.safeguards| <= 2 }

  ghost predicate TsKinds(events: seq<Incident>) { forall i :: 0 <= i < |events| ==> TsKind(events[i].kind) }

  lemma {:induction false} VisitAllTsKinds(e: EngineState, t: Sample, p: Policy, ks: seq<Kind>)
    requires Filed(e)
    requires forall i :: 0 <= i < |ks| ==> Report(t, p, ks[i]).Some? && TsKind(ks[i])
    ensures Filed(VisitAll(e, t, p, ks).0) && TsKinds(VisitAll(e, t, p, ks).1)
  {
    if ks == [] {
    } else {
      VisitAllTsKinds(e, t, p, ks[..|ks| - 1]);
    }
  }

  lemma StepIsTs(e: EngineState, x: Input)
    requires Filed(e) && (x.Observed? ==> TsShaped(x.t))
    ensures TsKinds(AlertRuns.Step(e, x).1)
  {
    if x.Observed? {
      KindsAreReported(x.t, x.p);
      VisitAllTsKinds(Begin(e, x.t, x.maxGapMs), x.t, x.p, Kinds(x.t));
    }
  }

  // ---------------------------------------------------------------- the stream from table to engine

  /** From the open set o the updates lead lawfully to the active map, all ids being below the supply. */
  ghost predicate Leads(o: OpenSet, updates: seq<Incident>, active: map<Kind, Incident>, supply: nat) {
    && OnePerKind(o) && Lawful(o, updates) && IdsBelow(o, updates, supply)
    && OpenAfter(o, updates) == OpenOf(active)
    && DistinctBelow(active, supply)
    && (forall x :: x in o ==> TsKind(x.0)) && TsKinds(updates)
  }

  lemma LeadsOn(o: OpenSet, updates: seq<Incident>, active: map<Kind, Incident>, lo: nat,
                events: seq<Incident>, after: map<Kind, Incident>, hi: nat)
    requires Leads(o, updates, active, lo) && Explains(active, events, after) && FreshRaises(events, lo, hi) &&
             TsKinds(events)
    ensures Leads(o, updates + events, after, hi)
  {
    ReplayOpens(active, events, lo, hi);
    ReplayIsLawful(active, events, lo, hi);
    LawfulConcat(o, updates, events, lo, hi);
    OpenAfterConcat(o, updates, events);
  }

  lemma LeadsFrom(o: OpenSet, first: seq<Incident>, rest: seq<Incident>, active: map<Kind, Incident>, supply: nat)
    requires Leads(o, first + rest, active, supply)
    ensures Lawful(o, first)
    ensures Leads(OpenAfter(o, first), rest, active, supply)
  {
    LawfulSuffix(o, first, rest);
    LawfulKeepsOnePerKind(o, first);
    OpenAfterConcat(o, first, rest);
    KnownParts(o, first, rest, supply);
  }

  lemma KnownParts(o: OpenSet, first: seq<Incident>, rest: seq<Incident>, supply: nat)
    requires IdsBelow(o, first + rest, supply) && TsKinds(first + rest) && (forall x :: x in o ==> TsKind(x.0))
    ensures IdsBelow(OpenAfter(o, first), rest, supply) && TsKinds(rest)
    ensures forall x :: x in OpenAfter(o, first) ==> TsKind(x.0)
  {
    forall i | 0 <= i < |rest|
      ensures rest[i].id < supply && TsKind(rest[i].kind)
    {
      assert (first + rest)[|first| + i] == rest[i];
    }
    forall x | x in OpenAfter(o, first)
      ensures x.1 < supply && TsKind(x.0)
    {
      OpenAfterByMention(o, first, x);
      if Mentions(first, x.1) {
        LastMentionIndex(first, x.1);
        var i :| 0 <= i < |first| && first[i] == LastMention(first, x.1) && first[i].id == x.1;
        assert (first + rest)[i] == first[i];
      }
    }
  }

  /** The most events that a failing attempt at a batch can have written. */
  function FailLimit(b: Batch): nat {
    if b.exhibits != [] || Upkeep(b) != [] then |b.events| else SaturatingSub(|b.events|, 1)
  }

  ghost predicate JobTracked(s: System, b: Batch) {
    && s.attempts != [] && CanStop(s.attempts, b.events, FailLimit(b))
    && OpenIn(s.store.incidents) == Attempts(s.origin, b.events, s.attempts)
    && s.done < |Transactions(b)|
    && s.attempts[|s.attempts| - 1] == EventsDone(b, s.done)
  }

  function Base(s: System): OpenSet { if s.job.Some? then s.origin else OpenIn(s.store.incidents) }

  ghost predicate TableKnown(table: IncidentTable, supply: nat) {
    TableSound(table) && forall id :: id in table ==> id < supply
  }

  /** The invariant: the updates on their way lead from the table, as it was before the current batch, to the engine. */
  ghost predicate InStep(s: System) {
    && TableKnown(s.store.incidents, s.monitor.engine.nextId)
    && Leads(Base(s), Remaining(s), s.monitor.engine.active, s.monitor.engine.nextId)
    && (s.job.Some? ==> JobTracked(s, s.job.value))
  }

  /** The step brings readings as a TS unit sends them, and drops no update. */
  ghost predicate Lossless(s: System, step: Pipeline.Step) {
    && (step.SampleRead? ==> TsShaped(step.raw))
    && (step.SampleRead? || step.ReadFailed? ==> CycleOf(s, step).next.droppedEvents == s.monitor.droppedEvents)
  }

  /** A restart finds at most one open row of each kind. */
  ghost predicate RestartsClean(s: System, step: Pipeline.Step) {
    step.Restarted? && Restores(step.restored, s.store.incidents) ==> OnePerKind(OpenIn(s.store.incidents))
  }

  ghost predicate Orderly(s: System, step: Pipeline.Step) { Lossless(s, step) && RestartsClean(s, step) }

  /** The batch being written, if any, raises no kind twice among the events a failing attempt can write. */
  ghost predicate Untangled(s: System) {
    s.job.Some? ==> !DoubleRaise(s.job.value.events[..FailLimit(s.job.value)])
  }

  // ---------------------------------------------------------------- cycles

  lemma SyncKeepsOpen(e: EngineState, acks: map<nat, Option<int>>, supply: nat)
    requires DistinctBelow(e.active, supply)
    ensures OpenOf(SyncAcks(e, acks).active) == OpenOf(e.active)
    ensures DistinctBelow(SyncAcks(e, acks).active, supply)
    ensures Filed(SyncAcks(e, acks)) && SyncAcks(e, acks).nextId == e.nextId
  {
    var after := SyncAcks(e, acks).active;
    forall x: (Kind, nat)
      ensures x in OpenOf(after) <==> x in OpenOf(e.active)
    {
      InOpenOf(after, x);
      InOpenOf(e.active, x);
    }
  }

  /** A cycle's events are those of one engine step, and its next engine is that step's. */
  lemma CycleSteps(s: System, step: Pipeline.Step) returns (e: EngineState, x: Input, quiet: bool)
    requires step.SampleRead? || step.ReadFailed?
    requires DistinctBelow(s.monitor.engine.active, s.monitor.engine.nextId)
    ensures var c := CycleOf(s, step);
            if quiet then c.events == [] && c.next.engine == s.monitor.engine
            else (c.next.engine, c.events) == AlertRuns.Step(e, x)
    ensures OpenOf(e.active) == OpenOf(s.monitor.engine.active) && DistinctBelow(e.active, e.nextId) && Filed(e)
    ensures e.nextId == s.monitor.engine.nextId
    ensures x.Observed? ==> step.SampleRead? && (TsShaped(step.raw) ==> TsShaped(x.t))
  {
    var m := s.monitor;
    e, quiet := m.engine, false;
    match step
    case SampleRead(raw, policy, acks) =>
      SyncKeepsOpen(m.engine, acks, m.engine.nextId);
      e := SyncAcks(m.engine, acks);
      x := Observed(Stamped(m, raw), policy, MAX_GAP_MS);
    case ReadFailed(at) =>
      if m.telemetry.Some? {
        x := Lost(m.telemetry.value, at);
      } else {
        var none := Sample("", "", 0, 0, 0, 0, 0, [], [], [], []);
        x, quiet := Lost(none, at), true;
      }
  }

  /** Without a drop, a cycle appends its events to the updates on their way. */
  lemma CycleAppends(s: System, c: Cycle)
    requires MovesBacklog(s, c) && LostEvents(s, c) == 0
    ensures Remaining(AfterCycle(s, c)) == Remaining(s) + c.events
  {
    if c.sent.Some? { QueuedSnoc(s.queue, c.sent.value); }
    var m := s.monitor;
    assert (m.pendingEvents + c.events)[0..] == m.pendingEvents + c.events;
  }

  lemma CycleInStep(s: System, step: Pipeline.Step)
    requires InStep(s) && Orderly(s, step) && (step.SampleRead? || step.ReadFailed?)
    ensures InStep(AfterCycle(s, CycleOf(s, step)))
  {
    var c := CycleOf(s, step);
    CyclesMoveBacklog(s, step);
    CycleAppends(s, c);
    var e, x, quiet := CycleSteps(s, step);
    if quiet {
      assert Remaining(s) + c.events == Remaining(s);
    } else {
      StepExplained(e, x);
      StepIsFresh(e, x);
      StepIsTs(e, x);
      assert Leads(Base(s), Remaining(s), e.active, e.nextId);
      LeadsOn(Base(s), Remaining(s), e.active, e.nextId, c.events, c.next.engine.active, c.next.engine.nextId);
    }
  }

  // ---------------------------------------------------------------- storage

  lemma ReceiveInStep(s: System)
    requires InStep(s) && s.job.None? && s.queue != []
    ensures InStep(s.(job := Some(s.queue[0]), done := 0, queue := s.queue[1..], origin := OpenIn(s.store.incidents),
            attempts := [0]))
  {
    QueuedHead(s.queue);
    var b, ns: seq<nat> := s.queue[0], [0];
    var after := s.(job := Some(b), done := 0, queue := s.queue[1..], origin := OpenIn(s.store.incidents),
      attempts := ns);
    assert Remaining(after) == Remaining(s);
    assert ns[..0] == [] && b.events[..0] == [];
    assert Attempts(after.origin, b.events, ns) == after.origin;
  }

  /** What the next transaction of a batch does to the open rows and to the count of events written. */
  lemma CommitOpens(s: Store, b: Batch, n: nat, choose: Chooser)
    requires n < |Transactions(b)| && TableSound(s.incidents)
    ensures var x := Transactions(b)[n]; var after := Commit(s, x, choose).incidents;
            && TableSound(after)
            && if 1 <= n <= |b.events| then
                 && EventsDone(b, n + 1) == EventsDone(b, n) + 1 == n
                 && x == SaveIncident(b.events[n - 1])
                 && OpenIn(after) == OpenStep(OpenIn(s.incidents), b.events[n - 1])
               else EventsDone(b, n + 1) == EventsDone(b, n) && after == s.incidents
  {
    TransactionLayout(b);
    if 1 <= n <= |b.events| { UpsertOpens(s.incidents, b.events[n - 1]); }
  }

  lemma AttemptAdvances(o: OpenSet, es: seq<Incident>, ns: seq<nat>, n: nat)
    requires ns != [] && Within(ns, |es|) && ns[|ns| - 1] == n < |es|
    ensures Attempts(o, es, ns[|ns| - 1 := n + 1]) == OpenStep(Attempts(o, es, ns), es[n])
  {
    var next := ns[|ns| - 1 := n + 1];
    assert next[..|ns| - 1] == ns[..|ns| - 1];
    assert es[..n + 1][..n] == es[..n];
  }

  /** The open rows and the attempts after one more transaction, whether or not it is the batch's last. */
  lemma CommitTracked(s: System, b: Batch, choose: Chooser) returns (ns: seq<nat>)
    requires JobTracked(s, b) && TableSound(s.store.incidents)
    ensures var after := Commit(s.store, Transactions(b)[s.done], choose).incidents;
            && ns == s.attempts[|s.attempts| - 1 := EventsDone(b, s.done + 1)]
            && CanStop(ns, b.events, FailLimit(b))
            && TableSound(after) && OpenIn(after) == Attempts(s.origin, b.events, ns)
  {
    CommitOpens(s.store, b, s.done, choose);
    ns := s.attempts[|s.attempts| - 1 := EventsDone(b, s.done + 1)];
    if 1 <= s.done <= |b.events| {
      AttemptAdvances(s.origin, b.events, s.attempts, s.done - 1);
    } else {
      assert ns == s.attempts;
    }
  }

  lemma CommitKeepsKnown(table: IncidentTable, b: Batch, n: nat, s: Store, choose: Chooser, supply: nat)
    requires s.incidents == table && TableKnown(table, supply) && n < |Transactions(b)|
    requires forall i :: 0 <= i < |b.events| ==> b.events[i].id < supply
    ensures TableKnown(Commit(s, Transactions(b)[n], choose).incidents, supply)
  {
    CommitOpens(s, b, n, choose);
    if 1 <= n <= |b.events| { assert b.events[n - 1].id < supply; }
  }

  /** A completed batch leaves the open rows where a single clean attempt would. */
  lemma CompletedIsClean(o: OpenSet, es: seq<Incident>, ns: seq<nat>)
    requires ns != [] && Within(ns, |es|) && ns[|ns| - 1] == |es|
    ensures Attempts(o, es, ns) == OpenAfter(o, es)
  {
    var before := ns[..|ns| - 1];
    AttemptsTraced(o, es, before);
    FurthestAttemptIsClean(Attempts(o, es, before), o, es, Furthest(before), |es|);
    assert es[..|es|] == es;
  }

  lemma JobIdsKnown(s: System, b: Batch)
    requires InStep(s) && s.job == Some(b)
    ensures forall i :: 0 <= i < |b.events| ==> b.events[i].id < s.monitor.engine.nextId
  {
    forall i | 0 <= i < |b.events|
      ensures b.events[i].id < s.monitor.engine.nextId
    {
      assert Remaining(s)[i] == b.events[i];
    }
  }

  /** After one more transaction the table is known, and the open rows are those of the attempts. */
  lemma CommitFacts(s: System, b: Batch, choose: Chooser) returns (ns: seq<nat>)
    requires InStep(s) && s.job == Some(b)
    ensures var after := Commit(s.store, Transactions(b)[s.done], choose).incidents;
            && ns == s.attempts[|s.attempts| - 1 := EventsDone(b, s.done + 1)]
            && CanStop(ns, b.events, FailLimit(b))
            && TableKnown(after, s.monitor.engine.nextId) && OpenIn(after) == Attempts(s.origin, b.events, ns)
  {
    ns := CommitTracked(s, b, choose);
    JobIdsKnown(s, b);
    CommitKeepsKnown(s.store.incidents, b, s.done, s.store, choose, s.monitor.engine.nextId);
  }

  lemma CommitInStep(s: System, b: Batch, choose: Chooser)
    requires InStep(s) && s.job == Some(b)
    ensures InStep(Committed(s, b, choose))
  {
    if CanCommit(Transactions(b)[s.done]) {
      if s.done + 1 == |Transactions(b)| {
        CommitLast(s, b, choose);
      } else {
        CommitMidway(s, b, choose);
      }
    }
  }

  lemma CommitLast(s: System, b: Batch, choose: Chooser)
    requires InStep(s) && s.job == Some(b) && CanCommit(Transactions(b)[s.done]) && s.done + 1 == |Transactions(b)|
    ensures InStep(Committed(s, b, choose))
  {
    var ns := CommitFacts(s, b, choose);
    var rest := QueuedEvents(s.queue) + s.monitor.pendingEvents;
    assert Remaining(s) == b.events + rest;
    CompletionInStep(s.origin, b.events, rest, ns, Committed(s, b, choose));
  }

  lemma CommitMidway(s: System, b: Batch, choose: Chooser)
    requires InStep(s) && s.job == Some(b) && CanCommit(Transactions(b)[s.done]) && s.done + 1 < |Transactions(b)|
    ensures InStep(Committed(s, b, choose))
  {
    var ns := CommitFacts(s, b, choose);
  }

  lemma CompletionInStep(o: OpenSet, es: seq<Incident>, rest: seq<Incident>, ns: seq<nat>, after: System)
    requires Leads(o, es + rest, after.monitor.engine.active, after.monitor.engine.nextId)
    requires ns != [] && Within(ns, |es|) && ns[|ns| - 1] == |es|
    requires OpenIn(after.store.incidents) == Attempts(o, es, ns)
    requires TableKnown(after.store.incidents, after.monitor.engine.nextId)
    requires after.job.None? && rest == QueuedEvents(after.queue) + after.monitor.pendingEvents
    ensures InStep(after)
  {
    CompletedIsClean(o, es, ns);
    LeadsFrom(o, es, rest, after.monitor.engine.active, after.monitor.engine.nextId);
    IdleInStep(after, rest);
  }

  lemma IdleInStep(s: System, rest: seq<Incident>)
    requires TableKnown(s.store.incidents, s.monitor.engine.nextId)
    requires s.job.None? && rest == QueuedEvents(s.queue) + s.monitor.pendingEvents
    requires Leads(OpenIn(s.store.incidents), rest, s.monitor.engine.active, s.monitor.engine.nextId)
    ensures InStep(s)
  {
    assert Remaining(s) == rest;
  }

  lemma FailInStep(s: System, b: Batch)
    requires InStep(s) && s.job == Some(b)
    ensures InStep(s.(done := 0, attempts := s.attempts + [0]))
  {
    var after := s.(done := 0, attempts := s.attempts + [0]);
    assert Remaining(after) == Remaining(s);
    assert EventsDone(b, s.done) <= FailLimit(b);
  }

  lemma AcknowledgeInStep(s: System, id: nat, at: int)
    requires InStep(s)
    ensures InStep(s.(store := AcknowledgeIn(s.store, id, at)))
  {
    AcknowledgeOpensNothing(s.store.incidents, id, at);
    assert Remaining(s.(store := AcknowledgeIn(s.store, id, at))) == Remaining(s);
  }

  // ---------------------------------------------------------------- one open row per kind, restarts

  /** At every moment of an orderly run each kind has at most one open row. */
  lemma InStepIsOnePerKind(s: System)
    requires InStep(s) && Untangled(s)
    ensures OnePerKind(OpenIn(s.store.incidents))
  {
    if s.job.Some? {
      var b := s.job.value;
      var rest := QueuedEvents(s.queue) + s.monitor.pendingEvents;
      assert Remaining(s) == b.events + rest;
      LeadsFrom(s.origin, b.events, rest, s.monitor.engine.active, s.monitor.engine.nextId);
      NoDoubleRaiseIsSafe(s.origin, b.events, FailLimit(b), s.attempts);
    }
  }

  /** Restored incidents are the open rows, id for id, exactly when each kind has at most one. */
  lemma RestoredAgreesIff(restored: map<Kind, Incident>, table: IncidentTable)
    requires Restores(restored, table) && TableSound(table) && |OpenRowIds(table)| <= RESTORE_LIMIT
    ensures OpenOf(restored) == OpenIn(table) <==> OnePerKind(OpenIn(table))
  {
    if OnePerKind(OpenIn(table)) {
      forall x: (Kind, nat)
        ensures x in OpenOf(restored) <==> x in OpenIn(table)
      {
        RestoredKind(restored, table, x);
      }
    } else {
      ActiveIsOnePerKind(restored);
    }
  }

  lemma ActiveIsOnePerKind(active: map<Kind, Incident>)
    ensures OnePerKind(OpenOf(active))
  {
    forall x, y | x in OpenOf(active) && y in OpenOf(active) && x.0 == y.0
      ensures x == y
    {
      InOpenOf(active, x);
      InOpenOf(active, y);
    }
  }

  lemma RestoredKind(restored: map<Kind, Incident>, table: IncidentTable, x: (Kind, nat))
    requires Restores(restored, table) && TableSound(table) && |OpenRowIds(table)| <= RESTORE_LIMIT
    requires OnePerKind(OpenIn(table))
    ensures x in OpenOf(restored) <==> x in OpenIn(table)
  {
    var rows :| RestoredFrom(restored, table, rows);
    InOpenOf(restored, x);
    InOpenIn(table, x);
    if x.0 in restored {
      var r: nat :| RestoredRow(restored[x.0], table, rows, x.0, r);
      InOpenIn(table, (x.0, r));
      assert restored[x.0].id == r;
    }
  }

  function AllTsKinds(): set<Kind> {
    (set i | 0 <= i < ALARMS :: Hardware(i)) + {Safeguard(0), Safeguard(1), Software(0), Software(1), Monitoring}
  }

  lemma {:induction false} HardwareCount(n: nat)
    ensures |set i | 0 <= i < n :: Hardware(i)| <= n
  {
    var all := set i | 0 <= i < n :: Hardware(i);
    if n > 0 {
      HardwareCount(n - 1);
      var fewer := set i | 0 <= i < n - 1 :: Hardware(i);
      assert all == fewer + {Hardware(n - 1)};
    } else {
      assert all == {};
    }
  }

  /** With one open row per kind a TS unit has at most 23, far below the restore limit. */
  lemma FewOpenRows(table: IncidentTable)
    requires TableSound(table) && OnePerKind(OpenIn(table))
    requires forall x :: x in OpenIn(table) ==> TsKind(x.0)
    ensures |OpenRowIds(table)| <= 23
  {
    var ids := OpenRowIds(table);
    forall i, j | i in ids && j in ids && table[i].json.kind == table[j].json.kind
      ensures i == j
    {
      InOpenIn(table, (table[i].json.kind, i));
      InOpenIn(table, (table[j].json.kind, j));
    }
    forall i | i in ids
      ensures table[i].json.kind in AllTsKinds()
    {
      InOpenIn(table, (table[i].json.kind, i));
    }
    HardwareCount(ALARMS);
    InjectiveCount(table, ids, AllTsKinds());
  }

  lemma {:induction false} InjectiveCount(table: IncidentTable, ids: set<nat>, kinds: set<Kind>)
    requires forall i :: i in ids ==> i in table && table[i].json.kind in kinds
    requires forall i, j :: i in ids && j in ids && table[i].json.kind == table[j].json.kind ==> i == j
    ensures |ids| <= |kinds|
    decreases ids
  {
    if i :| i in ids {
      InjectiveCount(table, ids - {i}, kinds - {table[i].json.kind});
    }
  }

  /** A restart onto a table with one open row per kind starts in step. */
  lemma RestartInStep(restored: map<Kind, Incident>, table: IncidentTable, supply: nat)
    requires Restores(restored, table) && TableKnown(table, supply) && OnePerKind(OpenIn(table))
    requires forall x :: x in OpenIn(table) ==> TsKind(x.0)
    ensures Leads(OpenIn(table), [], restored, supply)
  {
    FewOpenRows(table);
    RestoredAgreesIff(restored, table);
    forall x | x in OpenIn(table)
      ensures x.1 < supply
    {
      InOpenIn(table, x);
    }
  }

  lemma OpenKindsAreTs(s: System)
    requires InStep(s)
    ensures forall x :: x in OpenIn(s.store.incidents) ==> TsKind(x.0)
  {
    if s.job.Some? {
      var b := s.job.value;
      AttemptsTraced(s.origin, b.events, s.attempts);
      forall x | x in OpenIn(s.store.incidents)
        ensures TsKind(x.0)
      {
        if RaisedIn(b.events, Furthest(s.attempts), x) {
          var i :| 0 <= i < Furthest(s.attempts) && IsRaise(b.events[i]) && x == (b.events[i].kind, b.events[i].id);
          assert Remaining(s)[i] == b.events[i];
        }
      }
    }
  }

  lemma MoveInStep(s: System, move: Move, choose: Chooser)
    requires InStep(s)
    ensures InStep(Moved(s, move, choose))
    ensures Moved(s, move, choose).job == s.job || Moved(s, move, choose).job.None?
  {
    if s.job.Some? {
      if move.CommitNext? { CommitInStep(s, s.job.value, choose); } else { FailInStep(s, s.job.value); }
    }
  }

  lemma StepInStep(s: System, step: Pipeline.Step, choose: Chooser)
    requires InStep(s) && Orderly(s, step)
    ensures InStep(Next(s, step, choose))
  {
    match step
    case SampleRead(_, _, _) => CycleInStep(s, step);
    case ReadFailed(_) => CycleInStep(s, step);
    case DeviceReopened(session) => assert Remaining(Next(s, step, choose)) == Remaining(s);
    case Receive => if s.job.None? && s.queue != [] { ReceiveInStep(s); }
    case StorageMoves(move) => MoveInStep(s, move, choose);
    case Acknowledged(id, at) => AcknowledgeInStep(s, id, at);
    case Restarted(restored, session) =>
      if Restores(restored, s.store.incidents) {
        OpenKindsAreTs(s);
        RestartInStep(restored, s.store.incidents, s.monitor.engine.nextId);
        assert Remaining(Next(s, step, choose)) == [];
      }
  }

  // ---------------------------------------------------------------- the theorem

  /** The first start: incidents restored from a known table with one open row per kind. */
  ghost predicate FirstStart(s: System) {
    && JustStarted(s)
    && TableKnown(s.store.incidents, s.monitor.engine.nextId)
    && OnePerKind(OpenIn(s.store.incidents))
    && (forall x :: x in OpenIn(s.store.incidents) ==> TsKind(x.0))
  }

  /** Every step of the run is orderly, and so is the batch being written at its end. */
  ghost predicate OrderlyRun(s: System, steps: seq<Pipeline.Step>, choose: Chooser) {
    steps == [] ||
    (OrderlyRun(s, steps[..|steps| - 1], choose) && Orderly(Run(s, steps[..|steps| - 1], choose), steps[|steps| - 1]))
  }

  ghost predicate Quiescent(s: System) { s.job.None? && s.queue == [] && s.monitor.pendingEvents == [] }

  lemma StartInStep(s: System)
    requires FirstStart(s)
    ensures InStep(s)
  {
    RestartInStep(s.monitor.engine.active, s.store.incidents, s.monitor.engine.nextId);
    assert Remaining(s) == [];
  }

  lemma {:induction false} RunInStep(s: System, steps: seq<Pipeline.Step>, choose: Chooser)
    requires FirstStart(s) && OrderlyRun(s, steps, choose)
    ensures InStep(Run(s, steps, choose))
  {
    if steps == [] {
      StartInStep(s);
    } else {
      RunInStep(s, steps[..|steps| - 1], choose);
      StepInStep(Run(s, steps[..|steps| - 1], choose), steps[|steps| - 1], choose);
    }
  }

  /**
   * Over every orderly interleaving of cycles, storage steps, failures, acknowledgements and restarts: whenever nothing
   * is on its way the open rows are exactly the active incidents, id for id; and each kind has at most one open row
   * whenever the batch being written, if any, raises no kind twice.
   */
  lemma TableAgreesWithEngine(s: System, steps: seq<Pipeline.Step>, choose: Chooser)
    requires FirstStart(s) && OrderlyRun(s, steps, choose)
    ensures Agrees(Run(s, steps, choose))
    ensures var end := Run(s, steps, choose);
            Untangled(end) ==> OnePerKind(OpenIn(end.store.incidents))
  {
    RunInStep(s, steps, choose);
    var end := Run(s, steps, choose);
    if Quiescent(end) { assert Remaining(end) == []; }
    if Untangled(end) { InStepIsOnePerKind(end); }
  }

  /** If nothing is on its way, the open rows are exactly the active incidents. */
  ghost predicate Agrees(s: System) {
    Quiescent(s) ==> OpenIn(s.store.incidents) == OpenOf(s.monitor.engine.active)
  }

  ghost predicate LosslessRun(s: System, steps: seq<Pipeline.Step>, choose: Chooser) {
    forall n :: 0 <= n < |steps| ==> Lossless(Run(s, steps[..n], choose), steps[n])
  }

  ghost predicate CleanRestarts(s: System, steps: seq<Pipeline.Step>, choose: Chooser) {
    forall n :: 0 <= n < |steps| ==> RestartsClean(Run(s, steps[..n], choose), steps[n])
  }

  ghost predicate AlwaysAgrees(s: System, steps: seq<Pipeline.Step>, choose: Chooser) {
    forall n :: 0 <= n <= |steps| ==> Agrees(Run(s, steps[..n], choose))
  }

  /**
   * Over every run that drops no update, table and engine agree at every moment at which nothing is on its way exactly
   * when every restart finds at most one open row of each kind.
   */
  lemma AgreementIffCleanRestarts(s: System, steps: seq<Pipeline.Step>, choose: Chooser)
    requires FirstStart(s) && LosslessRun(s, steps, choose)
    ensures AlwaysAgrees(s, steps, choose) <==> CleanRestarts(s, steps, choose)
  {
    if CleanRestarts(s, steps, choose) {
      forall n | 0 <= n <= |steps|
        ensures Agrees(Run(s, steps[..n], choose))
      {
        AgreesAt(s, steps, n, choose);
      }
    }
    if AlwaysAgrees(s, steps, choose) {
      forall n | 0 <= n < |steps|
        ensures RestartsClean(Run(s, steps[..n], choose), steps[n])
      {
        CleanAt(s, steps, n, choose);
      }
    }
  }

  lemma AgreesAt(s: System, steps: seq<Pipeline.Step>, n: nat, choose: Chooser)
    requires FirstStart(s) && LosslessRun(s, steps, choose) && CleanRestarts(s, steps, choose) && n <= |steps|
    ensures Agrees(Run(s, steps[..n], choose))
  {
    OrderlyPrefix(s, steps, n, choose);
    TableAgreesWithEngine(s, steps[..n], choose);
  }

  lemma CleanAt(s: System, steps: seq<Pipeline.Step>, n: nat, choose: Chooser)
    requires AlwaysAgrees(s, steps, choose) && n < |steps|
    ensures RestartsClean(Run(s, steps[..n], choose), steps[n])
  {
    assert Agrees(Run(s, steps[..n + 1], choose));
    RunNext(s, steps, n, choose);
    AgreeingRestartIsClean(Run(s, steps[..n], choose), steps[n], choose);
  }

  lemma RunNext(s: System, steps: seq<Pipeline.Step>, n: nat, choose: Chooser)
    requires n < |steps|
    ensures Run(s, steps[..n + 1], choose) == Next(Run(s, steps[..n], choose), steps[n], choose)
  {
    assert steps[..n + 1][..n] == steps[..n] && steps[..n + 1][n] == steps[n];
  }

  lemma {:induction false} OrderlyPrefix(s: System, steps: seq<Pipeline.Step>, n: nat, choose: Chooser)
    requires n <= |steps| && LosslessRun(s, steps, choose) && CleanRestarts(s, steps, choose)
    ensures OrderlyRun(s, steps[..n], choose)
  {
    if n == 0 {
    } else {
      OrderlyPrefix(s, steps, n - 1, choose);
      assert steps[..n][..n - 1] == steps[..n - 1] && steps[..n][n - 1] == steps[n - 1];
      assert Lossless(Run(s, steps[..n - 1], choose), steps[n - 1]);
      assert RestartsClean(Run(s, steps[..n - 1], choose), steps[n - 1]);
    }
  }

  /** Nothing is on its way after a restart, and the restored incidents are one to a kind. */
  lemma AgreeingRestartIsClean(s: System, step: Pipeline.Step, choose: Chooser)
    ensures Agrees(Next(s, step, choose)) ==> RestartsClean(s, step)
  {
    if step.Restarted? && Restores(step.restored, s.store.incidents) { ActiveIsOnePerKind(step.restored); }
  }

  // ---------------------------------------------------------------- when retries break the invariant

  lemma {:induction false} MovedAllConcat(s: System, a: seq<Move>, b: seq<Move>, choose: Chooser)
    ensures MovedAll(s, a + b, choose) == MovedAll(MovedAll(s, a, choose), b, choose)
  {
    if b == [] {
      assert a + b == a;
    } else {
      assert (a + b)[..|a + b| - 1] == a + b[..|b| - 1];
      MovedAllConcat(s, a, b[..|b| - 1], choose);
    }
  }

  lemma {:induction false} MovesInStep(s: System, moves: seq<Move>, choose: Chooser)
    requires InStep(s)
    ensures InStep(MovedAll(s, moves, choose))
    ensures MovedAll(s, moves, choose).job == s.job || MovedAll(s, moves, choose).job.None?
  {
    if moves == [] {
    } else {
      MovesInStep(s, moves[..|moves| - 1], choose);
      MoveInStep(MovedAll(s, moves[..|moves| - 1], choose), moves[|moves| - 1], choose);
    }
  }

  function Commits(n: nat): seq<Move> { seq(n, i => CommitNext) }

  /** n transactions in a row, short of completing the batch. */
  lemma {:induction false} CommitsRun(s: System, b: Batch, n: nat, choose: Chooser)
    requires s.job == Some(b) && s.done == 0 && s.attempts != [] && s.attempts[|s.attempts| - 1] == 0
    requires n < |Transactions(b)| && b.sample.sequence <= I64_MAX
    ensures var after := MovedAll(s, Commits(n), choose);
            && after.job == s.job && after.origin == s.origin && after.done == n
            && after.attempts == s.attempts[|s.attempts| - 1 := EventsDone(b, n)]
  {
    if n == 0 {
    } else {
      CommitsRun(s, b, n - 1, choose);
      assert Commits(n)[..n - 1] == Commits(n - 1);
      var mid := MovedAll(s, Commits(n - 1), choose);
      CommitOnce(mid, b, choose);
      assert MovedAll(s, Commits(n), choose) == Moved(mid, CommitNext, choose);
    }
  }

  lemma CommitOnce(s: System, b: Batch, choose: Chooser)
    requires s.job == Some(b) && s.attempts != [] && s.done + 1 < |Transactions(b)| && b.sample.sequence <= I64_MAX
    ensures var after := Moved(s, CommitNext, choose);
            && after.job == s.job && after.origin == s.origin && after.done == s.done + 1
            && after.attempts == s.attempts[|s.attempts| - 1 := EventsDone(b, s.done + 1)]
  {}

  function Retry(n: nat): seq<Move> { [AttemptFails] + Commits(n) }

  /** A failed attempt followed by the first n transactions of the next one. */
  lemma RetryRun(s: System, b: Batch, n: nat, choose: Chooser)
    requires s.job == Some(b) && b.sample.sequence <= I64_MAX && n < |Transactions(b)|
    ensures var end := MovedAll(s, Retry(n), choose);
            end.job == s.job && end.origin == s.origin && end.attempts == s.attempts + [EventsDone(b, n)]
  {
    MovedAllConcat(s, [AttemptFails], Commits(n), choose);
    var failed := MovedAll(s, [AttemptFails], choose);
    assert [AttemptFails][..0] == [];
    assert failed == s.(done := 0, attempts := s.attempts + [0]);
    CommitsRun(failed, b, n, choose);
    assert (s.attempts + [0])[|s.attempts| := EventsDone(b, n)] == s.attempts + [EventsDone(b, n)];
  }

  lemma JobIsTracked(s: System, b: Batch)
    requires InStep(s) && s.job == Some(b)
    ensures Lawful(s.origin, b.events)
    ensures Within(s.attempts, |b.events|)
    ensures OpenIn(s.store.incidents) == Attempts(s.origin, b.events, s.attempts)
  {
    var rest := QueuedEvents(s.queue) + s.monitor.pendingEvents;
    assert Remaining(s) == b.events + rest;
    LawfulSuffix(s.origin, b.events, rest);
  }

  /** The batch is still in work, after one more attempt that wrote n events and one that has written m. */
  ghost predicate TriedTwice(s: System, end: System, b: Batch, n: nat, m: nat) {
    end.job == Some(b) && end.origin == s.origin && end.attempts == s.attempts + [n] + [m]
  }

  lemma TwoRetriesRun(s: System, b: Batch, i: nat, j: nat, choose: Chooser) returns (moves: seq<Move>)
    requires s.job == Some(b) && b.sample.sequence <= I64_MAX && i < FailLimit(b) && j < FailLimit(b)
    ensures TriedTwice(s, MovedAll(s, moves, choose), b, j + 1, i + 1)
  {
    Reachable(b, i);
    Reachable(b, j);
    moves := Retry(j + 2) + Retry(i + 2);
    MovedAllConcat(s, Retry(j + 2), Retry(i + 2), choose);
    RetryRun(s, b, j + 2, choose);
    RetryRun(MovedAll(s, Retry(j + 2), choose), b, i + 2, choose);
  }

  /** A failing attempt can write any event below the limit. */
  lemma Reachable(b: Batch, i: nat)
    requires i < FailLimit(b)
    ensures i < |b.events| && i + 2 < |Transactions(b)| && EventsDone(b, i + 2) == i + 1
  {}

  lemma TwiceOpen(s: System, end: System, b: Batch, i: nat, j: nat)
    requires InStep(s) && s.job == Some(b) && InStep(end) && TriedTwice(s, end, b, j + 1, i + 1)
    requires i < j < |b.events| && IsRaise(b.events[i]) && IsRaise(b.events[j]) && b.events[i].kind == b.events[j].kind
    ensures !OnePerKind(OpenIn(end.store.incidents))
  {
    JobIsTracked(s, b);
    JobIsTracked(end, b);
    ReopensTwice(s.origin, b.events, s.attempts, i, j);
  }

  /** Fail, write all up to the j-th event, fail again, write up to the i-th: a kind raised at both is open twice. */
  lemma TangledBatchBreaks(s: System, b: Batch, i: nat, j: nat, choose: Chooser) returns (moves: seq<Move>)
    requires InStep(s) && s.job == Some(b) && b.sample.sequence <= I64_MAX
    requires i < j < FailLimit(b) && IsRaise(b.events[i]) && IsRaise(b.events[j]) &&
             b.events[i].kind == b.events[j].kind
    ensures !OnePerKind(OpenIn(MovedAll(s, moves, choose).store.incidents))
  {
    moves := TwoRetriesRun(s, b, i, j, choose);
    MovesInStep(s, moves, choose);
    TwiceOpen(s, MovedAll(s, moves, choose), b, i, j);
  }

  /**
   * While storage works on a batch, the table keeps at most one open row per kind through every retry exactly when
   * the batch raises no kind twice among the events a failing attempt can write.
   */
  lemma RetriesKeepOneOpenRowIff(s: System, b: Batch, choose: Chooser)
    requires InStep(s) && s.job == Some(b) && b.sample.sequence <= I64_MAX
    ensures (forall moves :: OnePerKind(OpenIn(MovedAll(s, moves, choose).store.incidents)))
       <==> !DoubleRaise(b.events[..FailLimit(b)])
  {
    var es, limit := b.events, FailLimit(b);
    if DoubleRaise(es[..limit]) {
      var i, j :| 0 <= i < j < limit && IsRaise(es[..limit][i]) && IsRaise(es[..limit][j]) &&
        es[..limit][i].kind == es[..limit][j].kind;
      var moves := TangledBatchBreaks(s, b, i, j, choose);
    } else {
      forall moves
        ensures OnePerKind(OpenIn(MovedAll(s, moves, choose).store.incidents))
      {
        MovesInStep(s, moves, choose);
        InStepIsOnePerKind(MovedAll(s, moves, choose));
      }
    }
  }
}
