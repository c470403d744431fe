/** Incident identifiers in every run: one to an active incident, and left behind by an unclean restart. */
module Identities {
  import opened Wrappers
  import opened Alerts
  import opened AlertRuns
  import opened Storage
  import opened Monitoring
  import opened OpenRows
  import P = Pipeline
  import opened Agreement
  import N = Notifier

  // ---------------------------------------------------------------- identifiers in use

  ghost predicate AllBelow(es: seq<Incident>, bound: nat) { forall i :: 0 <= i < |es| ==> es[i].id < bound }

  /** Every identifier in the tables, in the engine and on its way has been handed out, and active ones are distinct. */
  ghost predicate Known(s: P.System) {
    var supply := s.monitor.engine.nextId;
    && TableKnown(s.store.incidents, supply)
    && DistinctBelow(s.monitor.engine.active, supply)
    && AllBelow(P.Remaining(s), supply)
    && P.Working(s)
  }

  /** What a cycle leaves on its way: what was before, less the losses at the front of the backlog, and its events. */
  lemma CycleRemaining(s: P.System, step: P.Step)
    requires step.SampleRead? || step.ReadFailed?
    ensures var c := P.CycleOf(s, step); var lost := P.LostEvents(s, c);
            && 0 <= lost <= |s.monitor.pendingEvents + c.events|
            && P.Remaining(P.AfterCycle(s, c)) ==
               P.JobEvents(s) + P.QueuedEvents(s.queue) + (s.monitor.pendingEvents + c.events)[lost..]
  {
    var c := P.CycleOf(s, step);
    P.CyclesMoveBacklog(s, step);
    if c.sent.Some? { P.QueuedSnoc(s.queue, c.sent.value); }
  }

  /** A cycle's raises bear new identifiers; the active incidents stay distinct. */
  lemma CycleIds(s: P.System, step: P.Step)
    requires step.SampleRead? || step.ReadFailed?
    requires DistinctBelow(s.monitor.engine.active, s.monitor.engine.nextId)
    ensures var c := P.CycleOf(s, step);
            && s.monitor.engine.nextId <= c.next.engine.nextId
            && DistinctBelow(c.next.engine.active, c.next.engine.nextId)
            && AllBelow(c.events, c.next.engine.nextId)
  {
    var c := P.CycleOf(s, step);
    var e, x, quiet := CycleSteps(s, step);
    if !quiet {
      StepExplained(e, x);
      StepIsFresh(e, x);
      ReplayOpens(e.active, c.events, e.nextId, c.next.engine.nextId);
    }
  }

  lemma CycleKnown(s: P.System, step: P.Step)
    requires Known(s) && (step.SampleRead? || step.ReadFailed?)
    ensures Known(P.AfterCycle(s, P.CycleOf(s, step)))
  {
    var c := P.CycleOf(s, step);
    CycleIds(s, step);
    CycleRemaining(s, step);
    var fixed, lost := P.JobEvents(s) + P.QueuedEvents(s.queue), P.LostEvents(s, c);
    BelowAfterCut(fixed, s.monitor.pendingEvents, c.events, lost, s.monitor.engine.nextId, c.next.engine.nextId);
  }

  lemma BelowAfterCut(fixed: seq<Incident>, pending: seq<Incident>, added: seq<Incident>, lost: nat, lo: nat, hi: nat)
    requires AllBelow(fixed + pending, lo) && AllBelow(added, hi) && lo <= hi && lost <= |pending + added|
    ensures AllBelow(fixed + (pending + added)[lost..], hi)
  {
    assert forall i :: 0 <= i < |fixed| ==> (fixed + pending)[i] == fixed[i];
    assert forall i :: 0 <= i < |pending| ==> (fixed + pending)[|fixed| + i] == pending[i];
  }

  lemma ReceiveRemaining(s: P.System, choose: Chooser)
    requires s.job.None? && s.queue != []
    ensures P.Remaining(P.Next(s, P.Receive, choose)) == P.Remaining(s)
  {
    P.QueuedHead(s.queue);
  }

  /** What is on its way, with the batch in work at the front. */
  lemma RemainingWithJob(s: P.System, b: Batch, rest: seq<Incident>)
    requires s.job == Some(b) && rest == P.QueuedEvents(s.queue) + s.monitor.pendingEvents
    ensures P.Remaining(s) == b.events + rest
  {}

  /** A transaction leaves on its way what was, or all but the completed batch. */
  lemma CommittedRemaining(s: P.System, b: Batch, rest: seq<Incident>, choose: Chooser)
    requires s.job == Some(b) && rest == P.QueuedEvents(s.queue) + s.monitor.pendingEvents
    ensures var after := P.Committed(s, b, choose);
            && after.monitor == s.monitor
            && P.Remaining(after) == if after.job.None? then rest else b.events + rest
  {
    var after := P.Committed(s, b, choose);
    if after.job.Some? {
      RemainingWithJob(after, b, rest);
    } else {
      assert P.Remaining(after) == rest;
    }
  }

  lemma BelowParts(a: seq<Incident>, b: seq<Incident>, bound: nat)
    requires AllBelow(a + b, bound)
    ensures AllBelow(a, bound) && AllBelow(b, bound)
  {
    assert forall i :: 0 <= i < |a| ==> (a + b)[i] == a[i];
    assert forall i :: 0 <= i < |b| ==> (a + b)[|a| + i] == b[i];
  }

  lemma CommitKnown(s: P.System, b: Batch, choose: Chooser)
    requires Known(s) && s.job == Some(b)
    ensures Known(P.Committed(s, b, choose))
  {
    var rest := P.QueuedEvents(s.queue) + s.monitor.pendingEvents;
    RemainingWithJob(s, b, rest);
    BelowParts(b.events, rest, s.monitor.engine.nextId);
    CommittedRemaining(s, b, rest, choose);
    CommittedTableKnown(s, b, choose);
  }

  lemma CommittedTableKnown(s: P.System, b: Batch, choose: Chooser)
    requires TableKnown(s.store.incidents, s.monitor.engine.nextId) && s.job == Some(b) && P.Working(s)
    requires AllBelow(b.events, s.monitor.engine.nextId)
    ensures TableKnown(P.Committed(s, b, choose).store.incidents, s.monitor.engine.nextId)
    ensures P.Working(P.Committed(s, b, choose))
  {
    CommitKeepsKnown(s.store.incidents, b, s.done, s.store, choose, s.monitor.engine.nextId);
  }

  lemma StepKnown(s: P.System, step: P.Step, choose: Chooser)
    requires Known(s)
    ensures Known(P.Next(s, step, choose))
    ensures s.monitor.engine.nextId <= P.Next(s, step, choose).monitor.engine.nextId
  {
    var after := P.Next(s, step, choose);
    match step
    case SampleRead(_, _, _) =>
      CycleKnown(s, step);
      CycleIds(s, step);
    case ReadFailed(_) =>
      CycleKnown(s, step);
      CycleIds(s, step);
    case DeviceReopened(_) => assert P.Remaining(after) == P.Remaining(s);
    case Receive => if s.job.None? && s.queue != [] { ReceiveRemaining(s, choose); }
    case StorageMoves(move) => MoveKnown(s, move, choose);
    case Acknowledged(id, at) =>
      AcknowledgeOpensNothing(s.store.incidents, id, at);
      assert P.Remaining(after) == P.Remaining(s);
    case Restarted(restored, _) =>
      if Restores(restored, s.store.incidents) {
        assert P.Remaining(after) == [];
      }
  }

  lemma MoveKnown(s: P.System, move: P.Move, choose: Chooser)
    requires Known(s)
    ensures Known(P.Moved(s, move, choose))
  {
    if s.job.Some? {
      if move.CommitNext? {
        CommitKnown(s, s.job.value, choose);
      } else {
        assert P.Remaining(P.Moved(s, move, choose)) == P.Remaining(s);
      }
    }
  }

  lemma {:induction false} RunKnown(s: P.System, steps: seq<P.Step>, choose: Chooser)
    requires Known(s)
    ensures Known(P.Run(s, steps, choose))
  {
    if steps == [] {
    } else {
      RunKnown(s, steps[..|steps| - 1], choose);
      StepKnown(P.Run(s, steps[..|steps| - 1], choose), steps[|steps| - 1], choose);
    }
  }

  /** A process that starts on a table whose identifiers are all spent. */
  ghost predicate AnyStart(s: P.System) { P.JustStarted(s) && TableKnown(s.store.incidents, s.monitor.engine.nextId) }

  // ---------------------------------------------------------------- the snapshot that the notifier polls

  /** The snapshot lists the active incidents once each, in the order of their kinds. */
  ghost predicate Publishes(alerts: seq<N.Alert>, active: map<Kind, Incident>, kinds: seq<Kind>, name: nat -> string) {
    && Distinct(kinds) && (forall k :: k in kinds <==> k in active)
    && |alerts| == |kinds|
    && (forall i :: 0 <= i < |kinds| ==>
          && alerts[i].id == Some(name(active[kinds[i]].id))
          && alerts[i].acknowledged == active[kinds[i]].acknowledgedAtMs.Some?
          && alerts[i].critical == (kinds[i].Hardware? || kinds[i].Safeguard?))
  }

  ghost predicate Injective(name: nat -> string) { forall i, j :: name(i) == name(j) ==> i == j }

  /** Over every run, drops, tangled batches and restarts included, each snapshot lists an incident at most once. */
  lemma SnapshotsHaveDistinctIds(s: P.System, steps: seq<P.Step>, choose: Chooser,
                                 alerts: seq<N.Alert>, kinds: seq<Kind>, name: nat -> string)
    requires AnyStart(s) && Injective(name)
    requires Publishes(alerts, P.Run(s, steps, choose).monitor.engine.active, kinds, name)
    ensures N.DistinctIds(alerts)
  {
    RunKnown(s, steps, choose);
    PublishedIdsDistinct(P.Run(s, steps, choose).monitor.engine.active,
                         P.Run(s, steps, choose).monitor.engine.nextId, alerts, kinds, name);
  }

  lemma PublishedIdsDistinct(active: map<Kind, Incident>, supply: nat, alerts: seq<N.Alert>, kinds: seq<Kind>,
                             name: nat -> string)
    requires DistinctBelow(active, supply) && Injective(name) && Publishes(alerts, active, kinds, name)
    ensures N.DistinctIds(alerts)
  {
    forall i, j | 0 <= i < j < |alerts|
      ensures alerts[i].id != alerts[j].id
    {
      assert kinds[i] in kinds && kinds[j] in kinds;
    }
  }

  // ---------------------------------------------------------------- rows that a restart leaves behind

  /** An open row that neither the engine nor anything on its way refers to. */
  ghost predicate Orphan(s: P.System, id: nat) {
    && id in s.store.incidents && s.store.incidents[id].endMs.None?
    && (forall k :: k in s.monitor.engine.active ==> s.monitor.engine.active[k].id != id)
    && !Mentions(P.Remaining(s), id)
  }

  /** Events speak only of active incidents and of new ones. */
  lemma {:induction false} EventsSpareOthers(active: map<Kind, Incident>, es: seq<Incident>, lo: nat, hi: nat, id: nat)
    requires DistinctBelow(active, lo) && AlertRuns.Alternates(active, es) && FreshRaises(es, lo, hi) && id < lo
    requires forall k :: k in active ==> active[k].id != id
    ensures !Mentions(es, id) && forall k :: k in Replay(active, es) ==> Replay(active, es)[k].id != id
  {
    if es == [] {
    } else {
      var before, e := es[..|es| - 1], es[|es| - 1];
      FreshInit(es, lo, hi);
      EventsSpareOthers(active, before, lo, TopBefore(e, hi), id);
      assert e.id != id;
      assert es == before + [e];
      assert forall i :: 0 <= i < |before| ==> es[i] == before[i];
      assert forall i :: 0 <= i < |before| ==> before[i].id != id;
    }
  }

  lemma CycleSpares(s: P.System, step: P.Step, id: nat)
    requires Known(s) && Orphan(s, id) && (step.SampleRead? || step.ReadFailed?)
    ensures Orphan(P.AfterCycle(s, P.CycleOf(s, step)), id)
  {
    var c := P.CycleOf(s, step);
    CycleEventsSpare(s, step, id);
    CycleRemaining(s, step);
    UnmentionedAfterCut(P.JobEvents(s) + P.QueuedEvents(s.queue), s.monitor.pendingEvents, c.events,
      P.LostEvents(s, c), id);
  }

  lemma CycleEventsSpare(s: P.System, step: P.Step, id: nat)
    requires Known(s) && Orphan(s, id) && (step.SampleRead? || step.ReadFailed?)
    ensures var c := P.CycleOf(s, step);
            !Mentions(c.events, id) && forall k :: k in c.next.engine.active ==> c.next.engine.active[k].id != id
  {
    var e, x, quiet := CycleSteps(s, step);
    if !quiet {
      StepExplained(e, x);
      StepIsFresh(e, x);
      forall k | k in e.active
        ensures e.active[k].id != id
      {
        InOpenOf(e.active, (k, e.active[k].id));
        InOpenOf(s.monitor.engine.active, (k, e.active[k].id));
      }
      EventsSpareOthers(e.active, P.CycleOf(s, step).events, e.nextId, P.CycleOf(s, step).next.engine.nextId, id);
    }
  }

  lemma UnmentionedAfterCut(fixed: seq<Incident>, pending: seq<Incident>, added: seq<Incident>, lost: nat, id: nat)
    requires !Mentions(fixed + pending, id) && !Mentions(added, id) && lost <= |pending + added|
    ensures !Mentions(fixed + (pending + added)[lost..], id)
  {
    MentionsIn(fixed, pending, id);
    MentionsIn(pending, added, id);
    MentionsIn(fixed, (pending + added)[lost..], id);
    assert forall i :: lost <= i < |pending + added| ==> (pending + added)[i].id != id;
  }

  lemma CommitSpares(s: P.System, b: Batch, choose: Chooser, id: nat)
    requires Known(s) && Orphan(s, id) && s.job == Some(b)
    ensures Orphan(P.Committed(s, b, choose), id)
  {
    var rest := P.QueuedEvents(s.queue) + s.monitor.pendingEvents;
    RemainingWithJob(s, b, rest);
    MentionsIn(b.events, rest, id);
    CommittedRemaining(s, b, rest, choose);
    CommitSparesRow(s, b, choose, id);
  }

  lemma CommitSparesRow(s: P.System, b: Batch, choose: Chooser, id: nat)
    requires s.job == Some(b) && P.Working(s) && !Mentions(b.events, id)
    requires id in s.store.incidents && s.store.incidents[id].endMs.None?
    ensures var table := P.Committed(s, b, choose).store.incidents; id in table && table[id].endMs.None?
  {
    TransactionLayout(b);
    if 1 <= s.done <= |b.events| { assert b.events[s.done - 1].id != id; }
  }

  lemma StepSpares(s: P.System, step: P.Step, choose: Chooser, id: nat)
    requires Known(s) && Orphan(s, id) && !step.Restarted?
    ensures Orphan(P.Next(s, step, choose), id)
  {
    var after := P.Next(s, step, choose);
    match step
    case SampleRead(_, _, _) => CycleSpares(s, step, id);
    case ReadFailed(_) => CycleSpares(s, step, id);
    case DeviceReopened(_) => assert P.Remaining(after) == P.Remaining(s);
    case Receive => if s.job.None? && s.queue != [] { ReceiveRemaining(s, choose); }
    case StorageMoves(move) =>
      if s.job.Some? {
        if move.CommitNext? {
          CommitSpares(s, s.job.value, choose, id);
        } else {
          assert P.Remaining(after) == P.Remaining(s);
        }
      }
    case Acknowledged(_, _) => assert P.Remaining(after) == P.Remaining(s);
  }

  /** Until the next restart an orphaned row stays open, and table and engine never agree again. */
  lemma {:induction false} OrphanStaysOpen(s: P.System, steps: seq<P.Step>, choose: Chooser, id: nat)
    requires Known(s) && Orphan(s, id)
    requires forall i :: 0 <= i < |steps| ==> !steps[i].Restarted?
    ensures var end := P.Run(s, steps, choose);
            Known(end) && Orphan(end, id) && OpenIn(end.store.incidents) != OpenOf(end.monitor.engine.active)
  {
    if steps == [] {
    } else {
      var before := steps[..|steps| - 1];
      OrphanStaysOpen(s, before, choose, id);
      StepKnown(P.Run(s, before, choose), steps[|steps| - 1], choose);
      StepSpares(P.Run(s, before, choose), steps[|steps| - 1], choose, id);
    }
    OrphanDisagrees(P.Run(s, steps, choose), id);
  }

  lemma OrphanDisagrees(s: P.System, id: nat)
    requires Orphan(s, id)
    ensures OpenIn(s.store.incidents) != OpenOf(s.monitor.engine.active)
  {
    var x := (s.store.incidents[id].json.kind, id);
    InOpenIn(s.store.incidents, x);
    InOpenOf(s.monitor.engine.active, x);
  }

  /** A restart that finds two open rows of one kind orphans one of them. */
  lemma UncleanRestartOrphans(s: P.System, step: P.Step, choose: Chooser, p: nat, q: nat) returns (id: nat)
    requires Known(s) && step.Restarted? && Restores(step.restored, s.store.incidents)
    requires p != q && {p, q} <= OpenRowIds(s.store.incidents)
    requires s.store.incidents[p].json.kind == s.store.incidents[q].json.kind
    ensures id in {p, q} && Orphan(P.Next(s, step, choose), id)
  {
    var table := s.store.incidents;
    id := LeftOut(step.restored, table, p, q);
    assert P.Remaining(P.Next(s, step, choose)) == [];
  }

  /** Of two open rows of one kind at most one is restored. */
  lemma LeftOut(restored: map<Kind, Incident>, table: IncidentTable, p: nat, q: nat) returns (id: nat)
    requires Restores(restored, table) && TableSound(table) && p != q && p in table && q in table
    requires table[p].json.kind == table[q].json.kind
    ensures id in {p, q} && forall k :: k in restored ==> restored[k].id != id
  {
    var kind := table[p].json.kind;
    id := if kind in restored && restored[kind].id == p then q else p;
    assert forall k :: k in restored ==> restored[k].id != id;
  }

}
