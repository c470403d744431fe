/** The two threads and the database as one state machine, and what no interleaving can break. */
module Pipeline {
  import opened Wrappers
  import opened Telemetry
  import opened Subsequences
  import opened Alerts
  import opened Storage
  import opened Monitoring
  import opened OpenRows

  const STORAGE_QUEUE_SIZE := 16

  /**
   * The monitor, the bounded queue, the batch that storage is working on with the number of its transactions committed
   * in the current attempt, and the tables. The remaining fields record what has happened in this process: everything
   * emitted, everything in completed batches, the open rows when the current batch was received, and how many events
   * each attempt at it has written.
   */
  datatype System = System(
    monitor: Monitor,
    queue: seq<Batch>,
    job: Option<Batch>,
    done: nat,
    store: Store,
    emitted: seq<Incident>,
    applied: seq<Incident>,
    emittedExhibits: seq<Exhibit>,
    appliedExhibits: seq<Exhibit>,
    origin: OpenSet,
    attempts: seq<nat>)

  /** The storage thread commits its next transaction, or its attempt fails and starts over. */
  datatype Move = CommitNext | AttemptFails

  datatype Step =
    | SampleRead(raw: Sample, policy: Policy, acks: map<nat, Option<int>>)
    | ReadFailed(at: int)
    | DeviceReopened(session: string)
    | Receive
    | StorageMoves(move: Move)
    | Acknowledged(id: nat, at: int)
    | Restarted(restored: map<Kind, Incident>, session: string)

  predicate Full(s: System) { |s.queue| >= STORAGE_QUEUE_SIZE }

  function AfterCycle(s: System, c: Cycle): System {
    s.(monitor := c.next,
       queue := if c.sent.Some? then s.queue + [c.sent.value] else s.queue,
       emitted := s.emitted + c.events,
       emittedExhibits := s.emittedExhibits + c.exhibits)
  }

  function CycleOf(s: System, step: Step): Cycle
    requires step.SampleRead? || step.ReadFailed?
  {
    match step
    case SampleRead(raw, policy, acks) => SampleCycle(s.monitor, raw, policy, acks, Full(s))
    case ReadFailed(at) => LostCycle(s.monitor, at, Full(s))
  }

  ghost function Next(s: System, step: Step, choose: Chooser): System {
    match step
    case SampleRead(_, _, _) => AfterCycle(s, CycleOf(s, step))
    case ReadFailed(_) => AfterCycle(s, CycleOf(s, step))
    case DeviceReopened(session) => s.(monitor := Reopen(s.monitor, session))
    case Receive =>
      if s.job.Some? || s.queue == [] then s else
        s.(job := Some(s.queue[0]), done := 0, queue := s.queue[1..], origin := OpenIn(s.store.incidents),
          attempts := [0])
    case StorageMoves(move) => Moved(s, move, choose)
    case Acknowledged(id, at) => s.(store := AcknowledgeIn(s.store, id, at))
    case Restarted(restored, session) =>
      if !Restores(restored, s.store.incidents) then s else
        System(Boot(restored, s.monitor.engine.nextId, session), [], None, 0,
               s.store.(books := s.store.books.(previous := None)), [], [], [], [], {}, [])
  }

  function Committed(s: System, b: Batch, choose: Chooser): System {
    var xs := Transactions(b);
    if s.done >= |xs| || !CanCommit(xs[s.done]) then s else
      var store := Commit(s.store, xs[s.done], choose);
      if s.done + 1 == |xs| then
        s.(store := store, job := None, done := 0, applied := s.applied + b.events,
           appliedExhibits := s.appliedExhibits + b.exhibits)
      else
        s.(store := store, done := s.done + 1,
           attempts := if s.attempts == [] then [] else s.attempts[|s.attempts| - 1 := EventsDone(b, s.done + 1)])
  }

  function Moved(s: System, move: Move, choose: Chooser): System {
    if s.job.None? then s
    else if move.CommitNext? then Committed(s, s.job.value, choose)
    else s.(done := 0, attempts := s.attempts + [0])
  }

  function MovedAll(s: System, moves: seq<Move>, choose: Chooser): System {
    if moves == [] then s else Moved(MovedAll(s, moves[..|moves| - 1], choose), moves[|moves| - 1], choose)
  }

  ghost function Run(s: System, steps: seq<Step>, choose: Chooser): System {
    if steps == [] then s else Next(Run(s, steps[..|steps| - 1], choose), steps[|steps| - 1], choose)
  }

  // ---------------------------------------------------------------- what is still on its way

  function QueuedEvents(q: seq<Batch>): seq<Incident> {
    if q == [] then [] else QueuedEvents(q[..|q| - 1]) + q[|q| - 1].events
  }

  function QueuedExhibits(q: seq<Batch>): seq<Exhibit> {
    if q == [] then [] else QueuedExhibits(q[..|q| - 1]) + q[|q| - 1].exhibits
  }

  function JobEvents(s: System): seq<Incident> { if s.job.Some? then s.job.value.events else [] }

  function JobExhibits(s: System): seq<Exhibit> { if s.job.Some? then s.job.value.exhibits else [] }

  /** Updates in flight, queued and pending, in order. */
  function Remaining(s: System): seq<Incident> { JobEvents(s) + QueuedEvents(s.queue) + s.monitor.pendingEvents }

  function RemainingExhibits(s: System): seq<Exhibit> {
    JobExhibits(s) + QueuedExhibits(s.queue) + s.monitor.pendingExhibits
  }

  lemma {:induction false} QueuedHead(q: seq<Batch>)
    requires q != []
    ensures QueuedEvents(q) == q[0].events + QueuedEvents(q[1..])
    ensures QueuedExhibits(q) == q[0].exhibits + QueuedExhibits(q[1..])
  {
    if |q| > 1 {
      var before, middle, b := q[..|q| - 1], q[1..|q| - 1], q[|q| - 1];
      QueuedHead(before);
      assert before[1..] == middle && q[1..] == middle + [b];
      QueuedSnoc(middle, b);
      Regroup(q[0].events, QueuedEvents(middle), b.events);
      Regroup(q[0].exhibits, QueuedExhibits(middle), b.exhibits);
    } else {
      assert q[..0] == [] && q[1..] == [];
    }
  }

  lemma Regroup<T>(a: seq<T>, b: seq<T>, c: seq<T>)
    ensures a + b + c == a + (b + c)
  {}

  lemma QueuedSnoc(q: seq<Batch>, b: Batch)
    ensures QueuedEvents(q + [b]) == QueuedEvents(q) + b.events
    ensures QueuedExhibits(q + [b]) == QueuedExhibits(q) + b.exhibits
  {
    assert (q + [b])[..|q|] == q;
  }

  // ---------------------------------------------------------------- conservation with accounted loss

  /** What was applied or is on its way is an in-order subsequence of the log, short by the counted losses. */
  ghost predicate Kept<T>(applied: seq<T>, job: seq<T>, queued: seq<T>, pending: seq<T>, log: seq<T>, lost: nat) {
    var held := applied + job + queued + pending;
    Subseq(held, log) && |held| + lost == |log|
  }

  ghost predicate Conserved(s: System) {
    && Kept(s.applied, JobEvents(s), QueuedEvents(s.queue), s.monitor.pendingEvents, s.emitted, s.monitor.droppedEvents)
    && Kept(s.appliedExhibits, JobExhibits(s), QueuedExhibits(s.queue), s.monitor.pendingExhibits, s.emittedExhibits,
            s.monitor.droppedExhibits)
  }

  /** The backlog stays bounded; a monitoring incident can add one update until the next sample. */
  ghost predicate Bounded(s: System) {
    && |s.queue| <= STORAGE_QUEUE_SIZE
    && |s.monitor.pendingEvents| <= MAX_PENDING_EVENTS + (if Monitoring in s.monitor.engine.active then 1 else 0)
  }

  ghost predicate Working(s: System) { s.job.Some? ==> s.done < |Transactions(s.job.value)| }

  /** Appending to the end and losing some of the tail's oldest, wherever the tail then goes. */
  lemma KeptAppend<T>(applied: seq<T>, job: seq<T>, queued: seq<T>, pending: seq<T>, log: seq<T>, lost: nat,
                      added: seq<T>, cut: nat)
    requires Kept(applied, job, queued, pending, log, lost) && cut <= |pending + added|
    ensures Kept(applied, job, queued, (pending + added)[cut..], log + added, lost + cut)
    ensures Kept(applied, job, queued + (pending + added)[cut..], [], log + added, lost + cut)
  {
    var fixed, tail := applied + job + queued, pending + added;
    SubseqExtend(fixed + pending, log, added);
    assert fixed + pending + added == fixed + tail[..cut] + tail[cut..];
    SubseqCut(fixed, tail[..cut], tail[cut..], log + added);
    assert applied + job + (queued + tail[cut..]) + [] == fixed + tail[cut..];
  }

  lemma KeptReceive<T>(applied: seq<T>, queued: seq<T>, pending: seq<T>, log: seq<T>, lost: nat, head: seq<T>,
      rest: seq<T>)
    requires Kept(applied, [], queued, pending, log, lost) && queued == head + rest
    ensures Kept(applied, head, rest, pending, log, lost)
  {
    assert applied + [] + queued + pending == applied + head + rest + pending;
  }

  lemma KeptComplete<T>(applied: seq<T>, job: seq<T>, queued: seq<T>, pending: seq<T>, log: seq<T>, lost: nat)
    requires Kept(applied, job, queued, pending, log, lost)
    ensures Kept(applied + job, [], queued, pending, log, lost)
  {
    assert applied + job + [] == applied + job;
  }

  /** How many of the oldest pending updates and readings a cycle gives up. */
  function LostEvents(s: System, c: Cycle): int { c.next.droppedEvents - s.monitor.droppedEvents }

  function LostExhibits(s: System, c: Cycle): int { c.next.droppedExhibits - s.monitor.droppedExhibits }

  /** A cycle hands over, or keeps, the whole backlog with what it emitted, less the counted losses at the front. */
  ghost predicate MovesBacklog(s: System, c: Cycle) {
    var m, e, x := s.monitor, LostEvents(s, c), LostExhibits(s, c);
    && 0 <= e <= |m.pendingEvents + c.events| && 0 <= x <= |m.pendingExhibits + c.exhibits|
    && var backlog, evidence := (m.pendingEvents + c.events)[e..], (m.pendingExhibits + c.exhibits)[x..];
       if c.sent.Some? then
         && c.sent.value.events == backlog && c.next.pendingEvents == []
         && c.sent.value.exhibits == evidence && c.next.pendingExhibits == []
       else c.next.pendingEvents == backlog && c.next.pendingExhibits == evidence
  }

  lemma CyclesMoveBacklog(s: System, step: Step)
    requires step.SampleRead? || step.ReadFailed?
    ensures MovesBacklog(s, CycleOf(s, step))
  {}

  lemma BacklogConserves(s: System, c: Cycle)
    requires Conserved(s) && MovesBacklog(s, c)
    ensures Conserved(AfterCycle(s, c))
  {
    var m := s.monitor;
    KeptAppend(s.applied, JobEvents(s), QueuedEvents(s.queue), m.pendingEvents, s.emitted, m.droppedEvents,
               c.events, LostEvents(s, c));
    KeptAppend(s.appliedExhibits, JobExhibits(s), QueuedExhibits(s.queue), m.pendingExhibits, s.emittedExhibits,
               m.droppedExhibits, c.exhibits, LostExhibits(s, c));
    if c.sent.Some? { QueuedSnoc(s.queue, c.sent.value); }
  }

  lemma ReceiveConserves(s: System)
    requires s.job.None? && s.queue != [] && Conserved(s)
    ensures Conserved(s.(job := Some(s.queue[0]), queue := s.queue[1..]))
  {
    QueuedHead(s.queue);
    KeptReceive(s.applied, QueuedEvents(s.queue), s.monitor.pendingEvents, s.emitted, s.monitor.droppedEvents,
                s.queue[0].events, QueuedEvents(s.queue[1..]));
    KeptReceive(s.appliedExhibits, QueuedExhibits(s.queue), s.monitor.pendingExhibits, s.emittedExhibits,
                s.monitor.droppedExhibits, s.queue[0].exhibits, QueuedExhibits(s.queue[1..]));
  }

  lemma CompletionConserves(s: System, b: Batch)
    requires s.job == Some(b) && Conserved(s)
    ensures Conserved(s.(job := None, applied := s.applied + b.events,
                         appliedExhibits := s.appliedExhibits + b.exhibits))
  {
    KeptComplete(s.applied, b.events, QueuedEvents(s.queue), s.monitor.pendingEvents, s.emitted,
      s.monitor.droppedEvents);
    KeptComplete(s.appliedExhibits, b.exhibits, QueuedExhibits(s.queue), s.monitor.pendingExhibits, s.emittedExhibits,
                 s.monitor.droppedExhibits);
  }

  ghost predicate Accounted(s: System) { Conserved(s) && Bounded(s) && Working(s) }

  lemma CycleAccounts(s: System, step: Step)
    requires Accounted(s) && (step.SampleRead? || step.ReadFailed?)
    ensures Accounted(AfterCycle(s, CycleOf(s, step)))
  {
    CyclesMoveBacklog(s, step);
    BacklogConserves(s, CycleOf(s, step));
  }

  lemma CommitAccounts(s: System, b: Batch, choose: Chooser)
    requires Accounted(s) && s.job == Some(b)
    ensures Accounted(Committed(s, b, choose))
  {
    CompletionConserves(s, b);
  }

  lemma StepAccounts(s: System, step: Step, choose: Chooser)
    requires Accounted(s)
    ensures Accounted(Next(s, step, choose))
  {
    match step
    case SampleRead(_, _, _) => CycleAccounts(s, step);
    case ReadFailed(_) => CycleAccounts(s, step);
    case Receive => if s.job.None? && s.queue != [] { ReceiveConserves(s); }
    case StorageMoves(_) => if s.job.Some? { CommitAccounts(s, s.job.value, choose); }
    case _ =>
  }

  /** A process just started, with nothing on its way. */
  ghost predicate JustStarted(s: System) {
    && (exists restored, freshId, session ::
          s.monitor == Boot(restored, freshId, session) && Restores(restored, s.store.incidents))
    && s.queue == [] && s.job.None? && s.done == 0
    && s.emitted == [] && s.applied == [] && s.emittedExhibits == [] && s.appliedExhibits == []
  }

  /**
   * Over every interleaving, restarts included: the updates and readings applied, in flight, queued and pending are an
   * in-order subsequence of all that this process emitted, short by exactly the loss counters, and the backlog is
   * bounded.
   */
  lemma {:induction false} LossIsAccounted(s: System, steps: seq<Step>, choose: Chooser)
    requires JustStarted(s)
    ensures Accounted(Run(s, steps, choose))
  {
    if steps == [] {
    } else {
      LossIsAccounted(s, steps[..|steps| - 1], choose);
      StepAccounts(Run(s, steps[..|steps| - 1], choose), steps[|steps| - 1], choose);
    }
  }

  // ---------------------------------------------------------------- what storage has taken is in the tables

  ghost predicate HasExhibits(table: EvidenceTable, xs: seq<Exhibit>) {
    forall i :: 0 <= i < |xs| ==> ExhibitKey(xs[i]) in table
  }

  ghost predicate HasRows(table: IncidentTable, events: seq<Incident>) {
    forall i :: 0 <= i < |events| ==> events[i].id in table
  }

  /** What the first n transactions of the batch carry is in the tables. */
  ghost predicate HasPart(t: Store, b: Batch, n: nat) {
    && HasRows(t.incidents, b.events[..EventsDone(b, n)])
    && HasExhibits(t.evidence, b.exhibits[..ExhibitsDone(b, n)])
  }

  /** Everything in completed batches is in the tables, and so is what the current attempt has committed. */
  ghost predicate InTables(s: System) {
    && HasExhibits(s.store.evidence, s.appliedExhibits) && HasRows(s.store.incidents, s.applied)
    && (s.job.Some? ==> HasPart(s.store, s.job.value, s.done))
  }

  /** A transaction takes no evidence and no incident row away, and adds what it carries. */
  lemma CommitAdds(t: Store, x: Transaction, choose: Chooser)
    ensures var u := Commit(t, x, choose);
            && t.incidents.Keys <= u.incidents.Keys && t.evidence.Keys <= u.evidence.Keys
            && (x.SaveIncident? ==> x.incident.id in u.incidents)
            && (x.SaveExhibit? ==> ExhibitKey(x.exhibit) in u.evidence)
  {}

  lemma CommitExtendsPart(t: Store, b: Batch, n: nat, choose: Chooser)
    requires HasPart(t, b, n) && n < |Transactions(b)|
    ensures HasPart(Commit(t, Transactions(b)[n], choose), b, n + 1)
  {
    CommitAdds(t, Transactions(b)[n], choose);
    TransactionLayout(b);
    assert EventsDone(b, n + 1) > EventsDone(b, n) ==> Transactions(b)[n] == SaveIncident(b.events[n - 1]);
    assert ExhibitsDone(b, n + 1) > ExhibitsDone(b, n) ==>
             Transactions(b)[n] == SaveExhibit(b.exhibits[n - 1 - |b.events|]);
  }

  lemma CommitFiles(s: System, b: Batch, choose: Chooser)
    requires InTables(s) && s.job == Some(b) && s.done < |Transactions(b)|
    ensures InTables(Committed(s, b, choose))
  {
    CommitAdds(s.store, Transactions(b)[s.done], choose);
    CommitExtendsPart(s.store, b, s.done, choose);
    if s.done + 1 == |Transactions(b)| {
      BatchLength(b);
      assert b.events[..|b.events|] == b.events && b.exhibits[..|b.exhibits|] == b.exhibits;
    }
  }

  lemma StepFiles(s: System, step: Step, choose: Chooser)
    requires InTables(s) && Working(s)
    ensures InTables(Next(s, step, choose))
  {
    if step.StorageMoves? && s.job.Some? {
      CommitFiles(s, s.job.value, choose);
    } else if step.Acknowledged? {
      assert AcknowledgeIn(s.store, step.id, step.at).incidents.Keys == s.store.incidents.Keys;
    }
  }

  /** Over every interleaving, restarts included, the tables miss no update and no reading of a completed batch. */
  lemma {:induction false} AppliedIsStored(s: System, steps: seq<Step>, choose: Chooser)
    requires JustStarted(s)
    ensures InTables(Run(s, steps, choose))
  {
    if steps == [] {
    } else {
      AppliedIsStored(s, steps[..|steps| - 1], choose);
      LossIsAccounted(s, steps[..|steps| - 1], choose);
      StepFiles(Run(s, steps[..|steps| - 1], choose), steps[|steps| - 1], choose);
    }
  }

  // ---------------------------------------------------------------- the evidence backlog

  /** The length of the ring that the last loss of monitoring filed. */
  ghost function LossRing(s: System, steps: seq<Step>, choose: Chooser): nat {
    if steps == [] then 0 else
      var before, step := steps[..|steps| - 1], steps[|steps| - 1];
      var m := Run(s, before, choose).monitor;
      if step.ReadFailed? && m.telemetry.Some? && Monitoring !in m.engine.active then |m.ring|
        else LossRing(s, before, choose)
  }

  /** At most 2048 readings are pending, and with monitoring lost at most the ring filed at the loss more. */
  ghost predicate EvidenceBounded(m: Monitor, ring: nat) {
    |m.pendingExhibits| <= MAX_PENDING_EVIDENCE + (if Monitoring in m.engine.active then ring else 0)
  }

  lemma {:induction false} EvidenceIsBounded(s: System, steps: seq<Step>, choose: Chooser)
    requires JustStarted(s)
    ensures EvidenceBounded(Run(s, steps, choose).monitor, LossRing(s, steps, choose))
  {
    if steps == [] {
    } else {
      var before, step := steps[..|steps| - 1], steps[|steps| - 1];
      EvidenceIsBounded(s, before, choose);
      StepBoundsEvidence(Run(s, before, choose), step, choose, LossRing(s, before, choose), LossRing(s, steps, choose));
    }
  }

  lemma StepBoundsEvidence(s: System, step: Step, choose: Chooser, prior: nat, next: nat)
    requires EvidenceBounded(s.monitor, prior)
    requires next == if step.ReadFailed? && s.monitor.telemetry.Some? && Monitoring !in s.monitor.engine.active
                     then |s.monitor.ring| else prior
    ensures EvidenceBounded(Next(s, step, choose).monitor, next)
  {
    match step
    case SampleRead(_, _, _) => ReadBoundsEvidence(s, step);
    case ReadFailed(at) => LossAddsRing(s.monitor, at, Full(s));
    case _ =>
  }

  /** Each reading brings the evidence backlog back within its limit. */
  lemma ReadBoundsEvidence(s: System, step: Step)
    requires step.SampleRead?
    ensures |CycleOf(s, step).next.pendingExhibits| <= MAX_PENDING_EVIDENCE
  {}

  lemma LossAddsRing(m: Monitor, at: int, full: bool)
    ensures var next := LostCycle(m, at, full).next;
            && |next.pendingExhibits| <= |m.pendingExhibits| +
                 (if m.telemetry.Some? && Monitoring !in m.engine.active then |m.ring| else 0)
            && (Monitoring in next.engine.active <==> Monitoring in m.engine.active || m.telemetry.Some?)
  {
    if m.telemetry.Some? {
      var events := MonitoringLost(m.engine, m.telemetry.value, at).1;
      if events != [] {
        assert events[..0] == [];
        assert PreTrigger(m.ring, events) == PreTrigger(m.ring, events[..0]) + FileUnder(events[0].id, m.ring);
      }
    }
  }
}
