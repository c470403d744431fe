/** A run that the daemon can take, without any dropped update, that leaves two open incident rows of one kind. */
module Tangles {
  import opened Wrappers
  import opened Telemetry
  import opened Measurements
  import opened Alerts
  import opened AlertRuns
  import opened Ledger
  import opened Storage
  import opened Restart
  import opened Monitoring
  import opened OpenRows
  import P = Pipeline
  import opened Agreement

  const DEFAULT_POLICY := Policy(true, 6000, 40, 20, 500, 3000, 5000)

  /** A reading of a TS unit without load or alarm, every group read. */
  ghost predicate Healthy(t: Sample) {
    && |t.connectors| == 2 && (forall i :: 0 <= i < 2 ==> Sum(t.connectors[i]) == 0)
    && |t.alertsRaw| == ALARMS && (forall i :: 0 <= i < ALARMS ==> t.alertsRaw[i] == 0)
    && |t.safeguards| == 2 && (forall i :: 0 <= i < 2 ==> t.safeguards[i] == 0)
    && t.groupErrors == []
  }

  lemma HealthyReading(at: nat) returns (t: Sample)
    ensures Healthy(t) && t.monotonicMs == at && t.capturedMs == at
  {
    var idle: Conductors := [0, 0, 0, 0, 0, 0];
    SumOfSix(idle);
    t := Sample("psu", "", 0, at, at, 0, 0, [idle, idle], seq(ALARMS, i => 0), [0, 0], []);
  }

  const COMMIT := P.StorageMoves(P.CommitNext)

  // ---------------------------------------------------------------- runs

  /** The system, the clock of the last reading, and whether the device is open. */
  datatype Scene = Scene(system: P.System, clock: nat, connected: bool)

  /** Healthy readings come from an open device with the clock advancing; after a failed one it is opened anew. */
  ghost predicate Physical(c: Scene, step: P.Step) {
    match step
    case SampleRead(raw, _, _) => c.connected && c.clock < raw.monotonicMs && Healthy(raw)
    case ReadFailed(_) => c.connected
    case DeviceReopened(session) => !c.connected && session != c.system.monitor.session
    case _ => true
  }

  ghost function After(c: Scene, step: P.Step, choose: Chooser): Scene {
    Scene(P.Next(c.system, step, choose),
          if step.SampleRead? then step.raw.monotonicMs else c.clock,
          if step.ReadFailed? then false else if step.DeviceReopened? || step.Restarted? then true else c.connected)
  }

  ghost function Play(c: Scene, steps: seq<P.Step>, choose: Chooser): Scene {
    if steps == [] then c else After(Play(c, steps[..|steps| - 1], choose), steps[|steps| - 1], choose)
  }

  ghost predicate Legal(c: Scene, steps: seq<P.Step>, choose: Chooser) {
    steps == [] ||
    var before, step := steps[..|steps| - 1], steps[|steps| - 1];
    && Legal(c, before, choose)
    && Orderly(Play(c, before, choose).system, step) && Physical(Play(c, before, choose), step)
  }

  /** The steps lead from c to d, dropping nothing, as the daemon can take them. */
  ghost predicate Gets(c: Scene, steps: seq<P.Step>, d: Scene, choose: Chooser) {
    Legal(c, steps, choose) && Play(c, steps, choose) == d
  }

  lemma GetsOne(c: Scene, step: P.Step, choose: Chooser)
    requires Orderly(c.system, step) && Physical(c, step)
    ensures Gets(c, [step], After(c, step, choose), choose)
  {
    assert [step][..0] == [];
    assert Play(c, [step][..0], choose) == c;
  }

  lemma {:induction false} GetsOn(c: Scene, a: seq<P.Step>, d: Scene, b: seq<P.Step>, e: Scene, choose: Chooser)
    requires Gets(c, a, d, choose) && Gets(d, b, e, choose)
    ensures Gets(c, a + b, e, choose)
  {
    if b == [] {
      assert a + b == a;
    } else {
      assert (a + b)[..|a + b| - 1] == a + b[..|b| - 1];
      GetsOn(c, a, d, b[..|b| - 1], Play(d, b[..|b| - 1], choose), choose);
    }
  }

  /** A legal run of scenes is an orderly run of the system. */
  lemma {:induction false} LegalIsOrderly(c: Scene, steps: seq<P.Step>, choose: Chooser)
    requires Legal(c, steps, choose)
    ensures OrderlyRun(c.system, steps, choose) && P.Run(c.system, steps, choose) == Play(c, steps, choose).system
  {
    if steps == [] {
    } else {
      LegalIsOrderly(c, steps[..|steps| - 1], choose);
    }
  }

  // ---------------------------------------------------------------- cycles of an idle unit

  lemma {:induction false} IdleVisits(e: EngineState, t: Sample, ks: seq<Kind>)
    requires Healthy(t) && e.active == map[]
    requires forall i :: 0 <= i < |ks| ==> Report(t, DEFAULT_POLICY, ks[i]).Some?
    ensures var (after, events) := VisitAll(e, t, DEFAULT_POLICY, ks); after.active == map[] && events == []
  {
    if ks == [] {
    } else {
      IdleVisits(e, t, ks[..|ks| - 1]);
    }
  }

  /** Nothing but monitoring itself is active, no window is open, and the backlog is short. */
  ghost predicate Settled(m: Monitor) {
    && m.engine.active.Keys <= {Kind.Monitoring}
    && m.windows == [] && |m.pendingEvents| < 100 && m.droppedEvents == 0
  }

  lemma IdleObserve(e: EngineState, t: Sample)
    requires Healthy(t) && e.active.Keys <= {Kind.Monitoring}
    ensures var (after, events) := Observe(SyncAcks(e, map[]), t, DEFAULT_POLICY, MAX_GAP_MS);
            after.active == map[] && events == Restored(e, t)
  {
    assert SyncAcks(e, map[]) == e by { assert SyncAcks(e, map[]).active == e.active; }
    KindsAreReported(t, DEFAULT_POLICY);
    IdleVisits(Begin(e, t, MAX_GAP_MS), t, Kinds(t));
  }

  /** The backlog after a healthy reading, which closes the monitoring incident, if any. */
  function BacklogAfter(m: Monitor, raw: Sample): seq<Incident> {
    m.pendingEvents + Restored(m.engine, Stamped(m, raw))
  }

  /** A healthy reading hands over the backlog, or keeps it when the queue is full. */
  ghost predicate IdleCycle(m: Monitor, raw: Sample, full: bool, c: Cycle) {
    && c.next.engine.active == map[] && c.next.windows == [] && c.next.droppedEvents == 0
    && c.next.telemetry.Some? && c.next.sequence == m.sequence + 1
    && (if full then c.sent.None? && c.next.pendingEvents == BacklogAfter(m, raw)
        else c.next.pendingEvents == [] && c.sent.Some? && c.sent.value.events == BacklogAfter(m, raw) &&
             c.sent.value.sample.sequence == m.sequence)
  }

  lemma IdleRead(m: Monitor, raw: Sample, full: bool)
    requires Settled(m) && Healthy(raw)
    ensures IdleCycle(m, raw, full, SampleCycle(m, raw, DEFAULT_POLICY, map[], full))
  {
    var t := Stamped(m, raw);
    var (engine, events) := Observe(SyncAcks(m.engine, map[]), t, DEFAULT_POLICY, MAX_GAP_MS);
    IdleObserve(m.engine, t);
    IdleAbsorb(m.(engine := engine), t, events);
  }

  lemma IdleAbsorb(m: Monitor, t: Sample, events: seq<Incident>)
    requires m.windows == [] && |m.pendingEvents| < 100 && m.droppedEvents == 0
    requires |events| <= 1 && forall i :: 0 <= i < |events| ==> events[i].recoveredAtMs.Some?
    ensures var next := Absorb(m, t, events);
            && next.windows == [] && next.droppedEvents == 0 && next.pendingEvents == m.pendingEvents + events
            && next.engine == m.engine && next.sequence == m.sequence
  {
    RecoveriesOpenNothing(events, t.monotonicMs);
  }

  lemma RecoveriesOpenNothing(events: seq<Incident>, now: nat)
    requires |events| <= 1 && forall i :: 0 <= i < |events| ==> events[i].recoveredAtMs.Some?
    ensures OpenWindows([], events, now) == ([], [])
  {
    if events != [] { assert events[..0] == []; }
  }

  // ---------------------------------------------------------------- steps

  function Reading(raw: Sample): P.Step { P.SampleRead(raw, DEFAULT_POLICY, map[]) }

  function Losing(c: Scene): P.Step { P.ReadFailed(c.clock + 1000) }

  function Reopening(c: Scene): P.Step { P.DeviceReopened(c.system.monitor.session + "+") }

  function FreshScene(): Scene {
    Scene(P.System(Boot(map[], 0, "s"), [], None, 0, Store(NO_BOOKS, map[], map[]), [], [], [], [], {}, []), 0, true)
  }

  lemma FreshIsFirstStart()
    ensures FirstStart(FreshScene().system)
  {
    var none: map<Kind, Incident> := map[];
    var open: set<nat> := {};
    assert OpenRowIds(map[]) == open;
    assert RestoredFrom(none, map[], open);
    assert FreshScene().system.monitor == Boot(none, 0, "s") && Restores(none, FreshScene().system.store.incidents);
    assert OpenIn(map[]) == {};
  }

  /** The unit is read and healthy. */
  ghost predicate Watching(c: Scene) {
    c.connected && Settled(c.system.monitor) && c.system.monitor.engine.active == map[]
  }

  /** A batch without updates, which storage can write. */
  ghost predicate Plain(b: Batch) { b.events == [] && b.sample.sequence <= I64_MAX }

  /** A batch that storage can write, with the whole backlog and the recovery of the monitoring incident. */
  ghost predicate CarriesBacklog(m: Monitor, b: Batch) {
    && b.sample.sequence <= I64_MAX && m.pendingEvents <= b.events
    && |b.events| == |m.pendingEvents| + (if Kind.Monitoring in m.engine.active then 1 else 0)
  }

  lemma ReadingCycles(s: P.System, raw: Sample)
    requires Settled(s.monitor) && Healthy(raw)
    ensures IdleCycle(s.monitor, raw, P.Full(s), P.CycleOf(s, Reading(raw)))
  {
    IdleRead(s.monitor, raw, P.Full(s));
  }

  lemma ReadingIsOrderly(s: P.System, raw: Sample)
    requires Settled(s.monitor) && Healthy(raw)
    ensures Orderly(s, Reading(raw))
  {
    ReadingCycles(s, raw);
  }

  /** A reading one second on, as a step that the daemon can take, and its cycle. */
  lemma ReadStep(c: Scene, choose: Chooser) returns (step: P.Step, raw: Sample, cycle: Cycle, d: Scene)
    requires c.connected && Settled(c.system.monitor)
    ensures IdleCycle(c.system.monitor, raw, P.Full(c.system), cycle)
    ensures Gets(c, [step], d, choose) && d == Scene(P.AfterCycle(c.system, cycle), c.clock + 1000, true)
  {
    raw := HealthyReading(c.clock + 1000);
    step := Reading(raw);
    ReadingIsOrderly(c.system, raw);
    GetsOne(c, step, choose);
    ReadingCycles(c.system, raw);
    cycle := P.CycleOf(c.system, step);
    d := After(c, step, choose);
  }

  ghost predicate SentBacklog(s: P.System, t: P.System) {
    && t.job == s.job && t.done == s.done && |t.queue| == |s.queue| + 1 && t.queue[..|s.queue|] == s.queue
    && CarriesBacklog(s.monitor, t.queue[|s.queue|])
  }

  /** A reading with room in the queue sends the backlog. */
  lemma ReadWithRoom(c: Scene, choose: Chooser) returns (step: P.Step, d: Scene)
    requires c.connected && Settled(c.system.monitor) && !P.Full(c.system) && c.system.monitor.sequence <= I64_MAX
    ensures Gets(c, [step], d, choose) && SentBacklog(c.system, d.system) && Watching(d)
    ensures d.system.monitor.pendingEvents == [] && d.system.monitor.telemetry.Some?
    ensures d.system.monitor.sequence == c.system.monitor.sequence + 1
  {
    var raw, cycle;
    step, raw, cycle, d := ReadStep(c, choose);
  }

  // ---------------------------------------------------------------- filling the queue

  ghost predicate Filled(c: Scene, n: nat) {
    var s := c.system;
    && Watching(c) && s.monitor.pendingEvents == [] && s.monitor.sequence == n && (n > 0 ==> s.monitor.telemetry.Some?)
    && s.job.None? && |s.queue| == n && forall i :: 0 <= i < n ==> Plain(s.queue[i])
  }

  lemma {:induction false} FillQueue(n: nat, choose: Chooser) returns (steps: seq<P.Step>, c: Scene)
    requires n <= P.STORAGE_QUEUE_SIZE
    ensures Gets(FreshScene(), steps, c, choose) && Filled(c, n)
  {
    if n == 0 {
      steps, c := [], FreshScene();
    } else {
      var before, prior := FillQueue(n - 1, choose);
      var step;
      step, c := ReadWithRoom(prior, choose);
      GetsOn(FreshScene(), before, prior, [step], c, choose);
      steps := before + [step];
    }
  }

  // ---------------------------------------------------------------- raised twice in one backlog

  /** Storage lags: the queue is full and nothing is being written. */
  ghost predicate Stalled(s: P.System, n: nat) {
    && Settled(s.monitor) && P.Full(s) && s.job.None? && s.monitor.telemetry.Some?
    && |s.monitor.pendingEvents| == n && s.monitor.sequence < 50 + n
  }

  lemma LoseWhenFull(c: Scene, n: nat, choose: Chooser) returns (d: Scene)
    requires Watching(c) && Stalled(c.system, n) && n < 50
    ensures Gets(c, [Losing(c)], d, choose) && Stalled(d.system, n + 1) && d.system.queue == c.system.queue &&
            !d.connected
    ensures var es := d.system.monitor.pendingEvents;
            && Kind.Monitoring in d.system.monitor.engine.active
            && es[..n] == c.system.monitor.pendingEvents && IsRaise(es[n]) && es[n].kind == Kind.Monitoring
  {
    assert Orderly(c.system, Losing(c));
    GetsOne(c, Losing(c), choose);
    d := After(c, Losing(c), choose);
  }

  lemma ReopenWhenFull(c: Scene, n: nat, choose: Chooser) returns (d: Scene)
    requires Stalled(c.system, n) && !c.connected
    ensures Gets(c, [Reopening(c)], d, choose) && Stalled(d.system, n) && d.connected &&
            d.system.queue == c.system.queue
    ensures d.system.monitor.engine == c.system.monitor.engine
    ensures d.system.monitor.pendingEvents == c.system.monitor.pendingEvents
  {
    assert |c.system.monitor.session + "+"| == |c.system.monitor.session| + 1;
    GetsOne(c, Reopening(c), choose);
    d := After(c, Reopening(c), choose);
  }

  lemma ReadWhenFull(c: Scene, n: nat, choose: Chooser) returns (step: P.Step, d: Scene)
    requires Stalled(c.system, n) && n < 50 && c.connected && Kind.Monitoring in c.system.monitor.engine.active
    ensures Gets(c, [step], d, choose) && Stalled(d.system, n + 1) && Watching(d)
    ensures d.system.queue == c.system.queue && d.system.monitor.pendingEvents[..n] == c.system.monitor.pendingEvents
  {
    var raw, cycle;
    step, raw, cycle, d := ReadStep(c, choose);
  }

  /** Losing the unit, opening and reading it, and losing it again, all behind a full queue. */
  lemma RaiseTwice(c: Scene, choose: Chooser) returns (steps: seq<P.Step>, d: Scene)
    requires Watching(c) && Stalled(c.system, 0)
    ensures Gets(c, steps, d, choose) && Stalled(d.system, 3) && d.connected && d.system.queue == c.system.queue
    ensures RaisedTwice(d.system.monitor.pendingEvents) && Kind.Monitoring in d.system.monitor.engine.active
  {
    var c1 := LoseWhenFull(c, 0, choose);
    var c2 := ReopenWhenFull(c1, 1, choose);
    GetsOn(c, [Losing(c)], c1, [Reopening(c1)], c2, choose);
    var read, c3 := ReadWhenFull(c2, 1, choose);
    steps := [Losing(c)] + [Reopening(c1)];
    GetsOn(c, steps, c2, [read], c3, choose);
    steps := steps + [read];
    var again;
    again, d := LoseAndReopen(c3, 2, choose);
    GetsOn(c, steps, c3, again, d, choose);
    steps := steps + again;
    KeepsFirst(c2.system.monitor.pendingEvents, c3.system.monitor.pendingEvents, d.system.monitor.pendingEvents);
  }

  lemma LoseAndReopen(c: Scene, n: nat, choose: Chooser) returns (steps: seq<P.Step>, d: Scene)
    requires Watching(c) && Stalled(c.system, n) && n < 50
    ensures Gets(c, steps, d, choose) && Stalled(d.system, n + 1) && d.connected && d.system.queue == c.system.queue
    ensures var es := d.system.monitor.pendingEvents;
            && Kind.Monitoring in d.system.monitor.engine.active
            && es[..n] == c.system.monitor.pendingEvents && IsRaise(es[n]) && es[n].kind == Kind.Monitoring
  {
    var lost := LoseWhenFull(c, n, choose);
    d := ReopenWhenFull(lost, n + 1, choose);
    GetsOn(c, [Losing(c)], lost, [Reopening(lost)], d, choose);
    steps := [Losing(c)] + [Reopening(lost)];
  }

  lemma KeepsFirst(a: seq<Incident>, b: seq<Incident>, c: seq<Incident>)
    requires |a| == 1 && |b| == 2 && |c| == 3 && b[..1] == a && c[..2] == b
    ensures c[0] == a[0]
  {
    assert b[..1][0] == b[0] && c[..2][0] == c[0];
  }

  ghost predicate RaisedTwice(es: seq<Incident>) {
    |es| >= 3 && IsRaise(es[0]) && IsRaise(es[2]) && es[0].kind == es[2].kind
  }

  // ---------------------------------------------------------------- storage catches up

  /** Storage completes the batch it is working on. */
  lemma {:induction false} FinishJob(c: Scene, b: Batch, choose: Chooser) returns (steps: seq<P.Step>, d: Scene)
    requires c.system.job == Some(b) && c.system.done < |Transactions(b)| && Plain(b)
    ensures Gets(c, steps, d, choose) && d.system.job.None?
    ensures d.system.queue == c.system.queue && d.system.monitor == c.system.monitor
    decreases |Transactions(b)| - c.system.done
  {
    GetsOne(c, COMMIT, choose);
    var next := After(c, COMMIT, choose);
    steps, d := [COMMIT], next;
    if next.system.job.Some? {
      var rest;
      rest, d := FinishJob(next, b, choose);
      GetsOn(c, [COMMIT], next, rest, d, choose);
      steps := [COMMIT] + rest;
    }
  }

  lemma ReceiveNext(c: Scene, choose: Chooser) returns (d: Scene)
    requires c.system.job.None? && c.system.queue != []
    ensures Gets(c, [P.Receive], d, choose) && d.connected == c.connected
    ensures var s, t := c.system, d.system;
            t.job == Some(s.queue[0]) && t.done == 0 && t.queue == s.queue[1..] && t.monitor == s.monitor
  {
    GetsOne(c, P.Receive, choose);
    d := After(c, P.Receive, choose);
  }

  /** Storage works through plain batches until it receives the last one in the queue. */
  lemma {:induction false} ReceiveLast(c: Scene, choose: Chooser) returns (steps: seq<P.Step>, d: Scene)
    requires c.system.job.None? && c.system.queue != []
    requires forall i :: 0 <= i < |c.system.queue| - 1 ==> Plain(c.system.queue[i])
    ensures Gets(c, steps, d, choose) && d.system.monitor == c.system.monitor
    ensures d.system.job == Some(c.system.queue[|c.system.queue| - 1])
    decreases |c.system.queue|
  {
    d := ReceiveNext(c, choose);
    steps := [P.Receive];
    if |c.system.queue| > 1 {
      var finish, done := FinishJob(d, c.system.queue[0], choose);
      GetsOn(c, steps, d, finish, done, choose);
      var rest;
      rest, d := ReceiveLast(done, choose);
      GetsOn(c, steps + finish, done, rest, d, choose);
      steps := steps + finish + rest;
    }
  }

  /** Storage takes one batch, which makes room, and the next reading sends the backlog. */
  lemma MakeRoom(c: Scene, choose: Chooser) returns (steps: seq<P.Step>, d: Scene)
    requires c.connected && Stalled(c.system, 3) && |c.system.queue| == P.STORAGE_QUEUE_SIZE
    ensures Gets(c, steps, d, choose) && d.system.monitor.droppedEvents == 0
    ensures var s, t := c.system, d.system;
            && t.job == Some(s.queue[0]) && t.done == 0 && |t.queue| == |s.queue|
            && t.queue[..|s.queue| - 1] == s.queue[1..] && CarriesBacklog(s.monitor, t.queue[|s.queue| - 1])
  {
    var c1 := ReceiveNext(c, choose);
    var read;
    read, d := ReadWithRoom(c1, choose);
    GetsOn(c, [P.Receive], c1, [read], d, choose);
    steps := [P.Receive] + [read];
  }

  /** The backlog goes out once the queue has room, and then reaches storage. */
  lemma SendBacklog(c: Scene, choose: Chooser) returns (steps: seq<P.Step>, d: Scene)
    requires c.connected && Stalled(c.system, 3) && |c.system.queue| == P.STORAGE_QUEUE_SIZE
    requires forall i :: 0 <= i < |c.system.queue| ==> Plain(c.system.queue[i])
    ensures Gets(c, steps, d, choose) && d.system.monitor.droppedEvents == 0
    ensures d.system.job.Some? && CarriesBacklog(c.system.monitor, d.system.job.value)
  {
    var room, c1 := MakeRoom(c, choose);
    var finish, c2 := FinishJob(c1, c.system.queue[0], choose);
    GetsOn(c, room, c1, finish, c2, choose);
    PlainButLast(c.system.queue, c1.system.queue);
    var last;
    last, d := ReceiveLast(c2, choose);
    GetsOn(c, room + finish, c2, last, d, choose);
    steps := room + finish + last;
  }

  lemma PlainButLast(before: seq<Batch>, after: seq<Batch>)
    requires before != [] && |after| == |before| && after[..|before| - 1] == before[1..]
    requires forall i :: 0 <= i < |before| ==> Plain(before[i])
    ensures forall i :: 0 <= i < |after| - 1 ==> Plain(after[i])
  {
    forall i | 0 <= i < |after| - 1
      ensures Plain(after[i])
    {
      assert after[i] == after[..|before| - 1][i] == before[i + 1];
    }
  }

  /** A batch that raises a kind twice among the updates that a failing attempt can write. */
  ghost predicate Tangled(b: Batch) { b.sample.sequence <= I64_MAX && RaisedTwice(b.events) && |b.events| > 3 }

  /**
   * Some run that the daemon can take brings a batch to storage that raises a kind twice, nothing having been
   * dropped.
   */
  lemma TangledBatchIsReachable(choose: Chooser) returns (steps: seq<P.Step>, c: Scene)
    ensures Gets(FreshScene(), steps, c, choose) && c.system.monitor.droppedEvents == 0
    ensures c.system.job.Some? && Tangled(c.system.job.value)
  {
    var fill, c1 := FillQueue(P.STORAGE_QUEUE_SIZE, choose);
    var twice, c2 := RaiseTwice(c1, choose);
    GetsOn(FreshScene(), fill, c1, twice, c2, choose);
    var send;
    send, c := SendBacklog(c2, choose);
    GetsOn(FreshScene(), fill + twice, c2, send, c, choose);
    steps := fill + twice + send;
  }

  // ---------------------------------------------------------------- two open rows

  /** Storage's moves, as steps. */
  lemma {:induction false} GetsMoved(c: Scene, moves: seq<P.Move>, choose: Chooser) returns (steps: seq<P.Step>)
    ensures Gets(c, steps, Scene(P.MovedAll(c.system, moves, choose), c.clock, c.connected), choose)
    ensures P.MovedAll(c.system, moves, choose).monitor == c.system.monitor
  {
    if moves == [] {
      steps := [];
    } else {
      var before, last := moves[..|moves| - 1], P.StorageMoves(moves[|moves| - 1]);
      var first := GetsMoved(c, before, choose);
      var d := Scene(P.MovedAll(c.system, before, choose), c.clock, c.connected);
      GetsOne(d, last, choose);
      GetsOn(c, first, d, [last], After(d, last, choose), choose);
      steps := first + [last];
    }
  }

  /**
   * At most one open row per kind is not an invariant of the program: some run that the daemon can take from a fresh
   * start, in which no update is dropped, ends with two open rows of one kind.
   */
  lemma TwoOpenRowsAreReachable(choose: Chooser) returns (steps: seq<P.Step>)
    ensures FirstStart(FreshScene().system) && Legal(FreshScene(), steps, choose)
    ensures var end := P.Run(FreshScene().system, steps, choose);
            end.monitor.droppedEvents == 0 && !OnePerKind(OpenIn(end.store.incidents))
  {
    FreshIsFirstStart();
    var first, c := TangledBatchIsReachable(choose);
    LegalIsOrderly(FreshScene(), first, choose);
    RunInStep(FreshScene().system, first, choose);
    var moves := TangledBatchBreaks(c.system, c.system.job.value, 0, 2, choose);
    var retries := GetsMoved(c, moves, choose);
    var d := Scene(P.MovedAll(c.system, moves, choose), c.clock, c.connected);
    GetsOn(FreshScene(), first, c, retries, d, choose);
    steps := first + retries;
    LegalIsOrderly(FreshScene(), steps, choose);
  }

  /** And a restart at that moment starts with table and engine disagreeing, nothing being on its way. */
  lemma DisagreementIsReachable(choose: Chooser) returns (steps: seq<P.Step>)
    ensures FirstStart(FreshScene().system) && LosslessRun(FreshScene().system, steps, choose)
    ensures !Agrees(P.Run(FreshScene().system, steps, choose))
  {
    var first := TwoOpenRowsAreReachable(choose);
    LegalIsOrderly(FreshScene(), first, choose);
    var s, end := FreshScene().system, P.Run(FreshScene().system, first, choose);
    var restored := SomethingIsRestored(end.store.incidents);
    var step := P.Restarted(restored, "s");
    steps := first + [step];
    OrderlyThenLossless(s, first, step, choose);
    AgreeingRestartIsClean(end, step, choose);
    assert steps[..|first|] == first;
  }

  lemma OrderlyThenLossless(s: P.System, first: seq<P.Step>, step: P.Step, choose: Chooser)
    requires OrderlyRun(s, first, choose) && Lossless(P.Run(s, first, choose), step)
    ensures LosslessRun(s, first + [step], choose)
  {
    var steps := first + [step];
    forall n | 0 <= n < |steps|
      ensures Lossless(P.Run(s, steps[..n], choose), steps[n])
    {
      assert steps[..n] == first[..n];
      if n < |first| {
        OrderlyAt(s, first, n, choose);
      } else {
        assert first[..n] == first;
      }
    }
  }

  lemma {:induction false} OrderlyAt(s: P.System, steps: seq<P.Step>, n: nat, choose: Chooser)
    requires OrderlyRun(s, steps, choose) && n < |steps|
    ensures Orderly(P.Run(s, steps[..n], choose), steps[n])
  {
    if n == |steps| - 1 {
    } else {
      OrderlyAt(s, steps[..|steps| - 1], n, choose);
      assert steps[..|steps| - 1][..n] == steps[..n];
    }
  }
}
