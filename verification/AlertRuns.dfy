/** What every run of the alarm engine keeps: replay, exact raising, no flapping. */
module AlertRuns {
  import opened Wrappers
  import opened Telemetry
  import opened Alerts
  import opened Timelines

  datatype Input = Observed(t: Sample, p: Policy, maxGapMs: nat) | Lost(last: Sample, at: int)

  function Step(e: EngineState, x: Input): (EngineState, seq<Incident>) {
    match x
    case Observed(t, p, gap) => Observe(e, t, p, gap)
    case Lost(last, at) => MonitoringLost(e, last, at)
  }

  function After(e: EngineState, h: seq<Input>): EngineState {
    if h == [] then e else Step(After(e, h[..|h| - 1]), h[|h| - 1]).0
  }

  function EventsAt(e: EngineState, h: seq<Input>, i: nat): seq<Incident>
    requires i < |h|
  {
    Step(After(e, h[..i]), h[i]).1
  }

  function Log(e: EngineState, h: seq<Input>): seq<Incident> {
    if h == [] then [] else Log(e, h[..|h| - 1]) + EventsAt(e, h, |h| - 1)
  }

  lemma AfterSnoc(e: EngineState, h: seq<Input>, n: nat)
    requires n < |h|
    ensures After(e, h[..n + 1]) == Step(After(e, h[..n]), h[n]).0
  {
    assert h[..n + 1][..n] == h[..n];
  }

  // ---------------------------------------------------------------- invariants

  /** Timers of a kind never run in both directions; incidents are filed by kind under distinct, spent identifiers. */
  ghost predicate Sound(e: EngineState) {
    && Filed(e)
    && (forall k :: k in e.pending ==> k !in e.recovering)
    && (forall k :: k in e.active ==> e.active[k].id < e.nextId)
    && (forall k, l :: k in e.active && l in e.active && e.active[k].id == e.active[l].id ==> k == l)
  }

  lemma VisitKeepsSound(e: EngineState, t: Sample, p: Policy, k: Kind, c: Condition)
    requires Sound(e)
    ensures Sound(Visit(e, t, p, k, c).0)
  {}

  lemma {:induction false} VisitAllKeepsSound(e: EngineState, t: Sample, p: Policy, ks: seq<Kind>)
    requires Sound(e)
    requires forall i :: 0 <= i < |ks| ==> Report(t, p, ks[i]).Some?
    ensures Sound(VisitAll(e, t, p, ks).0)
  {
    if ks == [] {
    } else {
      VisitAllKeepsSound(e, t, p, ks[..|ks| - 1]);
      VisitKeepsSound(VisitAll(e, t, p, ks[..|ks| - 1]).0, t, p, ks[|ks| - 1], Report(t, p, ks[|ks| - 1]).value);
    }
  }

  lemma StepKeepsSound(e: EngineState, x: Input)
    requires Sound(e)
    ensures Sound(Step(e, x).0)
  {
    if x.Observed? {
      KindsAreReported(x.t, x.p);
      VisitAllKeepsSound(Begin(e, x.t, x.maxGapMs), x.t, x.p, Kinds(x.t));
    }
  }

  lemma {:induction false} RunKeepsSound(e: EngineState, h: seq<Input>)
    requires Sound(e)
    ensures Sound(After(e, h))
  {
    if h == [] {
    } else {
      RunKeepsSound(e, h[..|h| - 1]);
      StepKeepsSound(After(e, h[..|h| - 1]), h[|h| - 1]);
    }
  }

  // ---------------------------------------------------------------- replay

  function ReplayOne(active: map<Kind, Incident>, event: Incident): map<Kind, Incident> {
    if event.recoveredAtMs.None? then active[event.kind := event] else active - {event.kind}
  }

  function Replay(active: map<Kind, Incident>, log: seq<Incident>): map<Kind, Incident> {
    if log == [] then active else ReplayOne(Replay(active, log[..|log| - 1]), log[|log| - 1])
  }

  /** A raise needs its kind idle; a recovery is the raise that is open, identifier and all, with a closing time. */
  ghost predicate Follows(active: map<Kind, Incident>, event: Incident) {
    if event.recoveredAtMs.None? then event.kind !in active
    else event.kind in active && event == Closed(active[event.kind], event.recoveredAtMs.value)
  }

  ghost predicate Alternates(active: map<Kind, Incident>, log: seq<Incident>) {
    log == [] || (Alternates(active, log[..|log| - 1]) && Follows(Replay(active, log[..|log| - 1]), log[|log| - 1]))
  }

  lemma {:induction false} ReplayConcat(active: map<Kind, Incident>, a: seq<Incident>, b: seq<Incident>)
    ensures Replay(active, a + b) == Replay(Replay(active, a), b)
    ensures Alternates(active, a + b) <==> Alternates(active, a) && Alternates(Replay(active, a), b)
  {
    if b == [] {
      assert a + b == a;
    } else {
      assert (a + b)[..|a + b| - 1] == a + b[..|b| - 1];
      ReplayConcat(active, a, b[..|b| - 1]);
    }
  }

  lemma ReplaySingle(active: map<Kind, Incident>, events: seq<Incident>)
    requires |events| == 1
    ensures Replay(active, events) == ReplayOne(active, events[0])
    ensures Alternates(active, events) <==> Follows(active, events[0])
  {
    assert events[..0] == [];
    assert Replay(active, events[..0]) == active;
  }

  /** These events, replayed on `before`, alternate properly and end in `after`. */
  ghost predicate Explains(before: map<Kind, Incident>, events: seq<Incident>, after: map<Kind, Incident>) {
    Alternates(before, events) && Replay(before, events) == after
  }

  lemma VisitExplained(e: EngineState, t: Sample, p: Policy, k: Kind, c: Condition)
    requires Filed(e)
    ensures Explains(e.active, Visit(e, t, p, k, c).1, Visit(e, t, p, k, c).0.active)
  {
    var (after, events) := Visit(e, t, p, k, c);
    if |events| == 1 {
      ReplaySingle(e.active, events);
    } else {
      assert after.active == e.active;
    }
  }

  lemma ExplainsOn(start: map<Kind, Incident>, first: seq<Incident>, mid: map<Kind, Incident>, last: seq<Incident>,
                   after: map<Kind, Incident>)
    requires Explains(start, first, mid) && Explains(mid, last, after)
    ensures Explains(start, first + last, after)
  {
    ReplayConcat(start, first, last);
  }

  lemma {:induction false} VisitAllExplained(e: EngineState, t: Sample, p: Policy, ks: seq<Kind>)
    requires Filed(e)
    requires forall i :: 0 <= i < |ks| ==> Report(t, p, ks[i]).Some?
    ensures var (after, events) := VisitAll(e, t, p, ks);
            Filed(after) && Explains(e.active, events, after.active)
  {
    if ks == [] {
    } else {
      var before, v := ks[..|ks| - 1], ks[|ks| - 1];
      VisitAllExplained(e, t, p, before);
      var (mid, first) := VisitAll(e, t, p, before);
      NextExplained(e.active, mid, first, t, p, v, Report(t, p, v).value);
    }
  }

  lemma NextExplained(start: map<Kind, Incident>, mid: EngineState, first: seq<Incident>, t: Sample, p: Policy, v: Kind,
                      c: Condition)
    requires Filed(mid) && Explains(start, first, mid.active)
    ensures var (after, last) := Visit(mid, t, p, v, c); Filed(after) && Explains(start, first + last, after.active)
  {
    var (after, last) := Visit(mid, t, p, v, c);
    VisitExplained(mid, t, p, v, c);
    ExplainsOn(start, first, mid.active, last, after.active);
  }

  lemma StepExplained(e: EngineState, x: Input)
    requires Filed(e)
    ensures Filed(Step(e, x).0) && Explains(e.active, Step(e, x).1, Step(e, x).0.active)
  {
    match x
    case Observed(t, p, gap) =>
      KindsAreReported(t, p);
      var b := Begin(e, t, gap);
      VisitAllExplained(b, t, p, Kinds(t));
      var first := Restored(e, t);
      if first == [] {
        assert b.active == e.active;
      } else {
        ReplaySingle(e.active, first);
      }
      ReplayConcat(e.active, first, VisitAll(b, t, p, Kinds(t)).1);
    case Lost(last, at) =>
      if Step(e, x).1 != [] { ReplaySingle(e.active, Step(e, x).1); }
  }

  /**
   * Replaying the event log from the first active map reproduces the active map after any run, and the log of each
   * kind alternates raise and recovery, every recovery closing the very raise that is open.
   */
  lemma {:induction false} LogReplays(e: EngineState, h: seq<Input>)
    requires Filed(e)
    ensures Filed(After(e, h)) && Explains(e.active, Log(e, h), After(e, h).active)
  {
    if h == [] {
    } else {
      var before := h[..|h| - 1];
      LogReplays(e, before);
      StepExplained(After(e, before), h[|h| - 1]);
      ReplayConcat(e.active, Log(e, before), EventsAt(e, h, |h| - 1));
    }
  }

  /** Samples without a valid alarm group, however many, leave the hardware incidents as they were. */
  lemma {:induction false} MissingGroupsChangeNothing(e: EngineState, h: seq<Input>, i: nat)
    requires Filed(e)
    requires forall j :: 0 <= j < |h| && h[j].Observed? ==> !GroupRead(h[j].t)
    ensures Lookup(After(e, h).active, Hardware(i)) == Lookup(e.active, Hardware(i))
  {
    if h == [] {
    } else {
      var before, x := h[..|h| - 1], h[|h| - 1];
      MissingGroupsChangeNothing(e, before, i);
      LogReplays(e, before);
      if x.Observed? { HardwareFollowsItsByte(After(e, before), x.t, x.p, x.maxGapMs, i); }
    }
  }

  // ---------------------------------------------------------------- streaks

  ghost predicate Idle(e: EngineState) { Filed(e) && e.pending == map[] && e.recovering == map[] && e.last.None? }

  /** Two consecutive inputs are samples of one session with no gap between them. */
  ghost predicate Linked(a: Input, b: Input) {
    a.Observed? && b.Observed? && a.t.session == b.t.session &&
      SaturatingSub(b.t.monotonicMs, a.t.monotonicMs) <= b.maxGapMs
  }

  /** The two ways for a report to count toward a timer. */
  datatype Sign = Asserted | Calm

  predicate Shows(x: Input, k: Kind, sign: Sign) {
    x.Observed? && Report(x.t, x.p, k).Some? &&
    var c := Report(x.t, x.p, k).value;
    if sign.Asserted? then c.asserted else !c.asserted && c.clear
  }

  predicate Silent(x: Input, k: Kind) { x.Observed? && Report(x.t, x.p, k).None? }

  /** From sample i to the end of h the kind showed the sign whenever it was reported, without interruption. */
  ghost predicate Streak(h: seq<Input>, k: Kind, sign: Sign, i: nat) {
    && i < |h| && Shows(h[i], k, sign)
    && (forall j :: i <= j < |h| ==> Shows(h[j], k, sign) || Silent(h[j], k))
    && (forall j :: i < j < |h| ==> Linked(h[j - 1], h[j]))
  }

  lemma StreakSnoc(h: seq<Input>, x: Input, k: Kind, sign: Sign, i: nat)
    ensures Streak(h + [x], k, sign, i) <==>
            (i == |h| && Shows(x, k, sign)) ||
            (Streak(h, k, sign, i) && Linked(h[|h| - 1], x) && (Shows(x, k, sign) || Silent(x, k)))
  {
    var all := h + [x];
    if Streak(all, k, sign, i) && i < |h| {
      assert all[i] == h[i];
      forall j | i <= j < |h|
        ensures Shows(h[j], k, sign) || Silent(h[j], k)
        ensures j > i ==> Linked(h[j - 1], h[j])
      {
        assert all[j] == h[j];
        if j > i { assert all[j - 1] == h[j - 1]; }
      }
      assert Linked(all[|h| - 1], all[|h|]);
      assert all[|h|] == x && all[|h| - 1] == h[|h| - 1];
    }
    if Streak(h, k, sign, i) && Linked(h[|h| - 1], x) && (Shows(x, k, sign) || Silent(x, k)) {
      assert all[i] == h[i];
      forall j | i < j < |all|
        ensures Linked(all[j - 1], all[j])
      {
        if j < |h| { assert all[j] == h[j] && all[j - 1] == h[j - 1]; }
      }
    }
  }

  lemma StreaksSnoc(h: seq<Input>, x: Input, k: Kind, sign: Sign)
    ensures forall i: nat :: Streak(h + [x], k, sign, i) <==>
              (i == |h| && Shows(x, k, sign)) ||
              (Streak(h, k, sign, i) && Linked(h[|h| - 1], x) && (Shows(x, k, sign) || Silent(x, k)))
  {
    forall i: nat
      ensures Streak(h + [x], k, sign, i) <==>
              (i == |h| && Shows(x, k, sign)) ||
              (Streak(h, k, sign, i) && Linked(h[|h| - 1], x) && (Shows(x, k, sign) || Silent(x, k)))
    {
      StreakSnoc(h, x, k, sign, i);
    }
  }

  lemma LossEndsStreaks(h: seq<Input>, x: Input, k: Kind, sign: Sign)
    requires x.Lost?
    ensures TimerMatches(h + [x], k, sign, None)
  {
    StreaksSnoc(h, x, k, sign);
  }

  /** The timer holds the time of the earliest sample of the current streak, and is absent without one. */
  ghost predicate TimerMatches(h: seq<Input>, k: Kind, sign: Sign, timer: Option<nat>) {
    match timer
    case None => forall i: nat :: !Streak(h, k, sign, i)
    case Some(start) => exists i: nat :: EarliestStreak(h, k, sign, i) && start == h[i].t.monotonicMs
  }

  ghost predicate EarliestStreak(h: seq<Input>, k: Kind, sign: Sign, i: nat) {
    Streak(h, k, sign, i) && forall j: nat :: Streak(h, k, sign, j) ==> i <= j
  }

  /** What one observation does to a kind's pending timer. */
  lemma PendingStep(e: EngineState, t: Sample, p: Policy, gap: nat, k: Kind)
    requires Filed(e)
    ensures var after := Observe(e, t, p, gap).0.pending; var r := Report(t, p, k);
            var kept := if Interrupted(e, t, gap) then None else Lookup(e.pending, k);
            Lookup(after, k) == if r.None? then kept
                                else if !r.value.asserted then None
                                else if kept.Some? then kept else Some(t.monotonicMs)
  {
    ObserveByKind(e, t, p, gap, k);
    var (after, events) := Observe(e, t, p, gap);
    var b := Begin(e, t, gap);
    assert CellOf(after, k).pending == Lookup(after.pending, k) && CellOf(b, k).pending == Lookup(b.pending, k);
    if Report(t, p, k).Some? {
      var m :| Treated(b, t, p, k, m, after, events);
      assert CellOf(m, k).pending == Lookup(m.pending, k);
      var one := Visit(m, t, p, k, Report(t, p, k).value).0;
      assert CellOf(one, k).pending == Lookup(one.pending, k);
    }
  }

  lemma {:induction false} PendingIsStreak(e: EngineState, h: seq<Input>, k: Kind)
    requires Idle(e)
    ensures TimerMatches(h, k, Asserted, Lookup(After(e, h).pending, k))
    ensures h != [] && h[|h| - 1].Observed? ==>
              After(e, h).last == Some((h[|h| - 1].t.session, h[|h| - 1].t.monotonicMs))
  {
    if h == [] {
    } else {
      var before, x := h[..|h| - 1], h[|h| - 1];
      assert h == before + [x];
      PendingIsStreak(e, before, k);
      LogReplays(e, before);
      var e1 := After(e, before);
      if x.Observed? {
        ObserveByKind(e1, x.t, x.p, x.maxGapMs, k);
        PendingStep(e1, x.t, x.p, x.maxGapMs, k);
        ExtendTimer(before, x, k, Asserted, Lookup(e1.pending, k), e1, Lookup(After(e, h).pending, k));
      } else {
        LossEndsStreaks(before, x, k, Asserted);
      }
    }
  }

  lemma ExtendTimer(before: seq<Input>, x: Input, k: Kind, sign: Sign, timer: Option<nat>, e1: EngineState,
                    next: Option<nat>)
    requires x.Observed? && TimerMatches(before, k, sign, timer)
    requires before != [] && before[|before| - 1].Observed? ==>
               e1.last == Some((before[|before| - 1].t.session, before[|before| - 1].t.monotonicMs))
    requires var r := Report(x.t, x.p, k);
             var kept := if Interrupted(e1, x.t, x.maxGapMs) then None else timer;
             next == if r.None? then kept else if !Shows(x, k, sign) then None
                     else if kept.Some? then kept else Some(x.t.monotonicMs)
    ensures TimerMatches(before + [x], k, sign, next)
  {
    var h := before + [x];
    StreaksSnoc(before, x, k, sign);
    if timer.Some? {
      var i: nat :| EarliestStreak(before, k, sign, i) && timer.value == before[i].t.monotonicMs;
      assert Shows(before[|before| - 1], k, sign) || Silent(before[|before| - 1], k);
      assert Linked(before[|before| - 1], x) <==> !Interrupted(e1, x.t, x.maxGapMs);
      assert h[i] == before[i];
      if Linked(before[|before| - 1], x) && (Shows(x, k, sign) || Silent(x, k)) {
        assert EarliestStreak(h, k, sign, i);
      } else if Shows(x, k, sign) {
        assert EarliestStreak(h, k, sign, |before|);
      }
    } else if Shows(x, k, sign) {
      assert EarliestStreak(h, k, sign, |before|);
    }
  }

  predicate Raises(events: seq<Incident>, k: Kind) { Of(events, k) != [] && Of(events, k)[0].recoveredAtMs.None? }

  predicate Recovers(events: seq<Incident>, k: Kind) { Of(events, k) != [] && Of(events, k)[0].recoveredAtMs.Some? }

  /** Since when the kind has been recovering, counting this sample if it was not before. */
  function CalmSince(e: EngineState, t: Sample, gap: nat, k: Kind): nat {
    if !Interrupted(e, t, gap) && k in e.recovering then e.recovering[k] else t.monotonicMs
  }

  /** A software kind's observation is one visit, from what Begin left of the kind, when it is reported. */
  lemma OneVisit(e: EngineState, t: Sample, p: Policy, gap: nat, k: Kind) returns (m: EngineState)
    requires Filed(e) && k.Software? && Report(t, p, k).Some?
    ensures var (after, events) := Observe(e, t, p, gap);
            var (one, of) := Visit(m, t, p, k, Report(t, p, k).value);
            && Same(m, Begin(e, t, gap), k) && Same(after, one, k) && Of(events, k) == of && Filed(m)
  {
    ObserveByKind(e, t, p, gap, k);
    var (after, events) := Observe(e, t, p, gap);
    var b := Begin(e, t, gap);
    m :| Treated(b, t, p, k, m, after, events);
    var one := Visit(m, t, p, k, Report(t, p, k).value).0;
    SameCell(m, b, k);
    SameCell(after, one, k);
  }

  lemma NoVisit(e: EngineState, t: Sample, p: Policy, gap: nat, k: Kind)
    requires Filed(e) && k.Software? && Report(t, p, k).None?
    ensures Same(Observe(e, t, p, gap).0, Begin(e, t, gap), k) && Of(Observe(e, t, p, gap).1, k) == []
  {
    ObserveByKind(e, t, p, gap, k);
    SameCell(Observe(e, t, p, gap).0, Begin(e, t, gap), k);
  }

  ghost predicate Same(a: EngineState, b: EngineState, k: Kind) {
    && Lookup(a.active, k) == Lookup(b.active, k)
    && Lookup(a.pending, k) == Lookup(b.pending, k)
    && Lookup(a.recovering, k) == Lookup(b.recovering, k)
  }

  lemma SameCell(a: EngineState, b: EngineState, k: Kind)
    requires CellOf(a, k) == CellOf(b, k)
    ensures Same(a, b, k)
  {
    assert CellOf(a, k).active == Lookup(a.active, k) && CellOf(b, k).active == Lookup(b.active, k);
    assert CellOf(a, k).pending == Lookup(a.pending, k) && CellOf(b, k).pending == Lookup(b.pending, k);
  }

  /** When one observation raises or recovers a software kind, in terms of its timers. */
  lemma SoftwareEvents(e: EngineState, t: Sample, p: Policy, gap: nat, k: Kind)
    requires Filed(e) && k.Software?
    ensures var (after, events) := Observe(e, t, p, gap); var r := Report(t, p, k);
            && (Raises(events, k) <==> r.Some? && r.value.asserted && k !in e.active && k in after.pending &&
                                       SaturatingSub(t.monotonicMs, after.pending[k]) >= p.triggerMs)
            && (Raises(events, k) ==> k in after.active && k !in after.recovering)
            && (Recovers(events, k) ==> k !in after.pending && k !in after.active)
            && (Recovers(events, k) <==> r.Some? && !r.value.asserted && r.value.clear && k in e.active &&
                                         SaturatingSub(t.monotonicMs, CalmSince(e, t, gap, k)) >= p.recoveryMs)
            && (k in after.active && k !in e.active ==> r.Some? && r.value.asserted)
            && (k in e.active && !Recovers(events, k) ==> k in after.active)
            && (k in after.recovering ==> after.recovering[k] == CalmSince(e, t, gap, k))
  {
    var (after, events) := Observe(e, t, p, gap);
    if Report(t, p, k).Some? {
      var m := OneVisit(e, t, p, gap, k);
      VisitEvents(m, t, p, k, Report(t, p, k).value);
    } else {
      NoVisit(e, t, p, gap, k);
    }
  }

  lemma VisitEvents(m: EngineState, t: Sample, p: Policy, k: Kind, c: Condition)
    requires Filed(m) && k.Software?
    ensures var (one, of) := Visit(m, t, p, k, c);
            var since := if k in m.recovering then m.recovering[k] else t.monotonicMs;
            && (of != [] && IsRaise(of[0]) <==> c.asserted && k !in m.active && k in one.pending &&
                                                     SaturatingSub(t.monotonicMs, one.pending[k]) >= p.triggerMs)
            && (of != [] && IsRaise(of[0]) ==> k in one.active && k !in one.recovering)
            && (of != [] && !IsRaise(of[0]) ==> k !in one.pending && k !in one.active)
            && (of != [] && !IsRaise(of[0]) <==> !c.asserted && c.clear && k in m.active &&
                                                 SaturatingSub(t.monotonicMs, since) >= p.recoveryMs)
            && (k in one.active && k !in m.active ==> c.asserted)
            && (k in m.active && !(of != [] && !IsRaise(of[0])) ==> k in one.active)
            && (k in one.recovering ==> one.recovering[k] == since)
  {}

  predicate IsRaise(i: Incident) { i.recoveredAtMs.None? }

  /** The boot-time clock never steps back. */
  ghost predicate Steady(h: seq<Input>) {
    forall i, j :: 0 <= i < j < |h| && h[i].Observed? && h[j].Observed? ==> h[i].t.monotonicMs <= h[j].t.monotonicMs
  }

  /**
   * A software incident is raised at a sample exactly when its kind is idle, the sample reports the connector, and the
   * condition was asserted by every sample that reported it from some sample at least trigger_ms earlier up to now,
   * with no session change, gap or loss of monitoring in between.
   */
  lemma RaisedExactlyAfterStreak(e: EngineState, h: seq<Input>, k: Kind)
    requires Idle(e) && k.Software? && Steady(h) && h != [] && h[|h| - 1].Observed?
    ensures var x := h[|h| - 1];
            Raises(EventsAt(e, h, |h| - 1), k) <==>
            && k !in After(e, h[..|h| - 1]).active
            && Report(x.t, x.p, k).Some?
            && exists i: nat :: LongStreak(h, k, Asserted, i, x.p.triggerMs)
  {
    var before, x := h[..|h| - 1], h[|h| - 1];
    LogReplays(e, before);
    SoftwareEvents(After(e, before), x.t, x.p, x.maxGapMs, k);
    PendingIsStreak(e, h, k);
    TimerMeasuresStreak(h, k, Asserted, Lookup(After(e, h).pending, k), x.p.triggerMs);
  }

  /** A streak that began at least the period before the last sample. */
  ghost predicate LongStreak(h: seq<Input>, k: Kind, sign: Sign, i: nat, period: nat) {
    && Streak(h, k, sign, i) && h[|h| - 1].Observed?
    && h[i].t.monotonicMs + period <= h[|h| - 1].t.monotonicMs
  }

  lemma TimerMeasuresStreak(h: seq<Input>, k: Kind, sign: Sign, timer: Option<nat>, period: nat)
    requires Steady(h) && h != [] && h[|h| - 1].Observed? && TimerMatches(h, k, sign, timer)
    ensures var x := h[|h| - 1];
            (exists i: nat :: LongStreak(h, k, sign, i, period)) <==>
            timer.Some? && SaturatingSub(x.t.monotonicMs, timer.value) >= period
    ensures var x := h[|h| - 1]; timer.Some? ==> timer.value <= x.t.monotonicMs
    ensures timer.Some? ==> Shows(h[|h| - 1], k, sign) || Silent(h[|h| - 1], k)
  {
    if timer.Some? {
      var i: nat :| EarliestStreak(h, k, sign, i) && timer.value == h[i].t.monotonicMs;
      if timer.value + period <= h[|h| - 1].t.monotonicMs { assert LongStreak(h, k, sign, i, period); }
    }
  }

  // ---------------------------------------------------------------- recovery

  /** The recovering timer as an observation leaves it, unless it has run out and closed the incident. */
  function CalmTimer(e: EngineState, t: Sample, p: Policy, gap: nat, k: Kind): Option<nat> {
    var kept := if Interrupted(e, t, gap) then None else Lookup(e.recovering, k);
    if Report(t, p, k).None? then kept
    else if !Shows(Observed(t, p, gap), k, Calm) then None
    else if kept.Some? then kept else Some(t.monotonicMs)
  }

  lemma RecoveringStep(e: EngineState, t: Sample, p: Policy, gap: nat, k: Kind)
    requires Filed(e) && k.Software?
    ensures var after := Observe(e, t, p, gap).0;
            k in e.active && k in after.active ==> Lookup(after.recovering, k) == CalmTimer(e, t, p, gap, k)
    ensures var after := Observe(e, t, p, gap).0;
            k !in e.active && k in after.active ==> Lookup(after.recovering, k) == None
  {
    if Report(t, p, k).Some? {
      var m := OneVisit(e, t, p, gap, k);
      VisitRecovering(m, t, p, k, Report(t, p, k).value);
    } else {
      NoVisit(e, t, p, gap, k);
    }
  }

  lemma VisitRecovering(m: EngineState, t: Sample, p: Policy, k: Kind, c: Condition)
    requires k.Software?
    ensures var one := Visit(m, t, p, k, c).0;
            && (k in m.active && k in one.active ==>
                  Lookup(one.recovering, k) ==
                  if c.asserted || !c.clear then None
                  else if k in m.recovering then Some(m.recovering[k]) else Some(t.monotonicMs))
            && (k !in m.active && k in one.active ==> k !in one.recovering)
  {}

  /** While a kind is active its recovering timer holds the time of the first sample of the current calm streak. */
  lemma {:induction false} RecoveringIsCalm(e: EngineState, h: seq<Input>, k: Kind)
    requires Idle(e) && k.Software?
    ensures k in After(e, h).active ==> TimerMatches(h, k, Calm, Lookup(After(e, h).recovering, k))
  {
    if h == [] {
    } else {
      var before, x := h[..|h| - 1], h[|h| - 1];
      assert h == before + [x];
      RecoveringIsCalm(e, before, k);
      LogReplays(e, before);
      PendingIsStreak(e, before, k);
      CalmStep(e, before, x, k);
    }
  }

  lemma CalmStep(e: EngineState, before: seq<Input>, x: Input, k: Kind)
    requires k.Software? && Filed(After(e, before))
    requires k in After(e, before).active ==> TimerMatches(before, k, Calm, Lookup(After(e, before).recovering, k))
    requires before != [] && before[|before| - 1].Observed? ==>
               After(e, before).last == Some((before[|before| - 1].t.session, before[|before| - 1].t.monotonicMs))
    ensures var after := Step(After(e, before), x).0;
            k in after.active ==> TimerMatches(before + [x], k, Calm, Lookup(after.recovering, k))
  {
    var e1 := After(e, before);
    match x
    case Observed(t, p, gap) =>
      RecoveringStep(e1, t, p, gap, k);
      if k in e1.active {
        ExtendTimer(before, x, k, Calm, Lookup(e1.recovering, k), e1, CalmTimer(e1, t, p, gap, k));
      } else {
        SoftwareEvents(e1, t, p, gap, k);
        StreaksSnoc(before, x, k, Calm);
      }
    case Lost(last, at) => LossEndsStreaks(before, x, k, Calm);
  }

  /**
   * A software incident is closed at a sample exactly when it is active, the sample reports the connector, and the
   * condition was clear and not asserted in every sample that reported it from some sample at least recovery_ms earlier
   * up to now, with no session change, gap or loss of monitoring in between.
   */
  lemma RecoveredExactlyAfterCalm(e: EngineState, h: seq<Input>, k: Kind)
    requires Idle(e) && k.Software? && Steady(h) && h != [] && h[|h| - 1].Observed?
    ensures var x := h[|h| - 1];
            Recovers(EventsAt(e, h, |h| - 1), k) <==>
            && k in After(e, h[..|h| - 1]).active
            && Report(x.t, x.p, k).Some?
            && exists i: nat :: LongStreak(h, k, Calm, i, x.p.recoveryMs)
  {
    var before, x := h[..|h| - 1], h[|h| - 1];
    var e1 := After(e, before);
    LogReplays(e, before);
    SoftwareEvents(e1, x.t, x.p, x.maxGapMs, k);
    if k in e1.active {
      RecoveringIsCalm(e, before, k);
      PendingIsStreak(e, before, k);
      var timer := CalmTimer(e1, x.t, x.p, x.maxGapMs, k);
      ExtendTimer(before, x, k, Calm, Lookup(e1.recovering, k), e1, timer);
      assert h == before + [x];
      TimerMeasuresStreak(h, k, Calm, timer, x.p.recoveryMs);
    }
  }

  // ---------------------------------------------------------------- no flapping

  ghost predicate RaisedAt(e: EngineState, h: seq<Input>, k: Kind, i: nat) {
    i < |h| && h[i].Observed? && Raises(EventsAt(e, h, i), k)
  }

  ghost predicate RecoveredAt(e: EngineState, h: seq<Input>, k: Kind, i: nat) {
    i < |h| && h[i].Observed? && Recovers(EventsAt(e, h, i), k)
  }

  ghost predicate Validated(h: seq<Input>) { forall i :: 0 <= i < |h| && h[i].Observed? ==> ValidPolicy(h[i].p) }

  lemma FiledAlong(e: EngineState, h: seq<Input>, i: nat)
    requires Filed(e) && i <= |h|
    ensures Filed(After(e, h[..i]))
  {
    LogReplays(e, h[..i]);
  }

  function MomentOf(e: EngineState, k: Kind): Moment {
    Moment(k in e.active, Lookup(e.pending, k), Lookup(e.recovering, k))
  }

  ghost function TickOf(e: EngineState, x: Input, k: Kind): Tick {
    match x
    case Observed(t, p, gap) =>
      var events := Observe(e, t, p, gap).1;
      Tick(Some(t.monotonicMs), Raises(events, k), Recovers(events, k), p.triggerMs, p.recoveryMs)
    case Lost(_, _) => Tick(None, false, false, 0, 0)
  }

  /** Each step keeps the law of a kind's timers. */
  lemma StepKeepsLaw(e: EngineState, x: Input, k: Kind)
    requires Filed(e) && k.Software?
    ensures Law(MomentOf(e, k), TickOf(e, x, k), MomentOf(Step(e, x).0, k))
  {
    if x.Observed? {
      SoftwareEvents(e, x.t, x.p, x.maxGapMs, k);
      PendingStep(e, x.t, x.p, x.maxGapMs, k);
    }
  }

  ghost function Moments(e: EngineState, h: seq<Input>, k: Kind): seq<Moment> {
    seq(|h| + 1, n requires 0 <= n <= |h| => MomentOf(After(e, h[..n]), k))
  }

  ghost function Ticks(e: EngineState, h: seq<Input>, k: Kind): seq<Tick> {
    seq(|h|, n requires 0 <= n < |h| => TickOf(After(e, h[..n]), h[n], k))
  }

  /** Every run is a timeline of each software kind. */
  lemma RunIsTimeline(e: EngineState, h: seq<Input>, k: Kind)
    requires Filed(e) && k.Software? && Steady(h)
    ensures Timeline(Moments(e, h, k), Ticks(e, h, k))
  {
    var ms, ts := Moments(e, h, k), Ticks(e, h, k);
    forall n | 0 <= n < |ts|
      ensures Law(ms[n], ts[n], ms[n + 1])
    {
      FiledAlong(e, h, n);
      StepKeepsLaw(After(e, h[..n]), h[n], k);
      AfterSnoc(e, h, n);
    }
    TimesRise(e, h, k);
  }

  lemma TimesRise(e: EngineState, h: seq<Input>, k: Kind)
    requires Steady(h)
    ensures var ts := Ticks(e, h, k);
            forall i, j :: 0 <= i < j < |ts| && ts[i].time.Some? && ts[j].time.Some? ==>
              ts[i].time.value <= ts[j].time.value
  {
    forall i | 0 <= i < |h|
      ensures Ticks(e, h, k)[i].time == if h[i].Observed? then Some(h[i].t.monotonicMs) else None
    {
      TickTime(e, h, k, i);
    }
  }

  lemma TickTime(e: EngineState, h: seq<Input>, k: Kind, i: nat)
    requires i < |h|
    ensures Ticks(e, h, k)[i].time == if h[i].Observed? then Some(h[i].t.monotonicMs) else None
  {}

  /** A tick says whether its sample raised or recovered the kind. */
  lemma TickAt(e: EngineState, h: seq<Input>, k: Kind, i: nat)
    requires i < |h|
    ensures var t := Ticks(e, h, k)[i];
            && (t.raised <==> RaisedAt(e, h, k, i)) && (t.recovered <==> RecoveredAt(e, h, k, i))
            && (h[i].Observed? ==>
                  && t.time == Some(h[i].t.monotonicMs)
                  && t.triggerMs == h[i].p.triggerMs && t.recoveryMs == h[i].p.recoveryMs)
  {}

  /** A recovery comes at least the recovery time after the raise it follows. */
  lemma RecoveryTakesTime(e: EngineState, h: seq<Input>, k: Kind, i: nat, j: nat)
    requires Filed(e) && k.Software? && Steady(h)
    requires RaisedAt(e, h, k, i) && RecoveredAt(e, h, k, j) && i < j
    ensures h[i].t.monotonicMs + h[j].p.recoveryMs <= h[j].t.monotonicMs
  {
    RunIsTimeline(e, h, k);
    TickAt(e, h, k, i);
    TickAt(e, h, k, j);
    RecoveryGap(Moments(e, h, k), Ticks(e, h, k), i, j);
  }

  /** A raise comes at least the trigger time after the recovery it follows. */
  lemma RaiseTakesTime(e: EngineState, h: seq<Input>, k: Kind, i: nat, j: nat)
    requires Filed(e) && k.Software? && Steady(h)
    requires RecoveredAt(e, h, k, i) && RaisedAt(e, h, k, j) && i < j
    ensures h[i].t.monotonicMs + h[j].p.triggerMs <= h[j].t.monotonicMs
  {
    RunIsTimeline(e, h, k);
    TickAt(e, h, k, i);
    TickAt(e, h, k, j);
    RaiseGap(Moments(e, h, k), Ticks(e, h, k), i, j);
  }

  /** Two raises of one software kind have a recovery between them and lie at least a second apart. */
  lemma RaisesAreSpaced(e: EngineState, h: seq<Input>, k: Kind, i: nat, j: nat)
    requires Filed(e) && k.Software? && Steady(h) && Validated(h)
    requires RaisedAt(e, h, k, i) && RaisedAt(e, h, k, j) && i < j
    ensures exists m :: i < m < j && RecoveredAt(e, h, k, m)
    ensures h[i].t.monotonicMs + 1000 <= h[j].t.monotonicMs
  {
    var m := RecoveryBetween(e, h, k, i, j);
    RecoveryTakesTime(e, h, k, i, m);
    RaiseTakesTime(e, h, k, m, j);
  }

  lemma RecoveryBetween(e: EngineState, h: seq<Input>, k: Kind, i: nat, j: nat) returns (m: nat)
    requires Filed(e) && k.Software? && Steady(h)
    requires RaisedAt(e, h, k, i) && RaisedAt(e, h, k, j) && i < j
    ensures i < m < j && RecoveredAt(e, h, k, m)
  {
    RunIsTimeline(e, h, k);
    TickAt(e, h, k, i);
    TickAt(e, h, k, j);
    m := RecoveredBetween(Moments(e, h, k), Ticks(e, h, k), i, j);
    TickAt(e, h, k, m);
  }

  /** At which steps the kind is raised, and the boot-time clock of each step, zero where nothing was observed. */
  ghost function RaiseMarks(e: EngineState, h: seq<Input>, k: Kind): seq<bool> {
    seq(|h|, i requires 0 <= i < |h| => RaisedAt(e, h, k, i))
  }

  function Times(h: seq<Input>): seq<nat> {
    seq(|h|, i requires 0 <= i < |h| => if h[i].Observed? then h[i].t.monotonicMs else 0)
  }

  /** How many marks there are at positions from `from` up to but not including n. */
  function Count(marks: seq<bool>, from: nat, n: nat): nat
    requires n <= |marks|
  {
    if n <= from then 0 else Count(marks, from, n - 1) + (if marks[n - 1] then 1 else 0)
  }

  ghost predicate SecondApart(marks: seq<bool>, times: seq<nat>) {
    |marks| == |times| && forall i, j :: 0 <= i < j < |marks| && marks[i] && marks[j] ==> times[i] + 1000 <= times[j]
  }

  lemma {:induction false} CountSpan(marks: seq<bool>, times: seq<nat>, from: nat, n: nat)
      returns (first: nat, last: nat)
    requires SecondApart(marks, times) && n <= |marks| && Count(marks, from, n) > 0
    ensures from <= first <= last < n && marks[first] && marks[last]
    ensures 1000 * (Count(marks, from, n) - 1) <= times[last] - times[first]
    decreases n
  {
    if Count(marks, from, n - 1) == 0 {
      first, last := n - 1, n - 1;
    } else {
      first, last := CountSpan(marks, times, from, n - 1);
      if marks[n - 1] { last := n - 1; }
    }
  }

  /** One software kind raises at most 1 + T/1000 incidents within T milliseconds. */
  lemma RaiseRateBounded(e: EngineState, h: seq<Input>, k: Kind, from: nat, n: nat, span: nat)
    requires Filed(e) && k.Software? && Steady(h) && Validated(h) && n <= |h|
    requires forall i, j :: from <= i < j < n && h[i].Observed? && h[j].Observed? ==>
               h[j].t.monotonicMs - h[i].t.monotonicMs <= span
    ensures Count(RaiseMarks(e, h, k), from, n) <= 1 + span / 1000
  {
    var marks, times := RaiseMarks(e, h, k), Times(h);
    if Count(marks, from, n) > 0 {
      assert SecondApart(marks, times) by { RaisesSecondApart(e, h, k); }
      var first, last := CountSpan(marks, times, from, n);
      assert RaisedAt(e, h, k, first) && RaisedAt(e, h, k, last);
    }
  }

  lemma RaisesSecondApart(e: EngineState, h: seq<Input>, k: Kind)
    requires Filed(e) && k.Software? && Steady(h) && Validated(h)
    ensures SecondApart(RaiseMarks(e, h, k), Times(h))
  {
    forall i, j | 0 <= i < j < |h| && RaisedAt(e, h, k, i) && RaisedAt(e, h, k, j)
      ensures Times(h)[i] + 1000 <= Times(h)[j]
    {
      RaisesAreSpaced(e, h, k, i, j);
    }
  }
}
