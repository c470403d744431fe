/** The alarm state machine: one sample against the active, pending and recovering maps. */
module Alerts {
  import opened Wrappers
  import opened Telemetry
  import opened Measurements

  datatype Policy = Policy(
    imbalanceEnabled: bool,
    minimumConnectorMa: int,
    deviationPercent: nat,
    clearDeviationPercent: nat,
    minimumSpreadMa: int,
    triggerMs: nat,
    recoveryMs: nat)

  predicate ValidPolicy(p: Policy) {
    && 1000 <= p.minimumConnectorMa <= 100_000
    && 1 <= p.deviationPercent <= 500 && p.clearDeviationPercent < p.deviationPercent
    && 1 <= p.minimumSpreadMa <= 20_000
    && 500 <= p.triggerMs <= 60_000 && 500 <= p.recoveryMs <= 60_000
  }

  /** Hardware(i) is alarm byte i; connectors count from zero. */
  datatype Kind = Hardware(alarm: nat) | Safeguard(connector: nat) | Software(connector: nat) | Monitoring

  datatype Incident = Incident(
    id: nat,
    device: string,
    kind: Kind,
    startedAtMs: int,
    recoveredAtMs: Option<int>,
    acknowledgedAtMs: Option<int>,
    policy: Option<Policy>,
    trigger: Sample)

  /** nextId stands for the supply of fresh identifiers. */
  datatype EngineState = EngineState(
    active: map<Kind, Incident>,
    pending: map<Kind, nat>,
    recovering: map<Kind, nat>,
    last: Option<(string, nat)>,
    nextId: nat)

  // ---------------------------------------------------------------- conditions

  datatype Condition = Condition(asserted: bool, clear: bool)

  const ALARMS := 18

  /** The alarm bytes in the order of their names, which is the order the conditions are visited in. */
  const ALARM_ORDER: seq<nat> := [3, 4, 5, 6, 7, 8, 9, 10, 11, 12, 13, 14, 17, 0, 2, 1, 15, 16]

  predicate AlarmsValid(t: Sample) {
    |t.alertsRaw| == ALARMS && !exists i :: 0 <= i < |t.groupErrors| && "hardware_alerts" <= t.groupErrors[i]
  }

  function SoftwareCondition(c: Conductors, p: Policy): Condition {
    var r := ImbalanceOf(c);
    var loaded := Sum(c) >= p.minimumConnectorMa;
    Condition(p.imbalanceEnabled && loaded && r.spreadMa >= p.minimumSpreadMa &&
              r.deviationPercent >= p.deviationPercent,
              !p.imbalanceEnabled || !loaded || r.deviationPercent <= p.clearDeviationPercent ||
              r.spreadMa < p.minimumSpreadMa)
  }

  /** What a sample reports of one kind, if it reports it at all. */
  function Report(t: Sample, p: Policy, k: Kind): Option<Condition> {
    match k
    case Hardware(i) => if AlarmsValid(t) && i < ALARMS then Some(Condition(t.alertsRaw[i] != 0, true)) else None
    case Safeguard(c) => if c < |t.safeguards| then Some(Condition(t.safeguards[c] != 0, true)) else None
    case Software(c) => if c < |t.connectors| then Some(SoftwareCondition(t.connectors[c], p)) else None
    case Monitoring => None
  }

  /** The kinds a sample reports, in visiting order. */
  function Kinds(t: Sample): seq<Kind> {
    (if AlarmsValid(t) then seq(ALARMS, i requires 0 <= i < ALARMS => Hardware(ALARM_ORDER[i])) else [])
    + seq(|t.safeguards|, i requires 0 <= i < |t.safeguards| => Safeguard(i))
    + seq(|t.connectors|, i requires 0 <= i < |t.connectors| => Software(i))
  }

  // ---------------------------------------------------------------- one step

  function Raised(t: Sample, p: Policy, k: Kind, id: nat): Incident {
    Incident(id, t.device, k, t.capturedMs, None, None, if k.Software? then Some(p) else None, t)
  }

  function Closed(i: Incident, at: int): Incident { i.(recoveredAtMs := Some(at)) }

  /** One visited condition. */
  function Visit(e: EngineState, t: Sample, p: Policy, k: Kind, c: Condition): (EngineState, seq<Incident>) {
    var now, hardware := t.monotonicMs, !k.Software?;
    if c.asserted then
      var start := if k in e.pending then e.pending[k] else now;
      var e1 := e.(recovering := e.recovering - {k}, pending := e.pending[k := start]);
      if (hardware || SaturatingSub(now, start) >= p.triggerMs) && k !in e.active then
        var event := Raised(t, p, k, e.nextId);
        (e1.(active := e1.active[k := event], nextId := e1.nextId + 1), [event])
      else (e1, [])
    else
      var e1 := e.(pending := e.pending - {k});
      if c.clear then
        var at := if k in e.recovering then e.recovering[k] else now;
        if hardware || SaturatingSub(now, at) >= p.recoveryMs then
          (e1.(active := e.active - {k}, recovering := e.recovering - {k}),
           if k in e.active then [Closed(e.active[k], t.capturedMs)] else [])
        else (e1.(recovering := e.recovering[k := at]), [])
      else (e1.(recovering := e.recovering - {k}), [])
  }

  function VisitAll(e: EngineState, t: Sample, p: Policy, ks: seq<Kind>): (EngineState, seq<Incident>)
    requires forall i :: 0 <= i < |ks| ==> Report(t, p, ks[i]).Some?
  {
    if ks == [] then (e, []) else
      var (e1, before) := VisitAll(e, t, p, ks[..|ks| - 1]);
      var (e2, last) := Visit(e1, t, p, ks[|ks| - 1], Report(t, p, ks[|ks| - 1]).value);
      (e2, before + last)
  }

  lemma VisitAllSnoc(e: EngineState, t: Sample, p: Policy, ks: seq<Kind>, n: nat)
    requires n < |ks|
    requires forall i :: 0 <= i < |ks| ==> Report(t, p, ks[i]).Some?
    ensures var (mid, before) := VisitAll(e, t, p, ks[..n]);
            var (after, last) := Visit(mid, t, p, ks[n], Report(t, p, ks[n]).value);
            VisitAll(e, t, p, ks[..n + 1]) == (after, before + last)
  {
    assert ks[..n + 1][..n] == ks[..n];
  }

  predicate Interrupted(e: EngineState, t: Sample, maxGapMs: nat) {
    e.last.None? || e.last.value.0 != t.session || SaturatingSub(t.monotonicMs, e.last.value.1) > maxGapMs
  }

  /** A new session or a gap forgets the timers, and any sample closes the monitoring incident. */
  function Begin(e: EngineState, t: Sample, maxGapMs: nat): EngineState {
    var reset := Interrupted(e, t, maxGapMs);
    EngineState(e.active - {Monitoring}, if reset then map[] else e.pending, if reset then map[] else e.recovering,
                Some((t.session, t.monotonicMs)), e.nextId)
  }

  function Restored(e: EngineState, t: Sample): seq<Incident> {
    if Monitoring in e.active then [Closed(e.active[Monitoring], t.capturedMs)] else []
  }

  lemma KindsAreReported(t: Sample, p: Policy)
    ensures forall i :: 0 <= i < |Kinds(t)| ==> Report(t, p, Kinds(t)[i]).Some?
  {}

  function Observe(e: EngineState, t: Sample, p: Policy, maxGapMs: nat): (EngineState, seq<Incident>) {
    KindsAreReported(t, p);
    var (after, events) := VisitAll(Begin(e, t, maxGapMs), t, p, Kinds(t));
    (after, Restored(e, t) + events)
  }

  function MonitoringLost(e: EngineState, last: Sample, at: int): (EngineState, seq<Incident>) {
    var quiet := e.(pending := map[], recovering := map[]);
    if Monitoring in e.active then (quiet, []) else
      var event := Incident(e.nextId, last.device, Monitoring, at, None, None, None, last);
      (quiet.(active := e.active[Monitoring := event], nextId := e.nextId + 1), [event])
  }

  // ---------------------------------------------------------------- one kind at a time

  /** What the engine remembers of one kind. */
  datatype Cell = Cell(active: Option<Incident>, pending: Option<nat>, recovering: Option<nat>)

  function Lookup<K, V>(m: map<K, V>, k: K): Option<V> { if k in m then Some(m[k]) else None }

  function CellOf(e: EngineState, k: Kind): Cell {
    Cell(Lookup(e.active, k), Lookup(e.pending, k), Lookup(e.recovering, k))
  }

  /** The events of one kind within a log. */
  function Of(events: seq<Incident>, k: Kind): seq<Incident> {
    if events == [] then [] else
      Of(events[..|events| - 1], k) + (if events[|events| - 1].kind == k then [events[|events| - 1]] else [])
  }

  lemma {:induction false} OfConcat(a: seq<Incident>, b: seq<Incident>, k: Kind)
    ensures Of(a + b, k) == Of(a, k) + Of(b, k)
  {
    if b == [] {
      assert a + b == a;
    } else {
      assert (a + b)[..|a + b| - 1] == a + b[..|b| - 1];
      OfConcat(a, b[..|b| - 1], k);
    }
  }

  /** Each stored incident is filed under its own kind. */
  ghost predicate Filed(e: EngineState) { forall k :: k in e.active ==> e.active[k].kind == k }

  lemma VisitSparesOthers(e: EngineState, t: Sample, p: Policy, v: Kind, c: Condition, k: Kind)
    requires k != v
    ensures CellOf(Visit(e, t, p, v, c).0, k) == CellOf(e, k)
  {}

  /** A visit of one kind leaves what is remembered of the others, and its events are of that kind. */
  lemma VisitIsLocal(e: EngineState, t: Sample, p: Policy, v: Kind, c: Condition, k: Kind)
    requires Filed(e)
    ensures var (after, events) := Visit(e, t, p, v, c);
            && Filed(after)
            && e.nextId <= after.nextId
            && |events| <= 1 && (events != [] ==> events[0].kind == v)
            && (k != v ==> CellOf(after, k) == CellOf(e, k) && Of(events, k) == [])
            && Of(events, v) == events
  {
    if k != v { VisitSparesOthers(e, t, p, v, c, k); }
  }

  ghost predicate Distinct(ks: seq<Kind>) { forall i, j :: 0 <= i < j < |ks| ==> ks[i] != ks[j] }

  lemma KindsAreDistinct(t: Sample)
    ensures Distinct(Kinds(t))
  {
    assert forall i, j :: 0 <= i < j < ALARMS ==> ALARM_ORDER[i] != ALARM_ORDER[j];
  }

  lemma KindsAreComplete(t: Sample, p: Policy, k: Kind)
    ensures k in Kinds(t) <==> Report(t, p, k).Some?
  {
    KindsAreReported(t, p);
    if Report(t, p, k).Some? {
      var hw := if AlarmsValid(t) then ALARMS else 0;
      match k
      case Hardware(i) =>
        assert i in ALARM_ORDER;
        var j :| 0 <= j < ALARMS && ALARM_ORDER[j] == i;
        assert Kinds(t)[j] == k;
      case Safeguard(c) => assert Kinds(t)[hw + c] == k;
      case Software(c) => assert Kinds(t)[hw + |t.safeguards| + c] == k;
    }
  }

  /** What visiting the kinds ks has made of kind k. */
  ghost predicate ByKind(e: EngineState, t: Sample, p: Policy, ks: seq<Kind>, k: Kind, after: EngineState,
                         events: seq<Incident>) {
    && Filed(after) && e.nextId <= after.nextId && after.last == e.last
    && (k !in ks ==> CellOf(after, k) == CellOf(e, k) && Of(events, k) == [])
    && (k in ks ==> exists m :: Treated(e, t, p, k, m, after, events))
  }

  /** Visiting distinct kinds treats each visited kind once, from its own cell, and leaves the rest alone. */
  lemma {:induction false} VisitAllByKind(e: EngineState, t: Sample, p: Policy, ks: seq<Kind>, k: Kind)
    requires Filed(e) && Distinct(ks)
    requires forall i :: 0 <= i < |ks| ==> Report(t, p, ks[i]).Some?
    ensures ByKind(e, t, p, ks, k, VisitAll(e, t, p, ks).0, VisitAll(e, t, p, ks).1)
  {
    if ks == [] {
    } else {
      var before, v := ks[..|ks| - 1], ks[|ks| - 1];
      VisitAllByKind(e, t, p, before, k);
      var (mid, first) := VisitAll(e, t, p, before);
      ByKindNext(e, t, p, before, v, k, mid, first);
      assert ks == before + [v];
    }
  }

  lemma ByKindNext(e: EngineState, t: Sample, p: Policy, before: seq<Kind>, v: Kind, k: Kind, mid: EngineState,
                   first: seq<Incident>)
    requires Report(t, p, v).Some? && v !in before && ByKind(e, t, p, before, k, mid, first)
    ensures var (after, last) := Visit(mid, t, p, v, Report(t, p, v).value);
            ByKind(e, t, p, before + [v], k, after, first + last)
  {
    var c := Report(t, p, v).value;
    var (after, last) := Visit(mid, t, p, v, c);
    VisitIsLocal(mid, t, p, v, c, k);
    OfConcat(first, last, k);
    if k == v {
      assert Treated(e, t, p, k, mid, after, first + last);
    } else if k in before {
      var m :| Treated(e, t, p, k, m, mid, first);
      assert Treated(e, t, p, k, m, after, first + last);
    }
  }

  /** `after` and `events` hold of kind k what one visit of k makes of a state that remembers k as e does. */
  ghost predicate Treated(e: EngineState, t: Sample, p: Policy, k: Kind, m: EngineState, after: EngineState,
      events: seq<Incident>) {
    && Filed(m) && CellOf(m, k) == CellOf(e, k) && Report(t, p, k).Some?
    && var (one, of) := Visit(m, t, p, k, Report(t, p, k).value);
       CellOf(after, k) == CellOf(one, k) && Of(events, k) == of
  }

  /** One observation, kind by kind: reported kinds are visited once, the others keep what Begin left them. */
  lemma ObserveByKind(e: EngineState, t: Sample, p: Policy, maxGapMs: nat, k: Kind)
    requires Filed(e)
    ensures var (after, events) := Observe(e, t, p, maxGapMs); var b := Begin(e, t, maxGapMs);
            && Filed(after) && Filed(b) && e.nextId <= after.nextId && after.last == Some((t.session, t.monotonicMs))
            && (Report(t, p, k).None? ==>
                  CellOf(after, k) == CellOf(b, k) && Of(events, k) == (if k == Monitoring then Restored(e, t) else []))
            && (Report(t, p, k).Some? ==> exists m :: Treated(b, t, p, k, m, after, events))
  {
    KindsAreReported(t, p);
    KindsAreDistinct(t);
    KindsAreComplete(t, p, k);
    var b := Begin(e, t, maxGapMs);
    VisitAllByKind(b, t, p, Kinds(t), k);
    var (after, events) := VisitAll(b, t, p, Kinds(t));
    OfConcat(Restored(e, t), events, k);
    if Report(t, p, k).Some? {
      var m :| Treated(b, t, p, k, m, after, events);
      assert Restored(e, t) + events == Observe(e, t, p, maxGapMs).1;
      assert Treated(b, t, p, k, m, after, Restored(e, t) + events);
    }
  }

  /** One observation emits at most one event of each kind. */
  lemma AtMostOneEventPerKind(e: EngineState, t: Sample, p: Policy, maxGapMs: nat, k: Kind)
    requires Filed(e)
    ensures |Of(Observe(e, t, p, maxGapMs).1, k)| <= 1
  {
    ObserveByKind(e, t, p, maxGapMs, k);
    var (after, events) := Observe(e, t, p, maxGapMs);
    if Report(t, p, k).Some? {
      var m :| Treated(Begin(e, t, maxGapMs), t, p, k, m, after, events);
      VisitIsLocal(m, t, p, k, Report(t, p, k).value, k);
    }
  }

  // ---------------------------------------------------------------- hardware alarms

  /** The alarm group is there in full and no error of the sample begins with its name. */
  ghost predicate GroupRead(t: Sample) {
    |t.alertsRaw| == 18 && !exists x :: x in t.groupErrors && "hardware_alerts" <= x
  }

  /** Any sample ends the loss of monitoring, and reports that once, at its capture time. */
  lemma SampleEndsLoss(e: EngineState, t: Sample, p: Policy, maxGapMs: nat)
    requires Filed(e)
    ensures var (after, events) := Observe(e, t, p, maxGapMs);
            && Monitoring !in after.active
            && (Monitoring !in e.active ==> Of(events, Monitoring) == [])
            && (Monitoring in e.active ==>
                  Of(events, Monitoring) == [e.active[Monitoring].(recoveredAtMs := Some(t.capturedMs))])
  {
    ObserveByKind(e, t, p, maxGapMs, Monitoring);
    var after := Observe(e, t, p, maxGapMs).0;
    assert CellOf(after, Monitoring).active.None?;
  }

  /**
   * From any state: after a sample with a valid alarm group a hardware incident is active exactly when its byte is
   * non-zero; a sample without one leaves every hardware incident as it was.
   */
  lemma HardwareFollowsItsByte(e: EngineState, t: Sample, p: Policy, maxGapMs: nat, i: nat)
    requires Filed(e)
    ensures var after := Observe(e, t, p, maxGapMs).0;
            if GroupRead(t) && i < 18 then (Hardware(i) in after.active <==> t.alertsRaw[i] != 0)
            else Lookup(after.active, Hardware(i)) == Lookup(e.active, Hardware(i))
  {
    ReportedIsImmediate(e, t, p, maxGapMs, Hardware(i));
    assert forall j :: 0 <= j < |t.groupErrors| ==> t.groupErrors[j] in t.groupErrors;
  }

  /** A safeguard incident likewise follows its status, and keeps its state while no snapshot is read. */
  lemma SafeguardFollowsItsStatus(e: EngineState, t: Sample, p: Policy, maxGapMs: nat, c: nat)
    requires Filed(e)
    ensures var after := Observe(e, t, p, maxGapMs).0;
            if c < |t.safeguards| then (Safeguard(c) in after.active <==> t.safeguards[c] != 0)
            else Lookup(after.active, Safeguard(c)) == Lookup(e.active, Safeguard(c))
  {
    ReportedIsImmediate(e, t, p, maxGapMs, Safeguard(c));
  }

  /** A report of the hardware takes effect at once; without one nothing changes. */
  lemma ReportedIsImmediate(e: EngineState, t: Sample, p: Policy, maxGapMs: nat, k: Kind)
    requires Filed(e) && (k.Hardware? || k.Safeguard?)
    ensures var after := Observe(e, t, p, maxGapMs).0;
            if Report(t, p, k).Some? then (k in after.active <==> Report(t, p, k).value.asserted)
            else Lookup(after.active, k) == Lookup(e.active, k)
  {
    var b := Begin(e, t, maxGapMs);
    ObserveByKind(e, t, p, maxGapMs, k);
    var (after, events) := Observe(e, t, p, maxGapMs);
    assert CellOf(after, k).active == Lookup(after.active, k);
    if Report(t, p, k).Some? {
      var m :| Treated(b, t, p, k, m, after, events);
      VisitIsImmediate(m, t, p, k, Report(t, p, k).value);
      assert CellOf(Visit(m, t, p, k, Report(t, p, k).value).0, k) == CellOf(after, k);
    } else {
      assert CellOf(b, k).active == Lookup(e.active, k);
    }
  }

  lemma VisitIsImmediate(m: EngineState, t: Sample, p: Policy, k: Kind, c: Condition)
    requires !k.Software? && (c.asserted || c.clear)
    ensures var one := Visit(m, t, p, k, c).0;
            CellOf(one, k).active == Lookup(one.active, k) && (k in one.active <==> c.asserted)
  {}

  // ---------------------------------------------------------------- what is reported and emitted

  /** Some conductor is at least d percent of the mean away from it. */
  ghost predicate Deviates(c: Conductors, d: nat) { exists i: nat :: i < 6 && SixthsOff(c, i) * 100 >= d * Sum(c) }

  /** Some two conductors differ by at least s. */
  ghost predicate Spreads(c: Conductors, s: int) { exists i: nat, j: nat :: i < 6 && j < 6 && c[i] - c[j] >= s }

  /**
   * Under a validated policy a connector is asserted exactly when the rule is on, the connector is loaded, and it both
   * spreads and deviates to the thresholds; and clear exactly when the rule is off, it is not loaded, it does not reach
   * the spread, or it deviates by less than a percent more than the clear threshold.
   */
  lemma ConditionExactly(c: Conductors, p: Policy)
    requires ValidPolicy(p) && forall i :: 0 <= i < 6 ==> c[i] >= 0
    ensures SoftwareCondition(c, p).asserted <==>
            && p.imbalanceEnabled && Sum(c) >= p.minimumConnectorMa
            && Spreads(c, p.minimumSpreadMa) && Deviates(c, p.deviationPercent)
    ensures SoftwareCondition(c, p).clear <==>
            || !p.imbalanceEnabled || Sum(c) < p.minimumConnectorMa
            || !Spreads(c, p.minimumSpreadMa) || !Deviates(c, p.clearDeviationPercent + 1)
  {
    if Sum(c) > 0 {
      ReachesThreshold(c, p.deviationPercent, p.minimumSpreadMa);
      ReachesThreshold(c, p.clearDeviationPercent + 1, p.minimumSpreadMa);
    }
  }

  /** What an incident says of the sample that raised it, or closed it. */
  ghost predicate Describes(i: Incident, t: Sample, p: Policy) {
    if i.recoveredAtMs.None? then
      && i.device == t.device && i.startedAtMs == t.capturedMs && i.acknowledgedAtMs.None? && i.trigger == t
      && i.policy == (if i.kind.Software? then Some(p) else None)
    else i.recoveredAtMs == Some(t.capturedMs)
  }

  ghost predicate AllDescribe(events: seq<Incident>, t: Sample, p: Policy) {
    forall i :: 0 <= i < |events| ==> Describes(events[i], t, p)
  }

  lemma {:induction false} VisitAllDescribes(e: EngineState, t: Sample, p: Policy, ks: seq<Kind>)
    requires forall i :: 0 <= i < |ks| ==> Report(t, p, ks[i]).Some?
    ensures AllDescribe(VisitAll(e, t, p, ks).1, t, p)
  {
    if ks == [] {
    } else {
      var before, v := ks[..|ks| - 1], ks[|ks| - 1];
      VisitAllDescribes(e, t, p, before);
      var (mid, first) := VisitAll(e, t, p, before);
      VisitDescribes(mid, t, p, v, Report(t, p, v).value);
    }
  }

  lemma VisitDescribes(m: EngineState, t: Sample, p: Policy, k: Kind, c: Condition)
    ensures AllDescribe(Visit(m, t, p, k, c).1, t, p)
  {}

  /** Every incident raised by a sample carries its device, time, readings and policy; every one closed, its time. */
  lemma EventsDescribeSample(e: EngineState, t: Sample, p: Policy, maxGapMs: nat)
    ensures AllDescribe(Observe(e, t, p, maxGapMs).1, t, p)
  {
    KindsAreReported(t, p);
    var b := Begin(e, t, maxGapMs);
    VisitAllDescribes(b, t, p, Kinds(t));
    assert Observe(e, t, p, maxGapMs).1 == Restored(e, t) + VisitAll(b, t, p, Kinds(t)).1;
  }

  /** A validated policy never asserts and clears the same connector. */
  lemma NeverAssertedAndClear(c: Conductors, p: Policy)
    requires ValidPolicy(p)
    ensures !(SoftwareCondition(c, p).asserted && SoftwareCondition(c, p).clear)
  {}

  /** For policies in general, a connector can be asserted and clear at once exactly when the two thresholds cross. */
  lemma AssertedAndClearIff(c: Conductors, p: Policy)
    ensures SoftwareCondition(c, p).asserted && SoftwareCondition(c, p).clear <==>
            && p.imbalanceEnabled && Sum(c) >= p.minimumConnectorMa && ImbalanceOf(c).spreadMa >= p.minimumSpreadMa
            && p.deviationPercent <= ImbalanceOf(c).deviationPercent <= p.clearDeviationPercent
  {}

  /** Crossed thresholds, which no validated policy has, and one conductor carrying the whole load. */
  lemma CrossedThresholds()
    ensures var p := Policy(true, 1000, 500, 500, 1, 500, 500); var c := [6000, 0, 0, 0, 0, 0];
            !ValidPolicy(p) && SoftwareCondition(c, p) == Condition(true, true)
  {
    var c := [6000, 0, 0, 0, 0, 0];
    SumOfSix(c);
    DeviationRange(c);
    ExtremesBound(c);
    assert c[0] in c && c[1] == 0;
    assert Sum(c) in c;
  }

  // ---------------------------------------------------------------- the engine

  class AlertEngine {
    var active: map<Kind, Incident>
    var pending: map<Kind, nat>
    var recovering: map<Kind, nat>
    var last: Option<(string, nat)>
    var nextId: nat

    constructor (restored: map<Kind, Incident>, freshId: nat)
      ensures Value() == EngineState(restored, map[], map[], None, freshId)
    {
      active, pending, recovering, last, nextId := restored, map[], map[], None, freshId;
    }

    ghost function Value(): EngineState
      reads this
    {
      EngineState(active, pending, recovering, last, nextId)
    }

    method MonitoringLostAt(lastSample: Sample, at: int) returns (event: Option<Incident>)
      modifies this
      ensures var (after, events) := MonitoringLost(old(Value()), lastSample, at);
              Value() == after && events == (if event.Some? then [event.value] else [])
    {
      pending, recovering := map[], map[];
      if Monitoring in active { return None; }
      var i := Incident(nextId, lastSample.device, Monitoring, at, None, None, None, lastSample);
      active, nextId := active[Monitoring := i], nextId + 1;
      event := Some(i);
    }

    method ObserveSample(t: Sample, p: Policy, maxGapMs: nat) returns (events: seq<Incident>)
      modifies this
      ensures Value() == Observe(old(Value()), t, p, maxGapMs).0
      ensures events == Observe(old(Value()), t, p, maxGapMs).1
    {
      KindsAreReported(t, p);
      var restored := BeginSample(t, maxGapMs);
      ghost var begun := Value();
      var ks := Kinds(t);
      var visited := [];
      for n := 0 to |ks|
        invariant Value() == VisitAll(begun, t, p, ks[..n]).0
        invariant visited == VisitAll(begun, t, p, ks[..n]).1
      {
        VisitAllSnoc(begun, t, p, ks, n);
        var more := VisitKind(t, p, ks[n], Report(t, p, ks[n]).value);
        visited := visited + more;
      }
      assert ks[..|ks|] == ks;
      events := restored + visited;
    }

    method BeginSample(t: Sample, maxGapMs: nat) returns (restored: seq<Incident>)
      modifies this
      ensures Value() == Begin(old(Value()), t, maxGapMs)
      ensures restored == Restored(old(Value()), t)
    {
      if last.None? || last.value.0 != t.session || SaturatingSub(t.monotonicMs, last.value.1) > maxGapMs {
        pending, recovering := map[], map[];
      }
      last := Some((t.session, t.monotonicMs));
      restored := [];
      if Monitoring in active {
        restored := [active[Monitoring].(recoveredAtMs := Some(t.capturedMs))];
      }
      active := active - {Monitoring};
    }

    method VisitKind(t: Sample, p: Policy, k: Kind, c: Condition) returns (events: seq<Incident>)
      modifies this
      ensures (Value(), events) == Visit(old(Value()), t, p, k, c)
    {
      events := [];
      var hardware := !k.Software?;
      if c.asserted {
        recovering := recovering - {k};
        if k !in pending { pending := pending[k := t.monotonicMs]; }
        var start := pending[k];
        assert pending == old(pending)[k := start];
        if (hardware || SaturatingSub(t.monotonicMs, start) >= p.triggerMs) && k !in active {
          var event := Raised(t, p, k, nextId);
          active, nextId := active[k := event], nextId + 1;
          events := [event];
        }
      } else {
        pending := pending - {k};
        if c.clear {
          if k !in recovering { recovering := recovering[k := t.monotonicMs]; }
          var at := recovering[k];
          if hardware || SaturatingSub(t.monotonicMs, at) >= p.recoveryMs {
            if k in active {
              events := [active[k].(recoveredAtMs := Some(t.capturedMs))];
              active := active - {k};
            }
            recovering := recovering - {k};
            assert active == old(active) - {k} && recovering == old(recovering) - {k};
          } else {
            assert recovering == old(recovering)[k := at];
          }
        } else {
          recovering := recovering - {k};
        }
      }
    }
  }
}
