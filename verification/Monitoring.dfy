/** One cycle of the monitor thread: observe, open evidence windows, bound the backlog, hand a batch to storage. */
module Monitoring {
  import opened Wrappers
  import opened Telemetry
  import opened Alerts
  import opened Storage

  const MAX_PENDING_EVENTS := 256
  const MAX_PENDING_EVIDENCE := 2048
  const MAX_EVIDENCE_WINDOWS := 32
  const RING_MS := 60_000
  const AFTER_TRIGGER_MS := 120_000

  /** An incident that is still collecting readings. */
  datatype Window = Window(incident: nat, untilMs: nat)

  datatype Monitor = Monitor(
    engine: EngineState,
    session: string,
    sequence: nat,
    ring: seq<Sample>,
    windows: seq<Window>,
    pendingEvents: seq<Incident>,
    pendingExhibits: seq<Exhibit>,
    telemetry: Option<Sample>,
    droppedSamples: nat,
    droppedEvents: nat,
    droppedExhibits: nat,
    truncated: nat)

  /** A cycle: the next state, what the engine and the windows emitted, and the batch that storage took. */
  datatype Cycle = Cycle(next: Monitor, events: seq<Incident>, exhibits: seq<Exhibit>, evicted: seq<nat>,
    sent: Option<Batch>)

  // ---------------------------------------------------------------- evidence

  /** Opens a window for each raise; a full list loses its oldest. Returns the windows and the evicted incidents. */
  function OpenWindows(ws: seq<Window>, events: seq<Incident>, now: nat): (seq<Window>, seq<nat>) {
    if events == [] then (ws, []) else
      var (w, out) := OpenWindows(ws, events[..|events| - 1], now);
      var e := events[|events| - 1];
      if e.recoveredAtMs.Some? then (w, out)
      else
        var opening := Window(e.id, now + AFTER_TRIGGER_MS);
        if |w| == MAX_EVIDENCE_WINDOWS then (w[1..] + [opening], out + [w[0].incident]) else (w + [opening], out)
  }

  function FileUnder(id: nat, samples: seq<Sample>): seq<Exhibit> {
    seq(|samples|, i requires 0 <= i < |samples| => Exhibit(id, samples[i]))
  }

  /** The ring, filed under each raised incident. */
  function PreTrigger(ring: seq<Sample>, events: seq<Incident>): seq<Exhibit> {
    if events == [] then [] else
      var e := events[|events| - 1];
      PreTrigger(ring, events[..|events| - 1]) + (if e.recoveredAtMs.None? then FileUnder(e.id, ring) else [])
  }

  function KeepOpen(ws: seq<Window>, now: nat): seq<Window> {
    if ws == [] then [] else
      KeepOpen(ws[..|ws| - 1], now) + (if now <= ws[|ws| - 1].untilMs then [ws[|ws| - 1]] else [])
  }

  function Readings(ws: seq<Window>, t: Sample): seq<Exhibit> {
    seq(|ws|, i requires 0 <= i < |ws| => Exhibit(ws[i].incident, t))
  }

  /** Readings leave the ring from the front once they are more than a minute older than the newest. */
  function DropOld(ring: seq<Sample>, now: nat): seq<Sample> {
    if ring != [] && SaturatingSub(now, ring[0].monotonicMs) > RING_MS then DropOld(ring[1..], now) else ring
  }

  // ---------------------------------------------------------------- acknowledgements, bounds

  /** Copies the acknowledgements of the shared snapshot onto the active incidents they name. */
  function SyncAcks(e: EngineState, acks: map<nat, Option<int>>): EngineState {
    e.(active := map k | k in e.active :: WithAck(e.active[k], acks))
  }

  function WithAck(i: Incident, acks: map<nat, Option<int>>): Incident {
    if i.id in acks then i.(acknowledgedAtMs := acks[i.id]) else i
  }

  function Excess(length: nat, limit: nat): nat { SaturatingSub(length, limit) }

  /** Hands over the backlog with a sample, or keeps it when the queue is full. */
  function Offer(m: Monitor, t: Sample, full: bool): (Monitor, Option<Batch>) {
    if full then (m, None)
    else (m.(pendingEvents := [], pendingExhibits := []), Some(Batch(t, m.pendingEvents, m.pendingExhibits)))
  }

  function Stamped(m: Monitor, raw: Sample): Sample { raw.(session := m.session, sequence := m.sequence) }

  // ---------------------------------------------------------------- cycles

  /** The evidence windows after this sample's raises, and the incidents whose windows were evicted for them. */
  function WindowsAfter(m: Monitor, t: Sample, events: seq<Incident>): seq<Window> {
    KeepOpen(OpenWindows(m.windows, events, t.monotonicMs).0, t.monotonicMs)
  }

  function EvictedBy(m: Monitor, t: Sample, events: seq<Incident>): seq<nat> {
    OpenWindows(m.windows, events, t.monotonicMs).1
  }

  function ExhibitsOf(m: Monitor, t: Sample, events: seq<Incident>): seq<Exhibit> {
    PreTrigger(m.ring, events) + Readings(WindowsAfter(m, t, events), t)
  }

  /** Takes this sample's events and readings into the ring, the windows and the bounded backlog. */
  function Absorb(m: Monitor, t: Sample, events: seq<Incident>): Monitor {
    var backlog, evidence := m.pendingEvents + events, m.pendingExhibits + ExhibitsOf(m, t, events);
    var lostEvents, lostExhibits := Excess(|backlog|, MAX_PENDING_EVENTS), Excess(|evidence|, MAX_PENDING_EVIDENCE);
    m.(ring := DropOld(m.ring + [t], t.monotonicMs),
       windows := WindowsAfter(m, t, events),
       pendingEvents := backlog[lostEvents..],
       pendingExhibits := evidence[lostExhibits..],
       droppedEvents := m.droppedEvents + lostEvents,
       droppedExhibits := m.droppedExhibits + lostExhibits,
       truncated := m.truncated + |EvictedBy(m, t, events)|)
  }

  function Seen(m: Monitor, t: Sample, full: bool): Monitor {
    m.(telemetry := Some(t), sequence := m.sequence + 1, droppedSamples := m.droppedSamples + (if full then 1 else 0))
  }

  function SampleCycle(m: Monitor, raw: Sample, p: Policy, acks: map<nat, Option<int>>, full: bool): Cycle {
    var t := Stamped(m, raw);
    var (engine, events) := Observe(SyncAcks(m.engine, acks), t, p, MAX_GAP_MS);
    var (next, sent) := Offer(Absorb(m.(engine := engine), t, events), t, full);
    Cycle(Seen(next, t, full), events, ExhibitsOf(m, t, events), EvictedBy(m, t, events), sent)
  }

  /** A failed reading; before the first successful one there is nothing to report. */
  function LostCycle(m: Monitor, at: int, full: bool): Cycle {
    if m.telemetry.None? then Cycle(m.(sequence := m.sequence + 1), [], [], [], None) else
      var last := m.telemetry.value;
      var (engine, events) := MonitoringLost(m.engine, last, at);
      var exhibits := PreTrigger(m.ring, events);
      var (next, sent) := Offer(m.(engine := engine, pendingEvents := m.pendingEvents + events,
                                   pendingExhibits := m.pendingExhibits + exhibits), last, full);
      Cycle(next.(sequence := m.sequence + 1), events, exhibits, [], sent)
  }

  /** The device was opened again: a new session, and an empty ring. */
  function Reopen(m: Monitor, session: string): Monitor { m.(session := session, ring := []) }

  /** A freshly started process with these incidents restored. */
  function Boot(restored: map<Kind, Incident>, freshId: nat, session: string): Monitor {
    Monitor(EngineState(restored, map[], map[], None, freshId), session, 0, [], [], [], [], None, 0, 0, 0, 0)
  }

  // ---------------------------------------------------------------- what a cycle hands over

  /** The newest of a sequence, up to a limit. */
  function Newest<T>(xs: seq<T>, limit: nat): seq<T> { if |xs| <= limit then xs else xs[|xs| - limit..] }

  /** The reading as it came, but of the given session and number. */
  ghost predicate Numbered(t: Sample, raw: Sample, session: string, sequence: nat) {
    && t.session == session && t.sequence == sequence
    && t.device == raw.device && t.capturedMs == raw.capturedMs && t.monotonicMs == raw.monotonicMs
    && t.powerUw == raw.powerUw && t.efficiencyMillipercent == raw.efficiencyMillipercent
    && t.connectors == raw.connectors && t.alertsRaw == raw.alertsRaw && t.safeguards == raw.safeguards
    && t.groupErrors == raw.groupErrors
  }

  /** Where a backlog goes: with the batch if the queue takes it, and back to the monitor if not. */
  ghost predicate Goes(c: Cycle, t: Sample, events: seq<Incident>, exhibits: seq<Exhibit>, full: bool) {
    if full then c.sent.None? && c.next.pendingEvents == events && c.next.pendingExhibits == exhibits
    else c.sent == Some(Batch(t, events, exhibits)) && c.next.pendingEvents == [] && c.next.pendingExhibits == []
  }

  /**
   * A reading is shown, put last in the ring and offered to storage under the monitor's session and the next number,
   * with the newest 256 updates and 2048 evidence readings of the backlog; what is beyond them is counted as lost, and
   * so is the reading if the queue is full.
   */
  lemma ReadingIsHandedOver(m: Monitor, raw: Sample, p: Policy, acks: map<nat, Option<int>>, full: bool)
      returns (t: Sample)
    ensures Numbered(t, raw, m.session, m.sequence)
    ensures var c := SampleCycle(m, raw, p, acks, full);
            && c.next.telemetry == Some(t) && c.next.session == m.session && c.next.sequence == m.sequence + 1
            && c.next.ring != [] && c.next.ring[|c.next.ring| - 1] == t
            && Goes(c, t, Newest(m.pendingEvents + c.events, 256), Newest(m.pendingExhibits + c.exhibits, 2048), full)
            && c.next.droppedEvents == m.droppedEvents + Max(0, |m.pendingEvents| + |c.events| - 256)
            && c.next.droppedExhibits == m.droppedExhibits + Max(0, |m.pendingExhibits| + |c.exhibits| - 2048)
            && c.next.droppedSamples == m.droppedSamples + (if full then 1 else 0)
  {
    t := Stamped(m, raw);
    NewestStays(m.ring, t, t.monotonicMs);
  }

  lemma {:induction false} NewestStays(ring: seq<Sample>, t: Sample, now: nat)
    requires t.monotonicMs == now
    ensures var kept := DropOld(ring + [t], now); kept != [] && kept[|kept| - 1] == t
  {
    if ring == [] {
    } else {
      assert (ring + [t])[1..] == ring[1..] + [t];
      NewestStays(ring[1..], t, now);
    }
  }

  /**
   * A failed reading after a first success: unless monitoring was already lost, one incident is raised, at the time of
   * the failure, and every reading of the ring filed under it; the last reading is offered again with the whole
   * backlog, nothing is lost, and no other incident changes.
   */
  lemma LossIsHandedOver(m: Monitor, at: int, full: bool)
    requires m.telemetry.Some?
    ensures var c, last := LostCycle(m, at, full), m.telemetry.value;
            && Goes(c, last, m.pendingEvents + c.events, m.pendingExhibits + c.exhibits, full)
            && c.next.telemetry == m.telemetry && c.next.sequence == m.sequence + 1 && c.next.ring == m.ring
            && c.next.droppedEvents == m.droppedEvents && c.next.droppedExhibits == m.droppedExhibits
            && (Monitoring in m.engine.active ==> c.events == [] && c.exhibits == [])
            && (Monitoring !in m.engine.active ==>
                  && |c.events| == 1 && c.events[0].kind == Monitoring && c.events[0].id == m.engine.nextId
                  && c.events[0].device == last.device && c.events[0].startedAtMs == at
                  && c.events[0].recoveredAtMs.None? && c.events[0].acknowledgedAtMs.None?
                  && c.next.engine.active == m.engine.active[Monitoring := c.events[0]]
                  && |c.exhibits| == |m.ring|
                  && forall i :: 0 <= i < |m.ring| ==> c.exhibits[i] == Exhibit(m.engine.nextId, m.ring[i]))
  {
    var events := MonitoringLost(m.engine, m.telemetry.value, at).1;
    assert PreTrigger(m.ring, []) == [];
    if events != [] {
      assert events[..0] == [];
      assert PreTrigger(m.ring, events) == FileUnder(m.engine.nextId, m.ring);
    }
  }

  /** An active incident takes over the acknowledgement of its own id and nothing else; no other is touched. */
  lemma AcksAreCopied(e: EngineState, acks: map<nat, Option<int>>, k: Kind)
    ensures var after := SyncAcks(e, acks);
            && (k in after.active <==> k in e.active)
            && (k in e.active && e.active[k].id !in acks ==> after.active[k] == e.active[k])
            && (k in e.active && e.active[k].id in acks ==>
                  after.active[k].acknowledgedAtMs == acks[e.active[k].id] &&
                  after.active[k].(acknowledgedAtMs := None) == e.active[k].(acknowledgedAtMs := None))
            && after.pending == e.pending && after.recovering == e.recovering && after.nextId == e.nextId
  {}

  // ---------------------------------------------------------------- the thread

  class MonitorThread {
    const engine: AlertEngine
    var session: string
    var sequence: nat
    var ring: seq<Sample>
    var windows: seq<Window>
    var pendingEvents: seq<Incident>
    var pendingExhibits: seq<Exhibit>
    var telemetry: Option<Sample>
    var droppedSamples: nat
    var droppedEvents: nat
    var droppedExhibits: nat
    var truncated: nat

    constructor (restored: map<Kind, Incident>, freshId: nat, session: string)
      ensures Value() == Boot(restored, freshId, session)
      ensures fresh(engine)
    {
      engine := new AlertEngine(restored, freshId);
      this.session, sequence, ring, windows := session, 0, [], [];
      pendingEvents, pendingExhibits, telemetry := [], [], None;
      droppedSamples, droppedEvents, droppedExhibits, truncated := 0, 0, 0, 0;
    }

    ghost function Value(): Monitor
      reads this, engine
    {
      Monitor(engine.Value(), session, sequence, ring, windows, pendingEvents, pendingExhibits, telemetry,
              droppedSamples, droppedEvents, droppedExhibits, truncated)
    }

    method ReopenDevice(newSession: string)
      modifies this
      ensures Value() == Reopen(old(Value()), newSession)
    {
      session, ring := newSession, [];
    }

    method OnSample(raw: Sample, p: Policy, acks: map<nat, Option<int>>, full: bool) returns (sent: Option<Batch>)
      modifies this, engine
      ensures var c := SampleCycle(old(Value()), raw, p, acks, full);
              Value() == c.next && sent == c.sent
    {
      var t := raw.(session := session, sequence := sequence);
      ghost var m := Value();
      var events := ObserveShared(t, p, acks);
      ghost var engineAfter := engine.Value();
      assert Value() == m.(engine := engineAfter);
      AbsorbEvents(events, t);
      sent := HandOver(t, full);
      if full { droppedSamples := droppedSamples + 1; }
      telemetry, sequence := Some(t), sequence + 1;
    }

    method ObserveShared(t: Sample, p: Policy, acks: map<nat, Option<int>>) returns (events: seq<Incident>)
      modifies engine
      ensures (engine.Value(), events) == Observe(SyncAcks(old(engine.Value()), acks), t, p, MAX_GAP_MS)
    {
      CopyAcks(acks);
      events := engine.ObserveSample(t, p, MAX_GAP_MS);
    }

    method AbsorbEvents(events: seq<Incident>, t: Sample)
      modifies this
      ensures Value() == Absorb(old(Value()), t, events)
    {
      ghost var m := Value();
      Capture(events, t);
      pendingEvents := pendingEvents + events;
      TakeReading(t);
      BoundPending();
      assert ring == DropOld(m.ring + [t], t.monotonicMs) && windows == WindowsAfter(m, t, events);
      ghost var backlog, evidence := m.pendingEvents + events, m.pendingExhibits + ExhibitsOf(m, t, events);
      assert pendingEvents == backlog[Excess(|backlog|, MAX_PENDING_EVENTS)..];
      assert pendingExhibits == evidence[Excess(|evidence|, MAX_PENDING_EVIDENCE)..];
      assert engine.Value() == m.engine;
    }

    method TakeReading(t: Sample)
      modifies this`ring
      ensures ring == DropOld(old(ring) + [t], t.monotonicMs)
    {
      ring := ring + [t];
      TrimRing(t.monotonicMs);
    }

    /** try_send: a full channel gives the batch back. */
    method HandOver(t: Sample, full: bool) returns (sent: Option<Batch>)
      modifies this
      ensures (Value(), sent) == Offer(old(Value()), t, full)
    {
      var b := Batch(t, pendingEvents, pendingExhibits);
      pendingEvents, pendingExhibits, sent := [], [], Some(b);
      if full { pendingEvents, pendingExhibits, sent := b.events, b.exhibits, None; }
    }

    method CopyAcks(acks: map<nat, Option<int>>)
      modifies engine
      ensures engine.Value() == SyncAcks(old(engine.Value()), acks)
    {
      var kinds := engine.active.Keys;
      ghost var was := engine.active;
      while kinds != {}
        invariant kinds <= was.Keys && engine.active.Keys == was.Keys
        invariant engine.Value() == old(engine.Value()).(active := engine.active)
        invariant forall k :: k in kinds ==> engine.active[k] == was[k]
        invariant forall k :: k in was && k !in kinds ==> engine.active[k] == WithAck(was[k], acks)
        decreases kinds
      {
        var k :| k in kinds;
        if engine.active[k].id in acks {
          engine.active := engine.active[k := engine.active[k].(acknowledgedAtMs := acks[engine.active[k].id])];
        }
        kinds := kinds - {k};
      }
    }

    /** The windows of this sample's raises, and the readings that the ring and the open windows contribute. */
    method Capture(events: seq<Incident>, t: Sample)
      modifies this`windows, this`pendingExhibits, this`truncated
      ensures windows == WindowsAfter(old(Value()), t, events)
      ensures pendingExhibits == old(pendingExhibits) + ExhibitsOf(old(Value()), t, events)
      ensures truncated == old(truncated) + |EvictedBy(old(Value()), t, events)|
    {
      OpenForRaises(events, t.monotonicMs);
      RetainWindows(t.monotonicMs);
      ghost var before, filed, readings := old(pendingExhibits), PreTrigger(ring, events), Readings(windows, t);
      assert before + filed + readings == before + (filed + readings);
      pendingExhibits := pendingExhibits + Readings(windows, t);
    }

    /** For each raise the oldest window makes way, if need be, the ring is filed and a window opened. */
    method OpenForRaises(events: seq<Incident>, now: nat)
      modifies this`windows, this`pendingExhibits, this`truncated
      ensures windows == OpenWindows(old(windows), events, now).0
      ensures truncated == old(truncated) + |OpenWindows(old(windows), events, now).1|
      ensures pendingExhibits == old(pendingExhibits) + PreTrigger(ring, events)
    {
      for n := 0 to |events|
        invariant windows == OpenWindows(old(windows), events[..n], now).0
        invariant truncated == old(truncated) + |OpenWindows(old(windows), events[..n], now).1|
        invariant pendingExhibits == old(pendingExhibits) + PreTrigger(ring, events[..n])
      {
        assert events[..n + 1][..n] == events[..n];
        if events[n].recoveredAtMs.None? {
          if |windows| == MAX_EVIDENCE_WINDOWS {
            windows, truncated := windows[1..], truncated + 1;
          }
          pendingExhibits := pendingExhibits + FileUnder(events[n].id, ring);
          windows := windows + [Window(events[n].id, now + AFTER_TRIGGER_MS)];
        }
      }
      assert events[..|events|] == events;
    }

    method RetainWindows(now: nat)
      modifies this`windows
      ensures windows == KeepOpen(old(windows), now)
    {
      var kept: seq<Window> := [];
      for n := 0 to |windows|
        invariant windows == old(windows) && kept == KeepOpen(windows[..n], now)
      {
        assert windows[..n + 1][..n] == windows[..n];
        if now <= windows[n].untilMs { kept := kept + [windows[n]]; }
      }
      assert windows[..|windows|] == windows;
      windows := kept;
    }

    method TrimRing(now: nat)
      modifies this`ring
      ensures ring == DropOld(old(ring), now)
    {
      while ring != [] && SaturatingSub(now, ring[0].monotonicMs) > RING_MS
        invariant DropOld(ring, now) == DropOld(old(ring), now)
        decreases |ring|
      {
        ring := ring[1..];
      }
    }

    method BoundPending()
      modifies this`pendingEvents, this`pendingExhibits, this`droppedEvents, this`droppedExhibits
      ensures var e, x := Excess(|old(pendingEvents)|, MAX_PENDING_EVENTS),
              Excess(|old(pendingExhibits)|, MAX_PENDING_EVIDENCE);
              && pendingEvents == old(pendingEvents)[e..] && droppedEvents == old(droppedEvents) + e
              && pendingExhibits == old(pendingExhibits)[x..] && droppedExhibits == old(droppedExhibits) + x
    {
      var lostEvents := SaturatingSub(|pendingEvents|, MAX_PENDING_EVENTS);
      var lostEvidence := SaturatingSub(|pendingExhibits|, MAX_PENDING_EVIDENCE);
      if lostEvents > 0 || lostEvidence > 0 {
        pendingEvents, pendingExhibits := pendingEvents[lostEvents..], pendingExhibits[lostEvidence..];
        droppedEvents, droppedExhibits := droppedEvents + lostEvents, droppedExhibits + lostEvidence;
      }
    }

    method OnLost(at: int, full: bool) returns (sent: Option<Batch>)
      modifies this, engine
      ensures var c := LostCycle(old(Value()), at, full);
              Value() == c.next && sent == c.sent
    {
      sent := None;
      if telemetry.Some? {
        var event := engine.MonitoringLostAt(telemetry.value, at);
        ghost var events := MonitoringLost(old(engine.Value()), telemetry.value, at).1;
        if event.Some? {
          pendingEvents := pendingEvents + [event.value];
          pendingExhibits := pendingExhibits + FileUnder(event.value.id, ring);
          assert events[..0] == [] && PreTrigger(ring, events[..0]) == [];
          assert PreTrigger(ring, events) == FileUnder(event.value.id, ring);
        } else {
          assert events == [] && pendingEvents + events == pendingEvents;
          assert pendingExhibits + PreTrigger(ring, events) == pendingExhibits;
        }
        sent := HandOver(telemetry.value, full);
      }
      sequence := sequence + 1;
    }
  }
}
