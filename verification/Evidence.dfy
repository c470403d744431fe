/** What every evidence window has emitted by any moment of a run of the monitor. */
module Evidence {
  import opened Wrappers
  import opened Telemetry
  import opened Alerts
  import opened AlertRuns
  import opened Storage
  import opened Monitoring
  import opened OpenRows

  /** The inputs of the monitor thread; `full` says whether the storage queue was full. */
  datatype Event =
    | Read(raw: Sample, policy: Policy, acks: map<nat, Option<int>>, full: bool)
    | Missed(at: int, full: bool)
    | Reopened(session: string)

  /** What an incident's window owes: the ring at the trigger, then every reading up to its deadline. */
  datatype Watch = Watch(pre: seq<Sample>, untilMs: nat, owed: seq<Sample>)

  /**
   * The monitor with what an observer of the run writes down: everything emitted as evidence, what each window owes,
   * which windows were evicted, and the readings since the device was last opened.
   */
  datatype Diary = Diary(monitor: Monitor, exhibits: seq<Exhibit>, watches: map<nat, Watch>, evicted: set<nat>,
    since: seq<Sample>)

  function Remind(w: Watch, t: Sample): Watch {
    if t.monotonicMs <= w.untilMs then w.(owed := w.owed + [t]) else w
  }

  function RaisedIds(events: seq<Incident>): set<nat> {
    set i | 0 <= i < |events| && events[i].recoveredAtMs.None? :: events[i].id
  }

  function Watched(watches: map<nat, Watch>, ring: seq<Sample>, events: seq<Incident>, t: Sample): map<nat, Watch> {
    map id | id in watches.Keys + RaisedIds(events) ::
      if id in RaisedIds(events) then Watch(ring, t.monotonicMs + AFTER_TRIGGER_MS, [t]) else Remind(watches[id], t)
  }

  function SetOf(ids: seq<nat>): set<nat> { set i | 0 <= i < |ids| :: ids[i] }

  function Write(d: Diary, e: Event): Diary {
    match e
    case Read(raw, policy, acks, full) =>
      var t := Stamped(d.monitor, raw);
      var c := SampleCycle(d.monitor, raw, policy, acks, full);
      Diary(c.next, d.exhibits + c.exhibits, Watched(d.watches, d.monitor.ring, c.events, t),
            d.evicted + SetOf(c.evicted), d.since + [t])
    case Missed(at, full) =>
      var c := LostCycle(d.monitor, at, full);
      d.(monitor := c.next, exhibits := d.exhibits + c.exhibits)
    case Reopened(session) => d.(monitor := Reopen(d.monitor, session), since := [])
  }

  function Kept(m: Monitor, h: seq<Event>): Diary {
    if h == [] then Diary(m, [], map[], {}, []) else Write(Kept(m, h[..|h| - 1]), h[|h| - 1])
  }

  /** Readings filed under one incident, in order. */
  function Under(xs: seq<Exhibit>, id: nat): seq<Sample> {
    if xs == [] then [] else
      Under(xs[..|xs| - 1], id) + (if xs[|xs| - 1].incident == id then [xs[|xs| - 1].sample] else [])
  }

  lemma {:induction false} UnderConcat(a: seq<Exhibit>, b: seq<Exhibit>, id: nat)
    ensures Under(a + b, id) == Under(a, id) + Under(b, id)
  {
    if b == [] {
      assert a + b == a;
    } else {
      assert (a + b)[..|a + b| - 1] == a + b[..|b| - 1];
      UnderConcat(a, b[..|b| - 1], id);
    }
  }

  lemma {:induction false} UnderFile(id: nat, samples: seq<Sample>, k: nat)
    ensures Under(FileUnder(id, samples), k) == if k == id then samples else []
  {
    if samples == [] {
    } else {
      var xs := FileUnder(id, samples);
      assert xs[..|xs| - 1] == FileUnder(id, samples[..|samples| - 1]);
      UnderFile(id, samples[..|samples| - 1], k);
    }
  }

  // ---------------------------------------------------------------- windows

  /** Windows stand in the order of their incidents, which is the order of opening. */
  ghost predicate InOrder(ws: seq<Window>) { forall i, j :: 0 <= i < j < |ws| ==> ws[i].incident < ws[j].incident }

  function Ids(ws: seq<Window>): seq<nat> { seq(|ws|, i requires 0 <= i < |ws| => ws[i].incident) }

  /** One window for each raise. */
  function Openings(events: seq<Incident>, now: nat): seq<Window> {
    if events == [] then [] else
      Openings(events[..|events| - 1], now) +
      (if events[|events| - 1].recoveredAtMs.None? then [Window(events[|events| - 1].id, now + AFTER_TRIGGER_MS)]
        else [])
  }

  /** Opening keeps the newest 32 of all windows and evicts the others, oldest first. */
  lemma {:induction false} OpenWindowsKeepsNewest(ws: seq<Window>, events: seq<Incident>, now: nat)
    requires |ws| <= MAX_EVIDENCE_WINDOWS
    ensures var all := ws + Openings(events, now); var k := SaturatingSub(|all|, MAX_EVIDENCE_WINDOWS);
            OpenWindows(ws, events, now) == (all[k..], Ids(all[..k]))
  {
    var all := ws + Openings(events, now);
    if events == [] {
      assert all == ws && all[0..] == ws && Ids(all[..0]) == [];
    } else {
      var before, e := events[..|events| - 1], events[|events| - 1];
      OpenWindowsKeepsNewest(ws, before, now);
      var prior := ws + Openings(before, now);
      if e.recoveredAtMs.None? {
        var opening := Window(e.id, now + AFTER_TRIGGER_MS);
        assert all == prior + [opening];
        KeepNewestSnoc(prior, opening);
      } else {
        assert Openings(events, now) == Openings(before, now);
        assert all == prior;
      }
    }
  }

  lemma KeepNewestSnoc(prior: seq<Window>, w: Window)
    ensures var k, all := SaturatingSub(|prior|, MAX_EVIDENCE_WINDOWS), prior + [w];
            var n := SaturatingSub(|all|, MAX_EVIDENCE_WINDOWS);
            if |prior[k..]| == MAX_EVIDENCE_WINDOWS
            then all[n..] == prior[k..][1..] + [w] && Ids(all[..n]) == Ids(prior[..k]) + [prior[k..][0].incident]
            else all[n..] == prior[k..] + [w] && Ids(all[..n]) == Ids(prior[..k])
  {
    var k := SaturatingSub(|prior|, MAX_EVIDENCE_WINDOWS);
    if |prior| >= MAX_EVIDENCE_WINDOWS {
      assert prior[k..][1..] == prior[k + 1..];
      assert prior[..k + 1] == prior[..k] + [prior[k]];
      assert Ids(prior[..k + 1]) == Ids(prior[..k]) + [prior[k].incident];
    } else {
    }
  }

  ghost predicate OpenedBetween(ws: seq<Window>, now: nat, lo: nat, hi: nat) {
    forall i :: 0 <= i < |ws| ==> lo <= ws[i].incident < hi && ws[i].untilMs == now + AFTER_TRIGGER_MS
  }

  lemma OpeningsAreRaises(events: seq<Incident>, now: nat, lo: nat, hi: nat)
    requires FreshRaises(events, lo, hi)
    ensures var ws := Openings(events, now);
            && InOrder(ws)
            && OpenedBetween(ws, now, lo, hi)
            && SetOf(Ids(ws)) == RaisedIds(events)
  {
    OpeningsInOrder(events, now, lo, hi);
    OpeningIds(events, now);
  }

  lemma {:induction false} OpeningsInOrder(events: seq<Incident>, now: nat, lo: nat, hi: nat)
    requires FreshRaises(events, lo, hi)
    ensures InOrder(Openings(events, now)) && OpenedBetween(Openings(events, now), now, lo, hi)
  {
    if events == [] {
    } else {
      var before, e := events[..|events| - 1], events[|events| - 1];
      FreshInit(events, lo, hi);
      OpeningsInOrder(before, now, lo, TopBefore(e, hi));
      var ws := Openings(before, now);
      if IsRaise(e) {
      } else {
        assert ws + [] == ws;
      }
    }
  }

  lemma {:induction false} OpeningIds(events: seq<Incident>, now: nat)
    ensures SetOf(Ids(Openings(events, now))) == RaisedIds(events)
  {
    if events == [] {
    } else {
      var before, e := events[..|events| - 1], events[|events| - 1];
      OpeningIds(before, now);
      RaisedSnoc(before, e);
      assert events == before + [e];
      var ws := Openings(before, now);
      if e.recoveredAtMs.None? {
        IdsSnoc(ws, Window(e.id, now + AFTER_TRIGGER_MS));
      } else {
        assert Openings(events, now) == ws;
      }
    }
  }

  lemma IdsSnoc(ws: seq<Window>, w: Window)
    ensures SetOf(Ids(ws + [w])) == SetOf(Ids(ws)) + {w.incident}
  {
    var all := Ids(ws + [w]);
    assert all == Ids(ws) + [w.incident];
    forall x
      ensures x in SetOf(all) <==> x in SetOf(Ids(ws)) || x == w.incident
    {
      if x in SetOf(Ids(ws)) {
        var i :| 0 <= i < |ws| && Ids(ws)[i] == x;
        assert all[i] == x;
      }
      assert all[|ws|] == w.incident;
    }
  }

  lemma RaisedSnoc(before: seq<Incident>, e: Incident)
    ensures RaisedIds(before + [e]) == RaisedIds(before) + (if e.recoveredAtMs.None? then {e.id} else {})
  {
    var all := before + [e];
    forall x
      ensures x in RaisedIds(all) <==> x in RaisedIds(before) || (e.recoveredAtMs.None? && x == e.id)
    {
      if x in RaisedIds(before) {
        var i :| 0 <= i < |before| && before[i].recoveredAtMs.None? && before[i].id == x;
        assert all[i] == before[i];
      }
      assert all[|before|] == e;
    }
  }

  lemma {:induction false} KeepOpenFilters(ws: seq<Window>, now: nat)
    requires InOrder(ws)
    ensures var kept := KeepOpen(ws, now);
            && InOrder(kept) && |kept| <= |ws|
            && (forall w :: w in kept <==> w in ws && now <= w.untilMs)
  {
    if ws == [] {
    } else {
      var before, w := ws[..|ws| - 1], ws[|ws| - 1];
      KeepOpenFilters(before, now);
      assert ws == before + [w];
      InOrderSnoc(KeepOpen(before, now), before, w);
    }
  }

  lemma InOrderSnoc(kept: seq<Window>, before: seq<Window>, w: Window)
    requires InOrder(kept) && InOrder(before + [w]) && forall x :: x in kept ==> x in before
    ensures InOrder(kept + [w])
  {
    forall i | 0 <= i < |kept|
      ensures kept[i].incident < w.incident
    {
      assert kept[i] in before;
      var j :| 0 <= j < |before| && before[j] == kept[i];
      assert (before + [w])[j] == kept[i] && (before + [w])[|before|] == w;
    }
  }

  /** A reading goes once under each open window. */
  lemma {:induction false} UnderReadings(ws: seq<Window>, t: Sample, id: nat)
    requires InOrder(ws)
    ensures Under(Readings(ws, t), id) == if id in SetOf(Ids(ws)) then [t] else []
  {
    if ws == [] {
    } else {
      var before, w := ws[..|ws| - 1], ws[|ws| - 1];
      assert Readings(ws, t)[..|ws| - 1] == Readings(before, t);
      UnderReadings(before, t, id);
      assert ws == before + [w];
      IdsSnoc(before, w);
      LastIsNew(before, w);
    }
  }

  lemma LastIsNew(before: seq<Window>, w: Window)
    requires InOrder(before + [w])
    ensures w.incident !in SetOf(Ids(before))
  {
    forall i | 0 <= i < |before|
      ensures before[i].incident != w.incident
    {
      assert (before + [w])[i] == before[i] && (before + [w])[|before|] == w;
    }
  }

  lemma PreTriggerSnoc(ring: seq<Sample>, before: seq<Incident>, e: Incident, id: nat)
    ensures Under(PreTrigger(ring, before + [e]), id) ==
            Under(PreTrigger(ring, before), id) + (if e.recoveredAtMs.None? && e.id == id then ring else [])
  {
    assert (before + [e])[..|before|] == before;
    if e.recoveredAtMs.None? {
      UnderConcat(PreTrigger(ring, before), FileUnder(e.id, ring), id);
      UnderFile(e.id, ring, id);
    } else {
      assert PreTrigger(ring, before + [e]) == PreTrigger(ring, before) + [];
      assert PreTrigger(ring, before) + [] == PreTrigger(ring, before);
    }
  }

  lemma {:induction false} UnderPreTrigger(ring: seq<Sample>, events: seq<Incident>, id: nat, lo: nat, hi: nat)
    requires FreshRaises(events, lo, hi)
    ensures Under(PreTrigger(ring, events), id) == if id in RaisedIds(events) then ring else []
  {
    if events == [] {
    } else {
      var before, e := events[..|events| - 1], events[|events| - 1];
      FreshInit(events, lo, hi);
      UnderPreTrigger(ring, before, id, lo, TopBefore(e, hi));
      assert events == before + [e];
      PreTriggerSnoc(ring, before, e, id);
      RaisedOnce(before, e, lo, hi, id);
    }
  }

  lemma RaisedOnce(before: seq<Incident>, e: Incident, lo: nat, hi: nat, id: nat)
    requires FreshRaises(before, lo, TopBefore(e, hi))
    ensures id in RaisedIds(before + [e]) <==> id in RaisedIds(before) || (IsRaise(e) && e.id == id)
    ensures IsRaise(e) && e.id == id ==> id !in RaisedIds(before)
  {
    RaisedSnoc(before, e);
  }

  // ---------------------------------------------------------------- the ring

  predicate Recent(s: Sample, now: nat) { SaturatingSub(now, s.monotonicMs) <= RING_MS }

  /** The readings of a sequence from the first recent one on. */
  function RecentTail(samples: seq<Sample>, now: nat): seq<Sample> {
    if samples == [] || Recent(samples[0], now) then samples else RecentTail(samples[1..], now)
  }

  ghost predicate Rising(samples: seq<Sample>) {
    forall i, j :: 0 <= i < j < |samples| ==> samples[i].monotonicMs <= samples[j].monotonicMs
  }

  lemma {:induction false} DropOldIsRecentTail(ring: seq<Sample>, now: nat)
    ensures DropOld(ring, now) == RecentTail(ring, now)
  {
    if ring != [] && !Recent(ring[0], now) { DropOldIsRecentTail(ring[1..], now); }
  }

  /** Trimming to an earlier reading and then appending loses nothing that trimming to a later one would keep. */
  lemma {:induction false} RecentTailExtends(samples: seq<Sample>, before: nat, t: Sample)
    requires before <= t.monotonicMs
    ensures RecentTail(RecentTail(samples, before) + [t], t.monotonicMs) == RecentTail(samples + [t], t.monotonicMs)
  {
    if samples != [] && !Recent(samples[0], before) {
      RecentTailExtends(samples[1..], before, t);
      assert (samples + [t])[1..] == samples[1..] + [t];
      assert !Recent((samples + [t])[0], t.monotonicMs);
    }
  }

  /** In a rising sequence that tail is exactly the readings at most a minute older than the given time. */
  lemma {:induction false} RecentTailIsMinute(samples: seq<Sample>, now: nat)
    requires Rising(samples)
    ensures var tail := RecentTail(samples, now); var k := |samples| - |tail|;
            && 0 <= k && tail == samples[k..]
            && (forall i :: 0 <= i < k ==> !Recent(samples[i], now))
            && (forall i :: k <= i < |samples| ==> Recent(samples[i], now))
  {
    if samples != [] && !Recent(samples[0], now) {
      RecentTailIsMinute(samples[1..], now);
      var tail := RecentTail(samples, now);
      var k := |samples| - |tail|;
      assert samples[1..][k - 1..] == samples[k..];
      forall i | 0 <= i < |samples|
        ensures i < k ==> !Recent(samples[i], now)
        ensures i >= k ==> Recent(samples[i], now)
      {
        if i > 0 { assert samples[i] == samples[1..][i - 1]; }
      }
    }
  }

  // ---------------------------------------------------------------- the invariant

  /** The boot-time clock does not step back from one reading to the next. */
  ghost predicate Advances(d: Diary, e: Event) {
    e.Read? && d.monitor.telemetry.Some? ==> d.monitor.telemetry.value.monotonicMs <= e.raw.monotonicMs
  }

  ghost predicate AdvancesAlways(m: Monitor, h: seq<Event>) {
    h == [] || (AdvancesAlways(m, h[..|h| - 1]) && Advances(Kept(m, h[..|h| - 1]), h[|h| - 1]))
  }

  function Clock(m: Monitor): nat { if m.telemetry.Some? then m.telemetry.value.monotonicMs else 0 }

  /** Identifiers in use are below the engine's supply, and the active map is well filed. */
  ghost predicate SpentIds(d: Diary) {
    var supply := d.monitor.engine.nextId;
    && Filed(d.monitor.engine)
    && (forall id :: id in d.watches ==> id < supply)
    && (forall i :: 0 <= i < |d.exhibits| ==> d.exhibits[i].incident < supply)
    && d.evicted <= d.watches.Keys
  }

  /** Open windows are watched, not evicted, newer than every evicted one, and are all that is still due. */
  ghost predicate WindowsMatch(d: Diary) {
    var ws := d.monitor.windows;
    && |ws| <= MAX_EVIDENCE_WINDOWS && InOrder(ws)
    && (forall w :: w in ws ==>
          w.incident in d.watches && w.untilMs == d.watches[w.incident].untilMs && w.incident !in d.evicted)
    && (forall w, id :: w in ws && id in d.evicted ==> id < w.incident)
    && (forall id :: id in d.watches && id !in d.evicted && Clock(d.monitor) <= d.watches[id].untilMs ==>
       id in SetOf(Ids(ws)))
  }

  function Due(w: Watch): seq<Sample> { w.pre + w.owed }

  /** Every window emitted exactly what it owes, except that an evicted one may have stopped early. */
  ghost predicate Delivered(d: Diary) {
    forall id :: id in d.watches ==>
      if id in d.evicted then Under(d.exhibits, id) <= Due(d.watches[id])
        else Under(d.exhibits, id) == Due(d.watches[id])
  }

  ghost predicate RingMatches(d: Diary) {
    d.monitor.ring == (if d.monitor.telemetry.Some? then RecentTail(d.since, Clock(d.monitor)) else []) &&
    (d.monitor.telemetry.None? ==> d.since == [])
  }

  ghost predicate Faithful(d: Diary) {
    && SpentIds(d) && WindowsMatch(d) && Delivered(d) && RingMatches(d)
    && |d.evicted| <= d.monitor.truncated
  }

  // ---------------------------------------------------------------- one reading

  lemma InIds(ws: seq<Window>, id: nat)
    ensures id in SetOf(Ids(ws)) <==> exists w :: w in ws && w.incident == id
  {
    if id in SetOf(Ids(ws)) {
      var i :| 0 <= i < |ws| && Ids(ws)[i] == id;
      assert ws[i] in ws;
    }
    if w :| w in ws && w.incident == id {
      var i :| 0 <= i < |ws| && ws[i] == w;
      assert Ids(ws)[i] == id;
    }
  }

  /** All windows in the order of opening, and how many of the oldest make way. */
  lemma WindowsOpened(ws: seq<Window>, events: seq<Incident>, now: nat, lo: nat, hi: nat)
    returns (all: seq<Window>, k: nat)
    requires |ws| <= MAX_EVIDENCE_WINDOWS && InOrder(ws) && FreshRaises(events, lo, hi)
    requires forall w :: w in ws ==> w.incident < lo
    ensures all == ws + Openings(events, now) && InOrder(all) && k <= |all| <= k + MAX_EVIDENCE_WINDOWS
    ensures OpenWindows(ws, events, now) == (all[k..], Ids(all[..k]))
  {
    all := ws + Openings(events, now);
    k := SaturatingSub(|all|, MAX_EVIDENCE_WINDOWS);
    OpenWindowsKeepsNewest(ws, events, now);
    OpeningsAreRaises(events, now, lo, hi);
  }

  /** The windows after one reading: the old and the new ones that are neither evicted nor past their deadline. */
  lemma WindowsStep(ws: seq<Window>, events: seq<Incident>, now: nat, lo: nat, hi: nat)
    requires |ws| <= MAX_EVIDENCE_WINDOWS && InOrder(ws) && FreshRaises(events, lo, hi)
    requires forall w :: w in ws ==> w.incident < lo
    ensures var (grown, out) := OpenWindows(ws, events, now);
            var next, news := KeepOpen(grown, now), Openings(events, now);
            && |next| <= MAX_EVIDENCE_WINDOWS && InOrder(next)
            && (forall w :: w in next <==> (w in ws || w in news) && w.incident !in SetOf(out) && now <= w.untilMs)
            && (forall id :: id in SetOf(out) ==> id in SetOf(Ids(ws)) || id in RaisedIds(events))
            && (forall w, id :: w in next && id in SetOf(out) ==> id < w.incident)
  {
    var news := Openings(events, now);
    var all, k := WindowsOpened(ws, events, now, lo, hi);
    KeepOpenFilters(all[k..], now);
    Partition(all, k);
    forall id | id in SetOf(Ids(all[..k]))
      ensures id in SetOf(Ids(ws)) || id in RaisedIds(events)
    {
      EvictedWasOpen(ws, events, now, all, k, id);
    }
  }

  lemma EvictedWasOpen(ws: seq<Window>, events: seq<Incident>, now: nat, all: seq<Window>, k: nat, id: nat)
    requires all == ws + Openings(events, now) && k <= |all| && id in SetOf(Ids(all[..k]))
    ensures id in SetOf(Ids(ws)) || id in RaisedIds(events)
  {
    InIds(all[..k], id);
    var w :| w in all[..k] && w.incident == id;
    InIds(ws, id);
    InIds(Openings(events, now), id);
    OpeningIds(events, now);
  }

  lemma Partition(all: seq<Window>, k: nat)
    requires k <= |all| && InOrder(all)
    ensures forall w :: w in all[k..] <==> w in all && w.incident !in SetOf(Ids(all[..k]))
    ensures forall w, id :: w in all[k..] && id in SetOf(Ids(all[..k])) ==> id < w.incident
  {
    forall w
      ensures w in all[k..] <==> w in all && w.incident !in SetOf(Ids(all[..k]))
      ensures w in all[k..] ==> forall id :: id in SetOf(Ids(all[..k])) ==> id < w.incident
    {
      InIds(all[..k], w.incident);
      if w in all {
        var i :| 0 <= i < |all| && all[i] == w;
        if i < k { assert all[..k][i] == w; } else { assert all[k..][i - k] == w; }
      }
    }
  }

  lemma {:induction false} UnderUnused(xs: seq<Exhibit>, id: nat)
    requires forall i :: 0 <= i < |xs| ==> xs[i].incident != id
    ensures Under(xs, id) == []
  {
    if xs == [] {
    } else {
      UnderUnused(xs[..|xs| - 1], id);
    }
  }

  lemma {:induction false} PreTriggerIds(ring: seq<Sample>, events: seq<Incident>, lo: nat, hi: nat)
    requires FreshRaises(events, lo, hi)
    ensures forall i :: 0 <= i < |PreTrigger(ring, events)| ==> PreTrigger(ring, events)[i].incident < hi
  {
    if events == [] {
    } else {
      var before, e := events[..|events| - 1], events[|events| - 1];
      PreTriggerIds(ring, before, lo, hi);
    }
  }

  lemma {:induction false} SetOfSize(ids: seq<nat>)
    ensures |SetOf(ids)| <= |ids|
  {
    if ids == [] {
      assert SetOf(ids) == {};
    } else {
      var before := ids[..|ids| - 1];
      SetOfSize(before);
      forall x
        ensures x in SetOf(ids) <==> x in SetOf(before) || x == ids[|ids| - 1]
      {
        if x in SetOf(before) {
          var i :| 0 <= i < |before| && before[i] == x;
          assert ids[i] == x;
        }
      }
      assert SetOf(ids) == SetOf(before) + {ids[|ids| - 1]};
    }
  }

  /** What a reading adds under one incident: the ring if it is raised now, and the reading if its window is open. */
  lemma ReadingAdds(m: Monitor, t: Sample, events: seq<Incident>, lo: nat, hi: nat, id: nat)
    requires FreshRaises(events, lo, hi) && InOrder(WindowsAfter(m, t, events))
    ensures Under(ExhibitsOf(m, t, events), id) ==
            (if id in RaisedIds(events) then m.ring else []) +
              (if id in SetOf(Ids(WindowsAfter(m, t, events))) then [t] else [])
  {
    UnderConcat(PreTrigger(m.ring, events), Readings(WindowsAfter(m, t, events), t), id);
    UnderPreTrigger(m.ring, events, id, lo, hi);
    UnderReadings(WindowsAfter(m, t, events), t, id);
  }

  /** The facts about a reading that the invariant needs, with the engine's part already named. */
  ghost predicate ReadingStep(d: Diary, t: Sample, events: seq<Incident>, lo: nat, hi: nat) {
    && SpentIds(d) && WindowsMatch(d)
    && d.monitor.engine.nextId == lo && FreshRaises(events, lo, hi)
    && Clock(d.monitor) <= t.monotonicMs
  }

  lemma ReadingWindows(d: Diary, t: Sample, events: seq<Incident>, lo: nat, hi: nat)
    requires ReadingStep(d, t, events, lo, hi)
    ensures var next, out := WindowsAfter(d.monitor, t, events), SetOf(EvictedBy(d.monitor, t, events));
            && |next| <= MAX_EVIDENCE_WINDOWS && InOrder(next)
            && (forall w :: w in next <==> (w in d.monitor.windows || w in Openings(events, t.monotonicMs)) &&
                                            w.incident !in out && t.monotonicMs <= w.untilMs)
            && (forall id :: id in out ==> (id in d.watches && id !in d.evicted) || id in RaisedIds(events))
            && (forall w, id :: w in next && id in out ==> id < w.incident)
  {
    var ws := d.monitor.windows;
    WindowsStep(ws, events, t.monotonicMs, lo, hi);
    forall id | id in SetOf(Ids(ws))
      ensures id in d.watches && id !in d.evicted
    {
      InIds(ws, id);
    }
  }

  /** `next` is d after the reading, as far as windows, watches and evictions go. */
  ghost predicate ReadInto(d: Diary, next: Diary, t: Sample, events: seq<Incident>) {
    && next.monitor.windows == WindowsAfter(d.monitor, t, events)
    && next.monitor.telemetry == Some(t)
    && next.watches == Watched(d.watches, d.monitor.ring, events, t)
    && next.evicted == d.evicted + SetOf(EvictedBy(d.monitor, t, events))
  }

  lemma OpenWindowIsWatched(d: Diary, next: Diary, t: Sample, events: seq<Incident>, lo: nat, hi: nat, w: Window)
    requires ReadingStep(d, t, events, lo, hi) && ReadInto(d, next, t, events) && w in next.monitor.windows
    ensures w.incident in next.watches && w.untilMs == next.watches[w.incident].untilMs && w.incident !in next.evicted
    ensures forall id :: id in next.evicted ==> id < w.incident
  {
    ReadingWindows(d, t, events, lo, hi);
    OpeningsAreRaises(events, t.monotonicMs, lo, hi);
    InIds(Openings(events, t.monotonicMs), w.incident);
  }

  lemma DueWindowIsOpen(d: Diary, next: Diary, t: Sample, events: seq<Incident>, lo: nat, hi: nat, id: nat)
    requires ReadingStep(d, t, events, lo, hi) && ReadInto(d, next, t, events)
    requires id in next.watches && id !in next.evicted && t.monotonicMs <= next.watches[id].untilMs
    ensures id in SetOf(Ids(next.monitor.windows))
  {
    var ws, news := d.monitor.windows, Openings(events, t.monotonicMs);
    ReadingWindows(d, t, events, lo, hi);
    OpeningsAreRaises(events, t.monotonicMs, lo, hi);
    InIds(next.monitor.windows, id);
    if id in RaisedIds(events) {
      InIds(news, id);
      var w :| w in news && w.incident == id;
      assert w in next.monitor.windows;
    } else {
      InIds(ws, id);
      var w :| w in ws && w.incident == id;
      assert w in next.monitor.windows;
    }
  }

  lemma WindowsStillMatch(d: Diary, next: Diary, t: Sample, events: seq<Incident>, lo: nat, hi: nat)
    requires ReadingStep(d, t, events, lo, hi) && ReadInto(d, next, t, events)
    ensures WindowsMatch(next)
  {
    assert |next.monitor.windows| <= MAX_EVIDENCE_WINDOWS && InOrder(next.monitor.windows)
           by { ReadingWindows(d, t, events, lo, hi); }
    forall w | w in next.monitor.windows
      ensures w.incident in next.watches && w.untilMs == next.watches[w.incident].untilMs && w.incident !in next.evicted
      ensures forall id :: id in next.evicted ==> id < w.incident
    {
      OpenWindowIsWatched(d, next, t, events, lo, hi, w);
    }
    forall id | id in next.watches && id !in next.evicted && t.monotonicMs <= next.watches[id].untilMs
      ensures id in SetOf(Ids(next.monitor.windows))
    {
      DueWindowIsOpen(d, next, t, events, lo, hi, id);
    }
  }

  lemma StillDelivered(d: Diary, next: Diary, t: Sample, events: seq<Incident>, lo: nat, hi: nat)
    requires ReadingStep(d, t, events, lo, hi) && Delivered(d) && ReadInto(d, next, t, events)
    requires next.exhibits == d.exhibits + ExhibitsOf(d.monitor, t, events)
    ensures Delivered(next)
  {
    WindowsStillMatch(d, next, t, events, lo, hi);
    forall id | id in next.watches
      ensures if id in next.evicted then Under(next.exhibits, id) <= Due(next.watches[id])
              else Under(next.exhibits, id) == Due(next.watches[id])
    {
      if id in RaisedIds(events) {
        NewWatchDelivered(d, next, t, events, lo, hi, id);
      } else {
        ReadingFiled(d, next, t, events, lo, hi, id);
        OldWatchDelivered(d, next, t, events, lo, hi, id);
      }
    }
  }

  lemma ReadingFiled(d: Diary, next: Diary, t: Sample, events: seq<Incident>, lo: nat, hi: nat, id: nat)
    requires ReadingStep(d, t, events, lo, hi) && ReadInto(d, next, t, events)
    requires next.exhibits == d.exhibits + ExhibitsOf(d.monitor, t, events)
    ensures Under(next.exhibits, id) == Under(d.exhibits, id) +
            ((if id in RaisedIds(events) then d.monitor.ring else []) +
              (if id in SetOf(Ids(next.monitor.windows)) then [t] else []))
  {
    ReadingWindows(d, t, events, lo, hi);
    UnderConcat(d.exhibits, ExhibitsOf(d.monitor, t, events), id);
    ReadingAdds(d.monitor, t, events, lo, hi, id);
  }

  lemma NewWatchDelivered(d: Diary, next: Diary, t: Sample, events: seq<Incident>, lo: nat, hi: nat, id: nat)
    requires ReadingStep(d, t, events, lo, hi) && ReadInto(d, next, t, events) && WindowsMatch(next)
    requires next.exhibits == d.exhibits + ExhibitsOf(d.monitor, t, events) && id in RaisedIds(events)
    ensures if id in next.evicted then Under(next.exhibits, id) <= Due(next.watches[id])
            else Under(next.exhibits, id) == Due(next.watches[id])
  {
    ReadingFiled(d, next, t, events, lo, hi, id);
    UnderUnused(d.exhibits, id);
    InIds(next.monitor.windows, id);
  }

  /** An older incident's window is open after a reading exactly when it is not evicted and the reading was due. */
  lemma OpenIffDue(d: Diary, next: Diary, t: Sample, events: seq<Incident>, lo: nat, hi: nat, id: nat)
    requires ReadingStep(d, t, events, lo, hi) && ReadInto(d, next, t, events) && WindowsMatch(next)
    requires id in d.watches && id !in RaisedIds(events)
    ensures id in SetOf(Ids(next.monitor.windows)) <==> id !in next.evicted && t.monotonicMs <= d.watches[id].untilMs
  {
    InIds(next.monitor.windows, id);
    if w :| w in next.monitor.windows && w.incident == id { ReadingWindows(d, t, events, lo, hi); }
  }

  lemma OldWatchDelivered(d: Diary, next: Diary, t: Sample, events: seq<Incident>, lo: nat, hi: nat, id: nat)
    requires ReadingStep(d, t, events, lo, hi) && Delivered(d) && ReadInto(d, next, t, events) && WindowsMatch(next)
    requires id in d.watches && id !in RaisedIds(events)
    requires Under(next.exhibits, id) == Under(d.exhibits, id) +
             ([] + if id in SetOf(Ids(next.monitor.windows)) then [t] else [])
    ensures if id in next.evicted then Under(next.exhibits, id) <= Due(next.watches[id])
            else Under(next.exhibits, id) == Due(next.watches[id])
  {
    OpenIffDue(d, next, t, events, lo, hi, id);
    assert next.watches[id] == Remind(d.watches[id], t);
    assert id in d.evicted ==> id in next.evicted;
    RemindDelivers(d.watches[id], t, Under(d.exhibits, id), Under(next.exhibits, id), id in d.evicted,
      id in next.evicted);
  }

  /**
   * Appending a reading that is due to what was emitted, unless evicted, keeps the emitted a prefix of what is due,
   * or all of it.
   */
  lemma RemindDelivers(w: Watch, t: Sample, before: seq<Sample>, after: seq<Sample>, gone: bool, goneNow: bool)
    requires gone ==> goneNow
    requires if gone then before <= Due(w) else before == Due(w)
    requires after == before + ([] + if !goneNow && t.monotonicMs <= w.untilMs then [t] else [])
    ensures if goneNow then after <= Due(Remind(w, t)) else after == Due(Remind(w, t))
  {
    assert t.monotonicMs <= w.untilMs ==> Due(Remind(w, t)) == Due(w) + [t];
  }

  lemma RingStep(d: Diary, t: Sample)
    requires RingMatches(d) && Clock(d.monitor) <= t.monotonicMs
    ensures DropOld(d.monitor.ring + [t], t.monotonicMs) == RecentTail(d.since + [t], t.monotonicMs)
  {
    DropOldIsRecentTail(d.monitor.ring + [t], t.monotonicMs);
    if d.monitor.telemetry.Some? { RecentTailExtends(d.since, Clock(d.monitor), t); }
  }

  // ---------------------------------------------------------------- runs

  lemma ReadIsFaithful(d: Diary, raw: Sample, policy: Policy, acks: map<nat, Option<int>>, full: bool)
    requires Faithful(d) && Advances(d, Read(raw, policy, acks, full))
    ensures Faithful(Write(d, Read(raw, policy, acks, full)))
  {
    var t := Stamped(d.monitor, raw);
    var e := SyncAcks(d.monitor.engine, acks);
    var (engine, events) := Observe(e, t, policy, MAX_GAP_MS);
    var lo, hi := d.monitor.engine.nextId, engine.nextId;
    var next := Write(d, Read(raw, policy, acks, full));
    EngineReads(d.monitor.engine, t, policy, acks);
    assert ReadInto(d, next, t, events);
    assert next.exhibits == d.exhibits + ExhibitsOf(d.monitor, t, events);
    WindowsStillMatch(d, next, t, events, lo, hi);
    StillDelivered(d, next, t, events, lo, hi);
    RingStep(d, t);
    SetOfSize(EvictedBy(d.monitor, t, events));
    assert |next.evicted| <= |d.evicted| + |SetOf(EvictedBy(d.monitor, t, events))|;
    IdsStaySpent(d, next, t, events, lo, hi);
  }

  lemma EngineReads(e: EngineState, t: Sample, policy: Policy, acks: map<nat, Option<int>>)
    requires Filed(e)
    ensures var (engine, events) := Observe(SyncAcks(e, acks), t, policy, MAX_GAP_MS);
            Filed(engine) && FreshRaises(events, e.nextId, engine.nextId)
  {
    var x := Observed(t, policy, MAX_GAP_MS);
    StepIsFresh(SyncAcks(e, acks), x);
    StepExplained(SyncAcks(e, acks), x);
  }

  lemma IdsStaySpent(d: Diary, next: Diary, t: Sample, events: seq<Incident>, lo: nat, hi: nat)
    requires ReadingStep(d, t, events, lo, hi) && ReadInto(d, next, t, events)
    requires next.exhibits == d.exhibits + ExhibitsOf(d.monitor, t, events)
    requires next.monitor.engine.nextId == hi && Filed(next.monitor.engine)
    ensures SpentIds(next)
  {
    PreTriggerIds(d.monitor.ring, events, lo, hi);
    assert forall id :: id in SetOf(EvictedBy(d.monitor, t, events)) ==> id in next.watches by {
      ReadingWindows(d, t, events, lo, hi);
    }
    var ws := next.monitor.windows;
    forall i | 0 <= i < |ws|
      ensures ws[i].incident < hi
    {
      OpenWindowIsWatched(d, next, t, events, lo, hi, ws[i]);
    }
  }

  /** A loss of monitoring files the ring under a new incident, and nothing under a watched one. */
  lemma LossSparesWatched(d: Diary, at: int, id: nat)
    requires Faithful(d) && id in d.watches
    ensures Under(Write(d, Missed(at, false)).exhibits, id) == Under(d.exhibits, id)
  {
    var m := d.monitor;
    var events := if m.telemetry.Some? then MonitoringLost(m.engine, m.telemetry.value, at).1 else [];
    var hi := if m.telemetry.Some? then MonitoringLost(m.engine, m.telemetry.value, at).0.nextId else m.engine.nextId;
    if m.telemetry.Some? { StepIsFresh(m.engine, Lost(m.telemetry.value, at)); }
    UnderConcat(d.exhibits, PreTrigger(m.ring, events), id);
    UnderPreTrigger(m.ring, events, id, m.engine.nextId, hi);
  }

  lemma LossKeepsIds(d: Diary, at: int, full: bool)
    requires Faithful(d)
    ensures SpentIds(Write(d, Missed(at, full)))
  {
    var m := d.monitor;
    if m.telemetry.Some? {
      var x := Lost(m.telemetry.value, at);
      var (engine, events) := AlertRuns.Step(m.engine, x);
      StepIsFresh(m.engine, x);
      StepExplained(m.engine, x);
      PreTriggerIds(m.ring, events, m.engine.nextId, engine.nextId);
    }
  }

  lemma MissIsFaithful(d: Diary, at: int, full: bool)
    requires Faithful(d)
    ensures Faithful(Write(d, Missed(at, full)))
  {
    var next := Write(d, Missed(at, full));
    LossKeepsIds(d, at, full);
    forall id | id in d.watches
      ensures Under(next.exhibits, id) == Under(d.exhibits, id)
    {
      LossSparesWatched(d, at, id);
      assert next.exhibits == Write(d, Missed(at, false)).exhibits;
    }
  }

  /**
   * At every moment of every run: each window has emitted, in order and once, the ring of its trigger and then every
   * reading up to 120 s after it, unless it was evicted, in which case it stopped early. At most 32 are open, evicted
   * windows are older than every open one, and there are no more of them than the counter says.
   */
  lemma {:induction false} WindowsDeliver(restored: map<Kind, Incident>, freshId: nat, session: string, h: seq<Event>)
    requires forall k :: k in restored ==> restored[k].kind == k
    requires AdvancesAlways(Boot(restored, freshId, session), h)
    ensures Faithful(Kept(Boot(restored, freshId, session), h))
  {
    var m := Boot(restored, freshId, session);
    if h == [] {
    } else {
      WindowsDeliver(restored, freshId, session, h[..|h| - 1]);
      WriteIsFaithful(Kept(m, h[..|h| - 1]), h[|h| - 1]);
    }
  }

  lemma WriteIsFaithful(d: Diary, e: Event)
    requires Faithful(d) && Advances(d, e)
    ensures Faithful(Write(d, e))
  {
    match e
    case Read(raw, policy, acks, full) => ReadIsFaithful(d, raw, policy, acks, full);
    case Missed(at, full) => MissIsFaithful(d, at, full);
    case Reopened(next) =>
  }

  // ---------------------------------------------------------------- how far back the evidence goes

  /**
   * The ring is exactly the part of the readings since the device was opened that lies in the last reading's minute.
   */
  lemma RingIsLastMinute(d: Diary) returns (k: nat)
    requires Faithful(d) && Rising(d.since) && d.monitor.telemetry.Some?
    ensures k <= |d.since| && d.monitor.ring == d.since[k..]
    ensures forall i :: 0 <= i < |d.since| ==> (Recent(d.since[i], Clock(d.monitor)) <==> k <= i)
  {
    RecentTailIsMinute(d.since, Clock(d.monitor));
    k := |d.since| - |d.monitor.ring|;
  }

  /** What a reading files under an incident it raises: the ring, and the reading itself while the window stands. */
  lemma FiledAtRaise(d: Diary, raw: Sample, policy: Policy, acks: map<nat, Option<int>>, full: bool, id: nat)
    requires Faithful(d) && Advances(d, Read(raw, policy, acks, full))
    requires id in RaisedIds(SampleCycle(d.monitor, raw, policy, acks, full).events)
    ensures var t, c := Stamped(d.monitor, raw), SampleCycle(d.monitor, raw, policy, acks, full);
            Under(c.exhibits, id) == d.monitor.ring || Under(c.exhibits, id) == d.monitor.ring + [t]
  {
    var t := Stamped(d.monitor, raw);
    var (engine, events) := Observe(SyncAcks(d.monitor.engine, acks), t, policy, MAX_GAP_MS);
    EngineReads(d.monitor.engine, t, policy, acks);
    ReadingWindows(d, t, events, d.monitor.engine.nextId, engine.nextId);
    ReadingAdds(d.monitor, t, events, d.monitor.engine.nextId, engine.nextId, id);
  }

  ghost predicate AllRecent(samples: seq<Sample>, now: nat) {
    forall i :: 0 <= i < |samples| ==> Recent(samples[i], now)
  }

  /** Every reading since the reopening that lies within a minute of the last one lies within a minute of `now` too. */
  ghost predicate MinuteReaches(since: seq<Sample>, last: nat, now: nat) {
    forall i :: 0 <= i < |since| && Recent(since[i], last) ==> Recent(since[i], now)
  }

  /**
   * All the readings filed under an incident when it is raised lie within a minute of its trigger exactly when no
   * reading since the device was opened is within a minute of the last one but over a minute older than the trigger.
   */
  lemma PreTriggerWithinMinuteIff(d: Diary, raw: Sample, policy: Policy, acks: map<nat, Option<int>>, full: bool,
      id: nat)
    requires Faithful(d) && Rising(d.since) && Advances(d, Read(raw, policy, acks, full))
    requires id in RaisedIds(SampleCycle(d.monitor, raw, policy, acks, full).events)
    ensures var filed := Under(SampleCycle(d.monitor, raw, policy, acks, full).exhibits, id);
            AllRecent(filed, raw.monotonicMs) <==> MinuteReaches(d.since, Clock(d.monitor), raw.monotonicMs)
  {
    var filed := Under(SampleCycle(d.monitor, raw, policy, acks, full).exhibits, id);
    FiledAtRaise(d, raw, policy, acks, full, id);
    FiledRecent(d.monitor.ring, Stamped(d.monitor, raw), filed);
    RingRecent(d, raw.monotonicMs);
  }

  lemma FiledRecent(ring: seq<Sample>, t: Sample, filed: seq<Sample>)
    requires filed == ring || filed == ring + [t]
    ensures AllRecent(filed, t.monotonicMs) <==> AllRecent(ring, t.monotonicMs)
  {
    assert forall i :: 0 <= i < |ring| ==> (ring + [t])[i] == ring[i];
  }

  lemma RingRecent(d: Diary, now: nat)
    requires Faithful(d) && Rising(d.since)
    ensures AllRecent(d.monitor.ring, now) <==> MinuteReaches(d.since, Clock(d.monitor), now)
  {
    if d.monitor.telemetry.Some? {
      var k := RingIsLastMinute(d);
      assert forall i :: k <= i < |d.since| ==> d.since[i] == d.monitor.ring[i - k];
      assert forall i :: 0 <= i < |d.monitor.ring| ==> d.monitor.ring[i] == d.since[i + k];
    }
  }

  /** A unit without load, with the given first alarm byte. */
  function Unit(at: nat, alarm: nat): Sample {
    var idle: Conductors := seq(6, i => 0);
    Sample("psu", "", 0, at, at, 0, 0, [idle, idle], seq(ALARMS, i => if i == 0 then alarm else 0), [0, 0], [])
  }

  function Reads(p: Policy, at: nat, alarm: nat): Event { Read(Unit(at, alarm), p, map[], false) }

  /** An exhibit older than its incident's trigger by more than a minute; the deadline is 120 s after the trigger. */
  ghost predicate FiledTooOld(d: Diary, x: Exhibit) {
    && x in d.exhibits && x.incident in d.watches
    && x.sample.monotonicMs + RING_MS + AFTER_TRIGGER_MS < d.watches[x.incident].untilMs
  }

  /**
   * Readings at 0 s and 60 s, then an alarm at 61 s: the first reading is filed under the alarm's incident, 61 s
   * older than its trigger.
   */
  lemma PreTriggerCanExceedMinute(p: Policy) returns (h: seq<Event>, x: Exhibit)
    ensures h == [Reads(p, 0, 0), Reads(p, 60_000, 0), Reads(p, 61_000, 1)]
    ensures FiledTooOld(Kept(Boot(map[], 0, "s"), h), x) && x.sample.monotonicMs == 0
  {
    var two, d := QuietMinute(p);
    x := AlarmFilesRing(d, p);
    KeptSnoc(Boot(map[], 0, "s"), two, Reads(p, 61_000, 1));
    h := two + [Reads(p, 61_000, 1)];
  }

  lemma KeptSnoc(m: Monitor, h: seq<Event>, e: Event)
    ensures Kept(m, h + [e]) == Write(Kept(m, h), e)
  {
    assert (h + [e])[..|h|] == h;
  }

  /** The alarm at 61 s files the ring's oldest reading. */
  lemma AlarmFilesRing(d: Diary, p: Policy) returns (x: Exhibit)
    requires Faithful(d) && Clock(d.monitor) == 60_000 && Hardware(0) !in d.monitor.engine.active
    requires d.monitor.ring != [] && d.monitor.ring[0].monotonicMs == 0
    ensures FiledTooOld(Write(d, Reads(p, 61_000, 1)), x) && x.sample.monotonicMs == 0
  {
    var id := AlarmIsRaised(d, p);
    x := RaiseFilesOldest(d, Unit(61_000, 1), p, id);
  }

  lemma RaiseFilesOldest(d: Diary, raw: Sample, p: Policy, id: nat) returns (x: Exhibit)
    requires Faithful(d) && Advances(d, Read(raw, p, map[], false)) && d.monitor.ring != []
    requires id in RaisedIds(SampleCycle(d.monitor, raw, p, map[], false).events)
    ensures var after := Write(d, Read(raw, p, map[], false));
            && x in after.exhibits && x.incident == id && x.sample == d.monitor.ring[0]
            && id in after.watches && after.watches[id].untilMs == raw.monotonicMs + AFTER_TRIGGER_MS
  {
    var filed := SampleCycle(d.monitor, raw, p, map[], false).exhibits;
    FiledAtRaise(d, raw, p, map[], false, id);
    assert Under(filed, id)[0] == d.monitor.ring[0];
    var i := UnderMember(filed, id, 0);
    x := filed[i];
  }

  lemma {:induction false} UnderMember(xs: seq<Exhibit>, id: nat, n: nat) returns (i: nat)
    requires n < |Under(xs, id)|
    ensures i < |xs| && xs[i].incident == id && xs[i].sample == Under(xs, id)[n]
  {
    if n < |Under(xs[..|xs| - 1], id)| {
      i := UnderMember(xs[..|xs| - 1], id, n);
    } else {
      i := |xs| - 1;
    }
  }

  /** One more reading without an alarm, at the end of a run. */
  lemma ReadOn(m: Monitor, h: seq<Event>, p: Policy, at: nat) returns (next: seq<Event>, d: Diary)
    requires AdvancesAlways(m, h) && Advances(Kept(m, h), Reads(p, at, 0)) && Filed(Kept(m, h).monitor.engine)
    ensures next == h + [Reads(p, at, 0)] && d == Kept(m, next) && AdvancesAlways(m, next)
    ensures Filed(d.monitor.engine) && Hardware(0) !in d.monitor.engine.active && Clock(d.monitor) == at
    ensures d.monitor.telemetry.Some?
    ensures d.monitor.ring == DropOld(Kept(m, h).monitor.ring + [Stamped(Kept(m, h).monitor, Unit(at, 0))], at)
  {
    next := h + [Reads(p, at, 0)];
    d := ReadsQuietly(Kept(m, h), p, at);
    KeptSnoc(m, h, Reads(p, at, 0));
  }

  /** After the first two readings both are in the ring and no alarm is active. */
  lemma QuietMinute(p: Policy) returns (h: seq<Event>, d: Diary)
    ensures h == [Reads(p, 0, 0), Reads(p, 60_000, 0)] && d == Kept(Boot(map[], 0, "s"), h)
    ensures Faithful(d) && Clock(d.monitor) == 60_000 && Hardware(0) !in d.monitor.engine.active
    ensures |d.monitor.ring| == 2 && d.monitor.ring[0].monotonicMs == 0
  {
    var m, none: seq<Event> := Boot(map[], 0, "s"), [];
    var one, d1 := ReadOn(m, none, p, 0);
    assert [] + [Stamped(m, Unit(0, 0))] == [Stamped(m, Unit(0, 0))];
    h, d := ReadOn(m, one, p, 60_000);
    WindowsDeliver(map[], 0, "s", h);
  }

  lemma ReadsQuietly(d: Diary, p: Policy, at: nat) returns (next: Diary)
    requires Filed(d.monitor.engine)
    ensures next == Write(d, Reads(p, at, 0)) && Filed(next.monitor.engine) &&
            Hardware(0) !in next.monitor.engine.active
    ensures next.monitor.telemetry == Some(Stamped(d.monitor, Unit(at, 0)))
    ensures next.monitor.ring == DropOld(d.monitor.ring + [Stamped(d.monitor, Unit(at, 0))], at)
  {
    next := Write(d, Reads(p, at, 0));
    var t := Stamped(d.monitor, Unit(at, 0));
    EngineReads(d.monitor.engine, t, p, map[]);
    HardwareFollowsItsByte(SyncAcks(d.monitor.engine, map[]), t, p, MAX_GAP_MS, 0);
  }

  /** The alarm byte raises its incident. */
  lemma AlarmIsRaised(d: Diary, p: Policy) returns (id: nat)
    requires Filed(d.monitor.engine) && Hardware(0) !in d.monitor.engine.active
    ensures id in RaisedIds(SampleCycle(d.monitor, Unit(61_000, 1), p, map[], false).events)
  {
    var t, e := Stamped(d.monitor, Unit(61_000, 1)), SyncAcks(d.monitor.engine, map[]);
    HardwareFollowsItsByte(e, t, p, MAX_GAP_MS, 0);
    StepExplained(e, Observed(t, p, MAX_GAP_MS));
    var (after, events) := Observe(e, t, p, MAX_GAP_MS);
    var i := RaiseBehind(e.active, events, Hardware(0));
    id := events[i].id;
  }

  /** A kind that replaying a log makes active was raised in it. */
  lemma {:induction false} RaiseBehind(active: map<Kind, Incident>, log: seq<Incident>, k: Kind) returns (i: nat)
    requires k !in active && k in Replay(active, log)
    ensures i < |log| && IsRaise(log[i]) && log[i].kind == k
  {
    if k in Replay(active, log[..|log| - 1]) {
      i := RaiseBehind(active, log[..|log| - 1], k);
    } else {
      i := |log| - 1;
    }
  }
}
