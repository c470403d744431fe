/** When the notifier must attempt an incident: no attempt that is due is ever left out. */
module Reminders {
  import opened Wrappers
  import opened Notifier

  /**
   * Whether the saved attempts so far leave room for one more: fewer than three, the last at least 30 s ago, and a
   * success repeated only for a critical incident.
   */
  ghost predicate Due(kept: seq<Attempt>, critical: bool, now: int) {
    && |kept| < 3 && now >= 30_000
    && (kept != [] ==> kept[|kept| - 1].atMs + 30_000 <= now && (critical || !kept[|kept| - 1].ok))
  }

  /** How an entry counts the saved attempts: never too many, and all of them until 30 days after the first. */
  ghost predicate Counts(d: Delivery, kept: seq<Attempt>, now: int) {
    && (d.attempts == 0 ==> d == UNSEEN)
    && d.attempts <= |kept|
    && (kept != [] ==> SPACING_MS <= kept[0].atMs)
    && (kept != [] && now < kept[0].atMs + EXPIRY_MS ==> d.attempts == |kept|)
  }

  /** While the entry counts every attempt, it is eligible exactly when one is due; later, at least then. */
  lemma EligibleWhenDue(d: Delivery, kept: seq<Attempt>, clock: int, critical: bool, now: int)
    requires Tracks(d, kept, clock) && Counts(d, kept, clock) && clock <= now
    ensures Due(kept, critical, now) ==> Eligible(d, critical, now)
    ensures (kept == [] || now < kept[0].atMs + EXPIRY_MS) && Eligible(d, critical, now) ==> Due(kept, critical, now)
  {
    if kept != [] { Ascending(kept, 0, |kept| - 1); }
  }

  // ---------------------------------------------------------------- one poll

  /** A listed, unacknowledged incident is chosen exactly when its entry is eligible, and as severe as it is listed. */
  lemma {:induction false} CollectChooses(ds: Deliveries, alerts: seq<Alert>, now: int, i: nat)
    requires DistinctIds(alerts) && i < |alerts| && Considered(alerts[i])
    ensures var due, id := Collect(ds, alerts, now).1, alerts[i].id.value;
            && (Lists(due, id) <==> Eligible(Entry(ds, id), alerts[i].critical, now))
            && forall k :: 0 <= k < |due| && due[k].0 == id ==> due[k].1 == alerts[i].critical
  {
    var before, a, id := alerts[..|alerts| - 1], alerts[|alerts| - 1], alerts[i].id.value;
    var (d1, due) := Collect(ds, before, now);
    var all := Collect(ds, alerts, now).1;
    CollectById(ds, before, now);
    if i < |before| {
      CollectChooses(ds, before, now, i);
      assert a.id != Some(id);
      assert forall k :: 0 <= k < |due| ==> all[k] == due[k];
    } else {
      forall k | 0 <= k < |due|
        ensures due[k].0 != id
      {
        assert ConsideredIn(before, due[k].0);
      }
      if Eligible(Entry(ds, id), a.critical, now) { assert all[|due|].0 == id; }
    }
  }

  /** What the poll attempts of a listed incident. */
  lemma PollAttempts(s: State, e: Event, i: nat)
    requires !e.Reloaded? && DistinctIds(e.alerts) && i < |e.alerts| && Considered(e.alerts[i])
    ensures var a, id := e.alerts[i], e.alerts[i].id.value;
            Of(Attempts(s, e), id) ==
            if Eligible(Entry(s.deliveries, id), a.critical, e.now)
            then [Attempt(id, e.now, a.critical, e.ok, e.Polled?)] else []
  {
    CollectById(s.deliveries, e.alerts, e.now);
    CollectChooses(s.deliveries, e.alerts, e.now, i);
    OfAttempts(Collect(s.deliveries, e.alerts, e.now).1, e.now, e.ok, e.Polled?, e.alerts[i].id.value);
  }

  // ---------------------------------------------------------------- every run

  ghost predicate Counted(s: State, mine: seq<Attempt>, now: int, id: string) {
    Counts(Entry(s.deliveries, id), SavedOf(mine), now) && Entry(s.saved, id) == Entry(s.deliveries, id)
  }

  lemma MarkCounts(d: Delivery, kept: seq<Attempt>, clock: int, a: Attempt)
    requires Tracks(d, kept, clock) && Counts(d, kept, clock) && clock <= a.atMs && Eligible(d, a.critical, a.atMs)
    ensures Counts(Delivery(a.ok, d.attempts + 1, a.atMs), kept + [a], a.atMs)
  {}

  /** An entry that expires has made its last attempt 30 days ago. */
  lemma RetainCounts(ds: Deliveries, kept: seq<Attempt>, now: int, id: string)
    requires Tracks(Entry(ds, id), kept, now) && Counts(Entry(ds, id), kept, now)
    ensures Counts(Entry(Retain(ds, now), id), kept, now)
  {
    if kept != [] { Ascending(kept, 0, |kept| - 1); }
  }

  lemma SavedAppend(mine: seq<Attempt>, added: seq<Attempt>)
    requires |added| <= 1
    ensures SavedOf(mine + added) == SavedOf(mine) + if added != [] && added[0].saved then added else []
  {
    if added == [] {
      assert mine + added == mine;
    } else {
      assert mine + added == mine + [added[0]];
      SavedSnoc(mine, added[0]);
    }
  }

  lemma MarkedCounts(ds: Deliveries, alerts: seq<Alert>, now: int, ok: bool, mine: seq<Attempt>, clock: int,
                     id: string)
    requires DistinctIds(alerts) && clock <= now
    requires Tracked(ds, mine, clock, id) && Counts(Entry(ds, id), SavedOf(mine), clock)
    ensures var (d1, due) := Collect(ds, alerts, now);
            Counts(Entry(Mark(d1, due, now, ok), id), SavedOf(mine + Of(AttemptsAt(due, now, ok, true), id)), now)
  {
    var (d1, due) := Collect(ds, alerts, now);
    var added := PollEffect(ds, alerts, now, ok, true, id);
    SavedAppend(mine, added);
    if added != [] {
      assert added == [added[0]];
      MarkCounts(Entry(ds, id), SavedOf(mine), clock, added[0]);
    }
  }

  lemma PollCounts(s: State, alerts: seq<Alert>, now: int, ok: bool, t: State, mine: seq<Attempt>, clock: int,
                   id: string)
    requires DistinctIds(alerts) && clock <= now && Steps(s, Polled(alerts, now, ok), t)
    requires !Evicts(s, Polled(alerts, now, ok), t, id)
    requires Tracked(s.deliveries, mine, clock, id) && Counted(s, mine, clock, id)
    ensures Counted(t, mine + Of(Attempts(s, Polled(alerts, now, ok)), id), now, id)
  {
    var (d1, due) := Collect(s.deliveries, alerts, now);
    var next := MarkTracked(s.deliveries, alerts, now, ok, mine, clock, id);
    MarkedCounts(s.deliveries, alerts, now, ok, mine, clock, id);
    CollectById(s.deliveries, alerts, now);
    if due == [] {
      assert Mark(d1, due, now, ok) == d1;
    } else {
      RetainCounts(Mark(d1, due, now, ok), SavedOf(next), now, id);
      assert Entry(t.deliveries, id) == Entry(Marked(s, alerts, now, ok), id);
    }
  }

  lemma LostPollCounts(s: State, alerts: seq<Alert>, now: int, ok: bool, mine: seq<Attempt>, clock: int, id: string)
    requires DistinctIds(alerts) && clock <= now && Counted(s, mine, clock, id)
    ensures Counts(Entry(s.saved, id), SavedOf(mine + Of(Attempts(s, Unsaved(alerts, now, ok)), id)), now)
  {
    var added := PollEffect(s.deliveries, alerts, now, ok, false, id);
    SavedAppend(mine, added);
    assert SavedOf(mine) + [] == SavedOf(mine);
  }

  lemma StepCounts(s: State, e: Event, t: State, mine: seq<Attempt>, clock: int, next: int, id: string)
    requires Steps(s, e, t) && !Evicts(s, e, t, id) && clock <= next
    requires !e.Reloaded? ==> DistinctIds(e.alerts) && next == e.now
    requires Tracked(s.deliveries, mine, clock, id) && Counted(s, mine, clock, id)
    ensures Counted(t, mine + Of(Attempts(s, e), id), next, id)
  {
    match e
    case Polled(alerts, now, ok) => PollCounts(s, alerts, now, ok, t, mine, clock, id);
    case Unsaved(alerts, now, ok) => LostPollCounts(s, alerts, now, ok, mine, clock, id);
    case Reloaded => assert mine + [] == mine;
  }

  lemma {:induction false} RunCounts(states: seq<State>, events: seq<Event>, clocks: seq<int>, id: string)
    requires IsRun(states, events, clocks) && NeverEvicted(states, events, id)
    requires Entry(states[0].deliveries, id) == UNSEEN
    ensures Counted(states[|events|], Of(Log(states, events), id), clocks[|events|], id)
    decreases |events|
  {
    if events == [] {
    } else {
      var n := |events| - 1;
      var before, log := states[..n + 1], Log(states[..n + 1], events[..n]);
      ShorterRun(states, events, clocks, id);
      RunCounts(before, events[..n], clocks[..n + 1], id);
      RunTracked(before, events[..n], clocks[..n + 1], id);
      StepCounts(states[n], events[n], states[n + 1], Of(log, id), clocks[n], clocks[n + 1], id);
      OfConcat(log, Attempts(states[n], events[n]), id);
    }
  }

  /**
   * At the last poll of any run, restarts and lost polls included, from no entry: an incident that is listed
   * unacknowledged is attempted whenever an attempt is due after those that were saved, and until 30 days after the
   * first of them only then.
   */
  lemma AttemptedWhenDue(states: seq<State>, events: seq<Event>, clocks: seq<int>, id: string, i: nat)
    requires IsRun(states, events, clocks) && NeverEvicted(states, events, id) && events != []
    requires Entry(states[0].deliveries, id) == UNSEEN
    requires var e := events[|events| - 1];
             !e.Reloaded? && i < |e.alerts| && e.alerts[i].id == Some(id) && !e.alerts[i].acknowledged
    ensures var n := |events| - 1; var e, kept := events[n], SavedOf(Of(Log(states[..n + 1], events[..n]), id));
            var got := Of(Attempts(states[n], e), id);
            && (Due(kept, e.alerts[i].critical, e.now) ==>
                  got == [Attempt(id, e.now, e.alerts[i].critical, e.ok, e.Polled?)])
            && (kept == [] || e.now < kept[0].atMs + EXPIRY_MS ==>
                  (got != [] <==> Due(kept, e.alerts[i].critical, e.now)))
  {
    var n := |events| - 1;
    var e, mine := events[n], Of(Log(states[..n + 1], events[..n]), id);
    ShorterRun(states, events, clocks, id);
    RunCounts(states[..n + 1], events[..n], clocks[..n + 1], id);
    RunTracked(states[..n + 1], events[..n], clocks[..n + 1], id);
    PollAttempts(states[n], e, i);
    EligibleWhenDue(Entry(states[n].deliveries, id), SavedOf(mine), clocks[n], e.alerts[i].critical, e.now);
  }

  // ---------------------------------------------------------------- expiry

  lemma {:induction false} MarkKeeps(ds: Deliveries, due: seq<Chosen>, now: int, ok: bool, id: string)
    requires id in ds
    ensures id in Mark(ds, due, now, ok)
  {
    if due == [] {
    } else {
      MarkKeeps(ds, due[..|due| - 1], now, ok, id);
    }
  }

  /**
   * A poll that attempts something forgets an entry exactly when it was last attempted 30 days ago or more and is not
   * attempted now, the size limit apart; after that the incident starts over.
   */
  lemma ForgottenAfterExpiry(s: State, e: Event, t: State, id: string)
    requires e.Polled? && DistinctIds(e.alerts) && Steps(s, e, t) && !Evicts(s, e, t, id)
    requires id in s.deliveries && Attempts(s, e) != []
    ensures id in t.deliveries <==> Of(Attempts(s, e), id) != [] || e.now < s.deliveries[id].lastAtMs + 2_592_000_000
  {
    var (d1, due) := Collect(s.deliveries, e.alerts, e.now);
    CollectById(s.deliveries, e.alerts, e.now);
    var added := PollEffect(s.deliveries, e.alerts, e.now, e.ok, true, id);
    MarkKeeps(d1, due, e.now, e.ok, id);
  }

  // ---------------------------------------------------------------- a critical incident that stays

  /** Every event is a poll that lists the incident as critical and unacknowledged, 30 s after the one before. */
  ghost predicate StaysCritical(events: seq<Event>, id: string) {
    && (forall n :: 0 <= n < |events| ==>
          events[n].Polled? && events[n].now >= 30_000 && ListsCritical(events[n].alerts, id))
    && (forall n :: 0 < n < |events| ==> events[n - 1].now + 30_000 <= events[n].now < events[0].now + EXPIRY_MS)
  }

  ghost predicate ListsCritical(alerts: seq<Alert>, id: string) {
    exists i :: 0 <= i < |alerts| && alerts[i] == Alert(Some(id), false, true)
  }

  /** The incident has been attempted at the first three polls, or at all of them if they are fewer. */
  ghost predicate FirstThree(mine: seq<Attempt>, events: seq<Event>, id: string) {
    && |mine| == Min(|events|, 3)
    && forall j :: 0 <= j < |mine| ==>
         events[j].Polled? && mine[j] == Attempt(id, events[j].now, true, events[j].ok, true)
  }

  lemma CriticalIsDue(mine: seq<Attempt>, events: seq<Event>, id: string)
    requires events != [] && StaysCritical(events, id) && FirstThree(mine, events[..|events| - 1], id)
    ensures var now := events[|events| - 1].now;
            && SavedOf(mine) == mine
            && (Due(mine, true, now) <==> |mine| < 3)
            && (mine != [] ==> now < mine[0].atMs + EXPIRY_MS)
  {
    var n := |events| - 1;
    AllKept(mine);
    assert events[n].now >= 30_000;
    if mine != [] {
      assert mine[0].atMs == events[..n][0].now == events[0].now;
      assert events[n - 1].now + 30_000 <= events[n].now < events[0].now + EXPIRY_MS;
      if |mine| < 3 { assert mine[|mine| - 1].atMs == events[..n][n - 1].now == events[n - 1].now; }
    }
  }

  lemma FirstThreeExtend(mine: seq<Attempt>, events: seq<Event>, id: string)
    requires events != [] && events[|events| - 1].Polled? && FirstThree(mine, events[..|events| - 1], id)
    ensures var e := events[|events| - 1];
            FirstThree(mine + if |mine| < 3 then [Attempt(id, e.now, true, e.ok, true)] else [], events, id)
  {
    assert forall j :: 0 <= j < |mine| ==> events[..|events| - 1][j] == events[j];
  }

  /**
   * A critical incident that stays listed and unacknowledged is attempted at its first three polls, whatever becomes
   * of the attempts, and then not again before the entry expires.
   */
  lemma {:induction false} CriticalIsAttemptedThrice(states: seq<State>, events: seq<Event>, clocks: seq<int>,
      id: string)
    requires IsRun(states, events, clocks) && NeverEvicted(states, events, id) && StaysCritical(events, id)
    requires Entry(states[0].deliveries, id) == UNSEEN
    ensures FirstThree(Of(Log(states, events), id), events, id)
    decreases |events|
  {
    if events == [] {
    } else {
      var n := |events| - 1;
      var e, log := events[n], Log(states[..n + 1], events[..n]);
      ShorterRun(states, events, clocks, id);
      ShorterStay(events, id);
      CriticalIsAttemptedThrice(states[..n + 1], events[..n], clocks[..n + 1], id);
      assert ListsCritical(e.alerts, id);
      var i :| 0 <= i < |e.alerts| && e.alerts[i] == Alert(Some(id), false, true);
      AttemptedWhenDue(states, events, clocks, id, i);
      CriticalIsDue(Of(log, id), events, id);
      FirstThreeExtend(Of(log, id), events, id);
      OfConcat(log, Attempts(states[n], e), id);
    }
  }

  lemma ShorterStay(events: seq<Event>, id: string)
    requires events != [] && StaysCritical(events, id)
    ensures StaysCritical(events[..|events| - 1], id) && events[|events| - 1].Polled?
  {
    assert forall k :: 0 <= k < |events| - 1 ==> events[..|events| - 1][k] == events[k];
  }

  lemma {:induction false} AllKept(mine: seq<Attempt>)
    requires forall i :: 0 <= i < |mine| ==> mine[i].saved
    ensures SavedOf(mine) == mine
  {
    if mine == [] {
    } else {
      AllKept(mine[..|mine| - 1]);
    }
  }
}
