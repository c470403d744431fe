/** The desktop notifier: which incidents it attempts to deliver, and how its persistent state limits attempts. */
module Notifier {
  import opened Wrappers

  datatype Delivery = Delivery(delivered: bool, attempts: nat, lastAtMs: int)

  const UNSEEN := Delivery(false, 0, 0)

  /** One entry of the snapshot's active incidents. */
  datatype Alert = Alert(id: Option<string>, acknowledged: bool, critical: bool)

  type Deliveries = map<string, Delivery>

  const MAX_ATTEMPTS := 3
  const SPACING_MS := 30_000
  const EXPIRY_MS := 2_592_000_000
  const MAX_ENTRIES := 4096

  predicate Eligible(d: Delivery, critical: bool, now: int) {
    !((!critical && d.delivered) || d.attempts >= MAX_ATTEMPTS || now - d.lastAtMs < SPACING_MS)
  }

  /** A chosen incident and whether it is critical. */
  type Chosen = (string, bool)

  predicate Considered(a: Alert) { a.id.Some? && !a.acknowledged }

  function Entry(ds: Deliveries, id: string): Delivery { if id in ds then ds[id] else UNSEEN }

  /** First pass over the snapshot: entries for what was considered, and what is due. */
  function Collect(ds: Deliveries, alerts: seq<Alert>, now: int): (Deliveries, seq<Chosen>) {
    if alerts == [] then (ds, []) else
      var (d1, due) := Collect(ds, alerts[..|alerts| - 1], now);
      var a := alerts[|alerts| - 1];
      if !Considered(a) then (d1, due)
      else
        var id := a.id.value;
        (d1[id := Entry(d1, id)], if Eligible(Entry(d1, id), a.critical, now) then due + [(id, a.critical)] else due)
  }

  /** Second pass: one joint delivery counts as an attempt for each. */
  function Mark(ds: Deliveries, due: seq<Chosen>, now: int, ok: bool): Deliveries {
    if due == [] then ds else
      var d1 := Mark(ds, due[..|due| - 1], now, ok);
      var id := due[|due| - 1].0;
      d1[id := Delivery(ok, Entry(d1, id).attempts + 1, now)]
  }

  function Retain(ds: Deliveries, now: int): Deliveries {
    map id | id in ds && now - ds[id].lastAtMs < EXPIRY_MS :: ds[id]
  }

  /** `after` is `before` with the least recently attempted entries removed until the limit holds. */
  ghost predicate Trimmed(before: Deliveries, after: Deliveries) {
    && (forall id :: id in after ==> id in before && after[id] == before[id])
    && |after| == Min(|before|, MAX_ENTRIES)
    && (forall k, r :: k in after && r in before && r !in after ==> before[r].lastAtMs <= before[k].lastAtMs)
  }

  // ---------------------------------------------------------------- the worker

  class Worker {
    var deliveries: Deliveries
    var saved: Deliveries     // what the state file holds

    constructor (loaded: Deliveries)
      ensures deliveries == loaded && saved == loaded
    {
      deliveries, saved := loaded, loaded;
    }

    /** One successful poll; `ok` is the outcome of the desktop delivery, if one is made. */
    method Poll(alerts: seq<Alert>, now: int, ok: bool) returns (due: seq<Chosen>)
      modifies this
      ensures due == Collect(old(deliveries), alerts, now).1
      ensures due == [] ==> deliveries == Collect(old(deliveries), alerts, now).0 && saved == old(saved)
      ensures due != [] ==> Trimmed(Retain(Mark(Collect(old(deliveries), alerts, now).0, due, now, ok), now),
              deliveries)
      ensures due != [] ==> saved == deliveries
    {
      due := CollectDue(alerts, now);
      if due != [] {
        for n := 0 to |due|
          invariant deliveries == Mark(Collect(old(deliveries), alerts, now).0, due[..n], now, ok)
        {
          assert due[..n + 1][..n] == due[..n];
          var id := due[n].0;
          deliveries := deliveries[id := Delivery(ok, Entry(deliveries, id).attempts + 1, now)];
        }
        assert due[..|due|] == due;
        deliveries := map id | id in deliveries && now - deliveries[id].lastAtMs < EXPIRY_MS :: deliveries[id];
        EvictOldest();
        saved := deliveries;
      }
    }

    method CollectDue(alerts: seq<Alert>, now: int) returns (due: seq<Chosen>)
      modifies this`deliveries
      ensures (deliveries, due) == Collect(old(deliveries), alerts, now)
    {
      due := [];
      for n := 0 to |alerts|
        invariant deliveries == Collect(old(deliveries), alerts[..n], now).0
        invariant due == Collect(old(deliveries), alerts[..n], now).1
      {
        assert alerts[..n + 1][..n] == alerts[..n];
        var a := alerts[n];
        if a.id.None? || a.acknowledged { continue; }
        var id := a.id.value;
        deliveries := deliveries[id := Entry(deliveries, id)];
        var d := deliveries[id];
        if (!a.critical && d.delivered) || d.attempts >= MAX_ATTEMPTS || now - d.lastAtMs < SPACING_MS { continue; }
        due := due + [(id, a.critical)];
      }
      assert alerts[..|alerts|] == alerts;
    }

    method EvictOldest()
      modifies this`deliveries
      ensures Trimmed(old(deliveries), deliveries)
    {
      ghost var before := deliveries;
      while |deliveries| > MAX_ENTRIES
        invariant forall id :: id in deliveries ==> id in before && deliveries[id] == before[id]
        invariant |deliveries| <= |before| && (|deliveries| < |before| ==> |deliveries| >= MAX_ENTRIES)
        invariant |deliveries| == |before| ==> deliveries == before
        invariant forall k, r :: k in deliveries && r in before && r !in deliveries ==>
                  before[r].lastAtMs <= before[k].lastAtMs
        decreases |deliveries|
      {
        ghost var candidate := OldestExists(deliveries);
        assert IsOldest(deliveries, candidate);
        var oldest :| oldest in deliveries && forall id :: id in deliveries ==>
          deliveries[oldest].lastAtMs <= deliveries[id].lastAtMs;
        assert (deliveries - {oldest}).Keys == deliveries.Keys - {oldest};
        deliveries := deliveries - {oldest};
      }
    }
  }

  ghost predicate IsOldest(ds: Deliveries, k: string) {
    k in ds && forall id :: id in ds ==> ds[k].lastAtMs <= ds[id].lastAtMs
  }

  lemma {:induction false} OldestExists(ds: Deliveries) returns (k: string)
    requires ds != map[]
    ensures IsOldest(ds, k)
    decreases |ds|
  {
    k :| k in ds;
    var rest := ds - {k};
    assert forall id :: id in ds && id != k ==> id in rest && rest[id] == ds[id];
    if rest == map[] {
    } else {
      var j := OldestExists(rest);
      if ds[j].lastAtMs < ds[k].lastAtMs { k := j; }
    }
  }

  // ---------------------------------------------------------------- one incident at a time

  /** No two entries of a snapshot carry the same id. */
  ghost predicate DistinctIds(alerts: seq<Alert>) {
    forall i, j :: 0 <= i < j < |alerts| && alerts[i].id.Some? ==> alerts[i].id != alerts[j].id
  }

  predicate Lists(due: seq<Chosen>, id: string) { exists i :: 0 <= i < |due| && due[i].0 == id }

  ghost predicate OnceEach(due: seq<Chosen>) { forall i, j :: 0 <= i < j < |due| ==> due[i].0 != due[j].0 }

  ghost predicate ConsideredIn(alerts: seq<Alert>, id: string) {
    exists i :: 0 <= i < |alerts| && Considered(alerts[i]) && alerts[i].id.value == id
  }

  lemma {:induction false} CollectById(ds: Deliveries, alerts: seq<Alert>, now: int)
    requires DistinctIds(alerts)
    ensures var (d1, due) := Collect(ds, alerts, now);
            && OnceEach(due)
            && (forall id :: Entry(d1, id) == Entry(ds, id))
            && (forall id :: id in ds ==> id in d1)
            && (forall i :: 0 <= i < |due| ==>
                  ConsideredIn(alerts, due[i].0) && Eligible(Entry(ds, due[i].0), due[i].1, now))
  {
    if alerts == [] {
    } else {
      var before, a := alerts[..|alerts| - 1], alerts[|alerts| - 1];
      CollectById(ds, before, now);
      var (d1, due) := Collect(ds, before, now);
      forall id | ConsideredIn(before, id)
        ensures ConsideredIn(alerts, id) && a.id != Some(id)
      {
        var i :| 0 <= i < |before| && Considered(before[i]) && before[i].id.value == id;
        assert alerts[i] == before[i];
      }
      if Considered(a) { assert ConsideredIn(alerts, a.id.value); }
    }
  }

  lemma {:induction false} MarkById(ds: Deliveries, due: seq<Chosen>, now: int, ok: bool, id: string)
    requires OnceEach(due)
    ensures Entry(Mark(ds, due, now, ok), id) ==
            if Lists(due, id) then Delivery(ok, Entry(ds, id).attempts + 1, now) else Entry(ds, id)
  {
    if due == [] {
    } else {
      var before, last := due[..|due| - 1], due[|due| - 1];
      MarkById(ds, before, now, ok, id);
      MarkById(ds, before, now, ok, last.0);
      if Lists(before, id) {
        var i :| 0 <= i < |before| && before[i].0 == id;
        assert due[i].0 == id;
      }
      if last.0 == id { assert due[|due| - 1].0 == id; }
    }
  }

  // ---------------------------------------------------------------- runs

  /** A poll of the daemon; a poll whose worker dies before its attempts are saved; a restart from the state file. */
  datatype Event =
    | Polled(alerts: seq<Alert>, now: int, ok: bool)
    | Unsaved(alerts: seq<Alert>, now: int, ok: bool)
    | Reloaded

  datatype State = State(deliveries: Deliveries, saved: Deliveries)

  datatype Attempt = Attempt(id: string, atMs: int, critical: bool, ok: bool, saved: bool)

  function AttemptsAt(due: seq<Chosen>, now: int, ok: bool, saved: bool): seq<Attempt> {
    seq(|due|, i requires 0 <= i < |due| => Attempt(due[i].0, now, due[i].1, ok, saved))
  }

  function Attempts(s: State, e: Event): seq<Attempt> {
    if e.Reloaded? then [] else AttemptsAt(Collect(s.deliveries, e.alerts, e.now).1, e.now, e.ok, e.Polled?)
  }

  /** The entries after a poll that attempted something, before eviction. */
  function Marked(s: State, alerts: seq<Alert>, now: int, ok: bool): Deliveries {
    var (d1, due) := Collect(s.deliveries, alerts, now);
    Retain(Mark(d1, due, now, ok), now)
  }

  /** What one event may do. */
  ghost predicate Steps(s: State, e: Event, t: State) {
    match e
    case Reloaded => t == State(s.saved, s.saved)
    case Unsaved(_, _, _) => t == State(s.saved, s.saved)
    case Polled(alerts, now, ok) =>
      var (d1, due) := Collect(s.deliveries, alerts, now);
      if due == [] then t == State(d1, s.saved)
      else Trimmed(Marked(s, alerts, now, ok), t.deliveries) && t.saved == t.deliveries
  }

  /** The entry limit costs this incident its entry. */
  ghost predicate Evicts(s: State, e: Event, t: State, id: string) {
    && e.Polled? && Collect(s.deliveries, e.alerts, e.now).1 != []
    && id in Marked(s, e.alerts, e.now, e.ok) && id !in t.deliveries
  }

  /** states[i + 1] follows states[i] by events[i]; polls have distinct ids and a clock that does not step back. */
  ghost predicate IsRun(states: seq<State>, events: seq<Event>, clocks: seq<int>) {
    && |states| == |clocks| == |events| + 1
    && states[0].deliveries == states[0].saved
    && (forall i :: 0 <= i < |events| ==> Steps(states[i], events[i], states[i + 1]))
    && (forall i :: 0 <= i < |events| ==> clocks[i] <= clocks[i + 1])
    && (forall i :: 0 <= i < |events| && !events[i].Reloaded? ==>
          DistinctIds(events[i].alerts) && clocks[i + 1] == events[i].now)
  }

  ghost predicate NeverEvicted(states: seq<State>, events: seq<Event>, id: string)
    requires |states| == |events| + 1
  {
    forall i :: 0 <= i < |events| ==> !Evicts(states[i], events[i], states[i + 1], id)
  }

  ghost function Log(states: seq<State>, events: seq<Event>): seq<Attempt>
    requires |states| == |events| + 1
    decreases |events|
  {
    if events == [] then [] else
      Log(states[..|events|], events[..|events| - 1]) + Attempts(states[|events| - 1], events[|events| - 1])
  }

  function Of(log: seq<Attempt>, id: string): seq<Attempt> {
    if log == [] then [] else
      Of(log[..|log| - 1], id) + (if log[|log| - 1].id == id then [log[|log| - 1]] else [])
  }

  /**
   * The limits on one incident's attempts: 30 s apart, a fourth no sooner than 30 days after the first, and after a
   * success no attempt as a warning for 30 days.
   */
  ghost predicate WithinLimits(mine: seq<Attempt>) {
    && (forall i :: 0 <= i < |mine| - 1 ==> mine[i].atMs + SPACING_MS <= mine[i + 1].atMs)
    && (forall i :: 0 <= i < |mine| - 3 ==> mine[i].atMs + EXPIRY_MS <= mine[i + 3].atMs)
    && (forall i :: 0 <= i < |mine| - 1 && mine[i].ok && !mine[i + 1].critical ==>
       mine[i].atMs + EXPIRY_MS <= mine[i + 1].atMs)
  }

  /** How an entry accounts for the attempts of its incident so far. */
  ghost predicate Tracks(d: Delivery, mine: seq<Attempt>, now: int) {
    && WithinLimits(mine)
    && (mine != [] ==>
          var last := mine[|mine| - 1];
          && last.atMs <= now
          && (d.attempts == 0 ==> last.atMs + EXPIRY_MS <= now)
          && (d.attempts > 0 ==> d.lastAtMs == last.atMs && d.delivered == last.ok)
          && (0 < d.attempts < |mine| ==>
                mine[|mine| - d.attempts - 1].atMs + EXPIRY_MS <= mine[|mine| - d.attempts].atMs))
  }

  lemma {:induction false} Ascending(mine: seq<Attempt>, i: nat, j: nat)
    requires WithinLimits(mine) && i <= j < |mine|
    ensures mine[i].atMs <= mine[j].atMs
    decreases j
  {
    if i >= j {
    } else {
      Ascending(mine, i, j - 1);
      assert mine[j - 1].atMs + SPACING_MS <= mine[j - 1 + 1].atMs;
    }
  }

  /** No four attempts within 30 days once the next one is added, if it was eligible. */
  lemma WindowKept(d: Delivery, mine: seq<Attempt>, clock: int, now: int)
    requires Tracks(d, mine, clock) && clock <= now && d.attempts < MAX_ATTEMPTS && |mine| >= 3
    ensures mine[|mine| - 3].atMs + EXPIRY_MS <= now
  {
    var n := |mine|;
    Ascending(mine, n - 3, if d.attempts == 0 then n - 1 else n - d.attempts - 1);
    if d.attempts > 0 { Ascending(mine, n - d.attempts, n - 1); }
  }

  lemma LimitsExtend(mine: seq<Attempt>, a: Attempt)
    requires WithinLimits(mine)
    requires mine != [] ==> mine[|mine| - 1].atMs + SPACING_MS <= a.atMs
    requires mine != [] && mine[|mine| - 1].ok && !a.critical ==> mine[|mine| - 1].atMs + EXPIRY_MS <= a.atMs
    requires |mine| >= 3 ==> mine[|mine| - 3].atMs + EXPIRY_MS <= a.atMs
    ensures WithinLimits(mine + [a])
  {
    var all, n := mine + [a], |mine|;
    forall i | 0 <= i < n
      ensures all[i].atMs + SPACING_MS <= all[i + 1].atMs
      ensures all[i].ok && !all[i + 1].critical ==> all[i].atMs + EXPIRY_MS <= all[i + 1].atMs
    {
      if i < n - 1 { assert all[i] == mine[i] && all[i + 1] == mine[i + 1]; }
    }
    forall i | 0 <= i < n - 2
      ensures all[i].atMs + EXPIRY_MS <= all[i + 3].atMs
    {
      if i < n - 3 { assert all[i] == mine[i] && all[i + 3] == mine[i + 3]; }
    }
  }

  lemma AttemptTracked(d: Delivery, mine: seq<Attempt>, clock: int, a: Attempt)
    requires Tracks(d, mine, clock) && clock <= a.atMs && Eligible(d, a.critical, a.atMs)
    ensures Tracks(Delivery(a.ok, d.attempts + 1, a.atMs), mine + [a], a.atMs)
  {
    if |mine| >= 3 { WindowKept(d, mine, clock, a.atMs); }
    LimitsExtend(mine, a);
  }

  // ---------------------------------------------------------------- attempts that were not saved

  function SavedOf(mine: seq<Attempt>): seq<Attempt> {
    if mine == [] then [] else
      SavedOf(mine[..|mine| - 1]) + (if mine[|mine| - 1].saved then [mine[|mine| - 1]] else [])
  }

  ghost predicate Spaced(a: Attempt, b: Attempt) {
    a.atMs + SPACING_MS <= b.atMs && (a.ok && !b.critical ==> a.atMs + EXPIRY_MS <= b.atMs)
  }

  ghost predicate SavedAt(mine: seq<Attempt>, i: nat)
    requires i + 3 <= |mine|
  {
    mine[i].saved && mine[i + 1].saved && mine[i + 2].saved
  }

  /** The limits, wherever the attempts they count back over were saved. */
  ghost predicate SavedSpaced(mine: seq<Attempt>) {
    && (forall i :: 0 <= i < |mine| - 1 && mine[i].saved ==> Spaced(mine[i], mine[i + 1]))
    && (forall i :: 0 <= i < |mine| - 3 && SavedAt(mine, i) ==> mine[i].atMs + EXPIRY_MS <= mine[i + 3].atMs)
  }

  /** The limits, wherever an attempt they count back over was lost. */
  ghost predicate LostSpaced(mine: seq<Attempt>) {
    && (forall i :: 0 <= i < |mine| - 1 && !mine[i].saved ==> Spaced(mine[i], mine[i + 1]))
    && (forall i :: 0 <= i < |mine| - 3 && !SavedAt(mine, i) ==> mine[i].atMs + EXPIRY_MS <= mine[i + 3].atMs)
  }

  lemma SavedSnoc(mine: seq<Attempt>, a: Attempt)
    ensures SavedOf(mine + [a]) == SavedOf(mine) + (if a.saved then [a] else [])
  {
    assert (mine + [a])[..|mine|] == mine;
  }

  /** The last attempts, if saved, are the last of the saved ones. */
  lemma SavedTail(mine: seq<Attempt>)
    ensures mine != [] && mine[|mine| - 1].saved ==>
              var kept := SavedOf(mine); kept != [] && kept[|kept| - 1] == mine[|mine| - 1]
    ensures |mine| >= 3 && SavedAt(mine, |mine| - 3) ==>
              var kept := SavedOf(mine); |kept| >= 3 && kept[|kept| - 3] == mine[|mine| - 3]
  {
    if |mine| >= 3 && SavedAt(mine, |mine| - 3) {
      var one, two := mine[..|mine| - 1], mine[..|mine| - 2];
      assert one[..|one| - 1] == two;
      assert SavedOf(mine) == SavedOf(one) + [mine[|mine| - 1]];
      assert SavedOf(one) == SavedOf(two) + [mine[|mine| - 2]];
      assert SavedOf(two) == SavedOf(two[..|two| - 1]) + [mine[|mine| - 3]];
    }
  }

  /** The limits of a new attempt with respect to the saved ones. */
  ghost predicate Allowed(kept: seq<Attempt>, a: Attempt) {
    && (kept != [] ==> Spaced(kept[|kept| - 1], a))
    && (|kept| >= 3 ==> kept[|kept| - 3].atMs + EXPIRY_MS <= a.atMs)
  }

  lemma EligibleIsAllowed(d: Delivery, kept: seq<Attempt>, clock: int, a: Attempt)
    requires Tracks(d, kept, clock) && clock <= a.atMs && Eligible(d, a.critical, a.atMs)
    ensures Allowed(kept, a)
  {
    AttemptTracked(d, kept, clock, a);
    LastSpaced(kept, a);
  }

  lemma AllowedExtends(mine: seq<Attempt>, a: Attempt)
    requires SavedSpaced(mine) && Allowed(SavedOf(mine), a)
    ensures SavedSpaced(mine + [a])
  {
    SavedTail(mine);
    PairsExtend(mine, a);
    WindowsExtend(mine, a);
  }

  /** An eligible attempt keeps the limits with respect to the saved attempts that it counts back over. */
  lemma SavedSpacedExtend(d: Delivery, mine: seq<Attempt>, clock: int, a: Attempt)
    requires SavedSpaced(mine) && Tracks(d, SavedOf(mine), clock)
    requires clock <= a.atMs && Eligible(d, a.critical, a.atMs)
    ensures SavedSpaced(mine + [a])
  {
    EligibleIsAllowed(d, SavedOf(mine), clock, a);
    AllowedExtends(mine, a);
  }

  lemma PairsExtend(mine: seq<Attempt>, a: Attempt)
    requires SavedSpaced(mine)
    requires mine != [] && mine[|mine| - 1].saved ==> Spaced(mine[|mine| - 1], a)
    ensures var all := mine + [a]; forall i :: 0 <= i < |all| - 1 && all[i].saved ==> Spaced(all[i], all[i + 1])
  {
    var all := mine + [a];
    forall i | 0 <= i < |mine| && all[i].saved
      ensures Spaced(all[i], all[i + 1])
    {
      if i < |mine| - 1 { assert all[i] == mine[i] && all[i + 1] == mine[i + 1]; }
    }
  }

  lemma WindowsExtend(mine: seq<Attempt>, a: Attempt)
    requires SavedSpaced(mine)
    requires |mine| >= 3 && SavedAt(mine, |mine| - 3) ==> mine[|mine| - 3].atMs + EXPIRY_MS <= a.atMs
    ensures var all := mine + [a];
            forall i :: 0 <= i < |all| - 3 && SavedAt(all, i) ==> all[i].atMs + EXPIRY_MS <= all[i + 3].atMs
  {
    var all := mine + [a];
    forall i | 0 <= i < |mine| - 2 && SavedAt(all, i)
      ensures all[i].atMs + EXPIRY_MS <= all[i + 3].atMs
    {
      assert SavedAt(mine, i) && all[i] == mine[i];
      if i < |mine| - 3 { assert all[i + 3] == mine[i + 3]; }
    }
  }

  lemma LastSpaced(kept: seq<Attempt>, a: Attempt)
    requires WithinLimits(kept + [a])
    ensures kept != [] ==> Spaced(kept[|kept| - 1], a)
    ensures |kept| >= 3 ==> kept[|kept| - 3].atMs + EXPIRY_MS <= a.atMs
  {
    var all, n := kept + [a], |kept|;
    if kept != [] { assert all[n - 1] == kept[n - 1] && all[n - 1 + 1] == a; }
    if n >= 3 { assert all[n - 3] == kept[n - 3] && all[n - 3 + 3] == a; }
  }

  /**
   * One lost attempt: the worker dies before saving it and the next one, from the same entry, attempts again. Together
   * with the saved attempts before them the two keep the limits exactly when the second comes 30 s after the first, 30
   * days after it if it repeats a success as a warning, and 30 days after the last saved attempt but one.
   */
  lemma UnsavedPollRepeats(d: Delivery, mine: seq<Attempt>, clock: int, a1: Attempt, a2: Attempt)
    requires Tracks(d, mine, clock) && clock <= a1.atMs <= a2.atMs
    requires Eligible(d, a1.critical, a1.atMs) && Eligible(d, a2.critical, a2.atMs)
    ensures WithinLimits(mine + [a1, a2]) <==>
            && a1.atMs + SPACING_MS <= a2.atMs
            && (a1.ok && !a2.critical ==> a1.atMs + EXPIRY_MS <= a2.atMs)
            && (|mine| >= 2 ==> mine[|mine| - 2].atMs + EXPIRY_MS <= a2.atMs)
  {
    AttemptTracked(d, mine, clock, a1);
    var one, both := mine + [a1], mine + [a1, a2];
    assert both == one + [a2];
    if Spaced(a1, a2) && (|mine| >= 2 ==> mine[|mine| - 2].atMs + EXPIRY_MS <= a2.atMs) { LimitsExtend(one, a2); }
    if WithinLimits(both) { LastSpaced(one, a2); }
  }

  // ---------------------------------------------------------------- every run

  /** Entries of two states that differ in no attempted entry. */
  ghost predicate Agree(a: Deliveries, b: Deliveries) {
    forall id :: Entry(a, id) == Entry(b, id) || (Entry(a, id).attempts == 0 && Entry(b, id).attempts == 0)
  }

  /** How the entries account for the attempts of one incident so far. */
  ghost predicate Tracked(ds: Deliveries, mine: seq<Attempt>, now: int, id: string) {
    Tracks(Entry(ds, id), SavedOf(mine), now) && SavedSpaced(mine)
  }

  lemma {:induction false} OfConcat(a: seq<Attempt>, b: seq<Attempt>, id: string)
    ensures Of(a + b, id) == Of(a, id) + Of(b, id)
  {
    if b == [] {
      assert a + b == a;
    } else {
      assert (a + b)[..|a + b| - 1] == a + b[..|b| - 1];
      OfConcat(a, b[..|b| - 1], id);
    }
  }

  /** A poll attempts an incident at most once. */
  lemma {:induction false} OfAttempts(due: seq<Chosen>, now: int, ok: bool, saved: bool, id: string)
    requires OnceEach(due)
    ensures var mine := Of(AttemptsAt(due, now, ok, saved), id);
            && (!Lists(due, id) ==> mine == [])
            && (Lists(due, id) ==>
                  exists i :: 0 <= i < |due| && due[i].0 == id && mine == [Attempt(id, now, due[i].1, ok, saved)])
  {
    if due == [] {
    } else {
      var before, last := due[..|due| - 1], due[|due| - 1];
      var xs := AttemptsAt(due, now, ok, saved);
      assert xs[..|xs| - 1] == AttemptsAt(before, now, ok, saved);
      OfAttempts(before, now, ok, saved, id);
      if last.0 == id {
        assert due[|due| - 1].0 == id && Of(xs, id) == [Attempt(id, now, last.1, ok, saved)];
      } else if Lists(due, id) {
        var i :| 0 <= i < |due| && due[i].0 == id;
        assert before[i].0 == id;
      }
    }
  }

  /** What a poll attempts of an incident, and its entry after the marking pass. */
  lemma PollEffect(ds: Deliveries, alerts: seq<Alert>, now: int, ok: bool, saved: bool, id: string)
      returns (added: seq<Attempt>)
    requires DistinctIds(alerts)
    ensures var (d1, due) := Collect(ds, alerts, now);
            && added == Of(AttemptsAt(due, now, ok, saved), id)
            && |added| <= 1
            && (added == [] ==> Entry(Mark(d1, due, now, ok), id) == Entry(ds, id))
            && (added != [] ==>
                  && added[0] == Attempt(id, now, added[0].critical, ok, saved)
                  && Eligible(Entry(ds, id), added[0].critical, now)
                  && Entry(Mark(d1, due, now, ok), id) == Delivery(ok, Entry(ds, id).attempts + 1, now))
  {
    var (d1, due) := Collect(ds, alerts, now);
    CollectById(ds, alerts, now);
    MarkById(d1, due, now, ok, id);
    OfAttempts(due, now, ok, saved, id);
    added := Of(AttemptsAt(due, now, ok, saved), id);
  }

  /** A saved attempt, or none, and the entry that goes with it. */
  lemma SavedTracked(d: Delivery, mine: seq<Attempt>, clock: int, added: seq<Attempt>, now: int, after: Delivery)
    requires Tracks(d, SavedOf(mine), clock) && SavedSpaced(mine) && clock <= now && |added| <= 1
    requires added == [] ==> after == d
    requires added != [] ==> added[0].atMs == now && added[0].saved && Eligible(d, added[0].critical, now) &&
                             after == Delivery(added[0].ok, d.attempts + 1, now)
    ensures Tracks(after, SavedOf(mine + added), now) && SavedSpaced(mine + added)
  {
    if added == [] {
      assert mine + added == mine;
      Later(d, SavedOf(mine), clock, now);
    } else {
      assert mine + added == mine + [added[0]];
      SavedSnoc(mine, added[0]);
      AttemptTracked(d, SavedOf(mine), clock, added[0]);
      SavedSpacedExtend(d, mine, clock, added[0]);
    }
  }

  /** A lost attempt, or none: the entry stays as it was. */
  lemma LostTracked(d: Delivery, mine: seq<Attempt>, clock: int, added: seq<Attempt>, now: int)
    requires Tracks(d, SavedOf(mine), clock) && SavedSpaced(mine) && clock <= now && |added| <= 1
    requires added != [] ==> added[0].atMs == now && !added[0].saved && Eligible(d, added[0].critical, now)
    ensures Tracks(d, SavedOf(mine + added), now) && SavedSpaced(mine + added)
  {
    Later(d, SavedOf(mine), clock, now);
    if added == [] {
      assert mine + added == mine;
    } else {
      assert mine + added == mine + [added[0]];
      SavedSnoc(mine, added[0]);
      assert SavedOf(mine) + [] == SavedOf(mine);
      SavedSpacedExtend(d, mine, clock, added[0]);
    }
  }

  lemma PollTracked(s: State, alerts: seq<Alert>, now: int, ok: bool, t: State, mine: seq<Attempt>, clock: int,
                    id: string)
    requires DistinctIds(alerts) && clock <= now && Steps(s, Polled(alerts, now, ok), t)
    requires !Evicts(s, Polled(alerts, now, ok), t, id) && Tracked(s.deliveries, mine, clock, id)
    ensures Tracked(t.deliveries, mine + Of(Attempts(s, Polled(alerts, now, ok)), id), now, id)
  {
    var next := MarkTracked(s.deliveries, alerts, now, ok, mine, clock, id);
    EntryAfterPoll(s, alerts, now, ok, t, SavedOf(next), id);
  }

  lemma MarkTracked(ds: Deliveries, alerts: seq<Alert>, now: int, ok: bool, mine: seq<Attempt>, clock: int, id: string)
    returns (next: seq<Attempt>)
    requires DistinctIds(alerts) && clock <= now && Tracked(ds, mine, clock, id)
    ensures var (d1, due) := Collect(ds, alerts, now);
            && next == mine + Of(AttemptsAt(due, now, ok, true), id)
            && Tracks(Entry(Mark(d1, due, now, ok), id), SavedOf(next), now) && SavedSpaced(next)
  {
    var (d1, due) := Collect(ds, alerts, now);
    var added := PollEffect(ds, alerts, now, ok, true, id);
    SavedTracked(Entry(ds, id), mine, clock, added, now, Entry(Mark(d1, due, now, ok), id));
    next := mine + added;
  }

  /** Expiry, and eviction that spares this incident, keep its entry in accord with its attempts. */
  lemma EntryAfterPoll(s: State, alerts: seq<Alert>, now: int, ok: bool, t: State, kept: seq<Attempt>, id: string)
    requires Steps(s, Polled(alerts, now, ok), t) && !Evicts(s, Polled(alerts, now, ok), t, id)
    requires var (d1, due) := Collect(s.deliveries, alerts, now); Tracks(Entry(Mark(d1, due, now, ok), id), kept, now)
    ensures Tracks(Entry(t.deliveries, id), kept, now)
  {
    var (d1, due) := Collect(s.deliveries, alerts, now);
    if due == [] {
      assert Mark(d1, due, now, ok) == d1;
    } else {
      RetainTracked(Mark(d1, due, now, ok), kept, now, id);
      assert Entry(t.deliveries, id) == Entry(Marked(s, alerts, now, ok), id);
    }
  }

  lemma LostPollTracked(s: State, alerts: seq<Alert>, now: int, ok: bool, mine: seq<Attempt>, clock: int, id: string)
    requires DistinctIds(alerts) && clock <= now && Agree(s.deliveries, s.saved) &&
             Tracked(s.deliveries, mine, clock, id)
    ensures Tracked(s.saved, mine + Of(Attempts(s, Unsaved(alerts, now, ok)), id), now, id)
  {
    var added := PollEffect(s.deliveries, alerts, now, ok, false, id);
    LostTracked(Entry(s.deliveries, id), mine, clock, added, now);
    ReloadTracked(s, mine + added, now, id);
  }

  lemma RetainTracked(ds: Deliveries, mine: seq<Attempt>, now: int, id: string)
    requires Tracks(Entry(ds, id), mine, now)
    ensures Tracks(Entry(Retain(ds, now), id), mine, now)
  {}

  /** The state file never lags behind in an entry whose attempt was saved. */
  lemma StepAgrees(s: State, e: Event, t: State)
    requires Steps(s, e, t) && Agree(s.deliveries, s.saved) && (!e.Reloaded? ==> DistinctIds(e.alerts))
    ensures Agree(t.deliveries, t.saved)
  {
    if e.Polled? { CollectById(s.deliveries, e.alerts, e.now); }
  }

  lemma ReloadTracked(s: State, mine: seq<Attempt>, now: int, id: string)
    requires Agree(s.deliveries, s.saved) && Tracked(s.deliveries, mine, now, id)
    ensures Tracked(s.saved, mine, now, id)
  {
    assert Entry(s.deliveries, id) == Entry(s.saved, id) ||
           (Entry(s.deliveries, id).attempts == 0 && Entry(s.saved, id).attempts == 0);
  }

  lemma Later(d: Delivery, mine: seq<Attempt>, now: int, later: int)
    requires Tracks(d, mine, now) && now <= later
    ensures Tracks(d, mine, later)
  {}

  lemma StepTracked(s: State, e: Event, t: State, mine: seq<Attempt>, clock: int, next: int, id: string)
    requires Steps(s, e, t) && !Evicts(s, e, t, id) && clock <= next
    requires !e.Reloaded? ==> DistinctIds(e.alerts) && next == e.now
    requires Agree(s.deliveries, s.saved) && Tracked(s.deliveries, mine, clock, id)
    ensures Tracked(t.deliveries, mine + Of(Attempts(s, e), id), next, id)
  {
    match e
    case Polled(alerts, now, ok) => PollTracked(s, alerts, now, ok, t, mine, clock, id);
    case Unsaved(alerts, now, ok) => LostPollTracked(s, alerts, now, ok, mine, clock, id);
    case Reloaded =>
      ReloadTracked(s, mine, clock, id);
      Later(Entry(s.saved, id), SavedOf(mine), clock, next);
      assert mine + [] == mine;
  }

  lemma {:induction false} RunTracked(states: seq<State>, events: seq<Event>, clocks: seq<int>, id: string)
    requires IsRun(states, events, clocks) && NeverEvicted(states, events, id)
    ensures Tracked(states[|events|].deliveries, Of(Log(states, events), id), clocks[|events|], id)
    ensures Agree(states[|events|].deliveries, states[|events|].saved)
    decreases |events|
  {
    if events == [] {
    } else {
      var n := |events| - 1;
      ShorterRun(states, events, clocks, id);
      RunTracked(states[..n + 1], events[..n], clocks[..n + 1], id);
      var s, e, t, log := states[n], events[n], states[n + 1], Log(states[..n + 1], events[..n]);
      StepAgrees(s, e, t);
      StepTracked(s, e, t, Of(log, id), clocks[n], clocks[n + 1], id);
      OfConcat(log, Attempts(s, e), id);
    }
  }

  lemma ShorterRun(states: seq<State>, events: seq<Event>, clocks: seq<int>, id: string)
    requires IsRun(states, events, clocks) && NeverEvicted(states, events, id) && events != []
    ensures var n := |events| - 1; var s, e, t := states[n], events[n], states[n + 1];
            && IsRun(states[..n + 1], events[..n], clocks[..n + 1]) && NeverEvicted(states[..n + 1], events[..n], id)
            && Steps(s, e, t) && !Evicts(s, e, t, id) && clocks[n] <= clocks[n + 1]
            && (!e.Reloaded? ==> DistinctIds(e.alerts) && clocks[n + 1] == e.now)
  {}

  /**
   * Over any run with a clock that does not step back, restarts and lost polls included, of an incident whose entry
   * the size limit never evicts: its saved attempts are at least 30 s apart, at most three fall in any window shorter
   * than 30 days, and a success is not followed by an attempt as a warning within 30 days. All its attempts keep these
   * limits exactly when they do wherever the limits count back over an attempt that was lost.
   */
  lemma AttemptsAreLimited(states: seq<State>, events: seq<Event>, clocks: seq<int>, id: string)
    requires IsRun(states, events, clocks) && NeverEvicted(states, events, id)
    ensures var mine := Of(Log(states, events), id);
            && WithinLimits(SavedOf(mine))
            && (WithinLimits(mine) <==> LostSpaced(mine))
  {
    RunTracked(states, events, clocks, id);
    LimitsByLoss(Of(Log(states, events), id));
  }

  lemma LimitsByLoss(mine: seq<Attempt>)
    requires SavedSpaced(mine)
    ensures WithinLimits(mine) <==> LostSpaced(mine)
  {
    if LostSpaced(mine) {
      assert forall i :: 0 <= i < |mine| - 1 ==> Spaced(mine[i], mine[i + 1]);
      assert forall i :: 0 <= i < |mine| - 3 && SavedAt(mine, i) ==> mine[i].atMs + EXPIRY_MS <= mine[i + 3].atMs;
    }
  }

  /** With no poll lost, every attempt is within the limits. */
  lemma NoLossIsWithinLimits(states: seq<State>, events: seq<Event>, clocks: seq<int>, id: string)
    requires IsRun(states, events, clocks) && NeverEvicted(states, events, id)
    requires forall i :: 0 <= i < |events| ==> !events[i].Unsaved?
    ensures WithinLimits(Of(Log(states, events), id))
  {
    AttemptsAreLimited(states, events, clocks, id);
    AllSaved(states, events);
    OfSaved(Log(states, events), id);
  }

  lemma {:induction false} AllSaved(states: seq<State>, events: seq<Event>)
    requires |states| == |events| + 1 && forall i :: 0 <= i < |events| ==> !events[i].Unsaved?
    ensures forall i :: 0 <= i < |Log(states, events)| ==> Log(states, events)[i].saved
    decreases |events|
  {
    if events == [] {
    } else {
      AllSaved(states[..|events|], events[..|events| - 1]);
      assert !events[|events| - 1].Unsaved?;
    }
  }

  lemma {:induction false} OfSaved(log: seq<Attempt>, id: string)
    requires forall i :: 0 <= i < |log| ==> log[i].saved
    ensures forall i :: 0 <= i < |Of(log, id)| ==> Of(log, id)[i].saved
  {
    if log == [] {
    } else {
      OfSaved(log[..|log| - 1], id);
    }
  }

  /** Four attempts of one incident never fit in a window shorter than 30 days. */
  lemma NoFourInAWindow(mine: seq<Attempt>, i: nat, j: nat, start: int, length: nat)
    requires WithinLimits(mine) && i + 3 <= j < |mine| && length < EXPIRY_MS
    ensures !(start <= mine[i].atMs && mine[j].atMs <= start + length)
  {
    Ascending(mine, i + 3, j);
  }

  /** An acknowledged incident is not attempted. */
  lemma AcknowledgedIsLeftAlone(ds: Deliveries, alerts: seq<Alert>, now: int, i: nat)
    requires DistinctIds(alerts) && i < |alerts| && alerts[i].id.Some? && alerts[i].acknowledged
    ensures !Lists(Collect(ds, alerts, now).1, alerts[i].id.value)
  {
    CollectById(ds, alerts, now);
    var due := Collect(ds, alerts, now).1;
    forall k | 0 <= k < |due|
      ensures due[k].0 != alerts[i].id.value
    {
      assert ConsideredIn(alerts, due[k].0);
      var j :| 0 <= j < |alerts| && Considered(alerts[j]) && alerts[j].id.value == due[k].0;
    }
  }

  /** How often an incident is chosen, and how often it is listed unacknowledged and due. */
  function TimesChosen(due: seq<Chosen>, id: string): nat {
    if due == [] then 0 else TimesChosen(due[..|due| - 1], id) + (if due[|due| - 1].0 == id then 1 else 0)
  }

  function TimesDue(ds: Deliveries, alerts: seq<Alert>, now: int, id: string): nat {
    if alerts == [] then 0 else
      var a := alerts[|alerts| - 1];
      TimesDue(ds, alerts[..|alerts| - 1], now, id) +
      (if Considered(a) && a.id.value == id && Eligible(Entry(ds, id), a.critical, now) then 1 else 0)
  }

  /** For any snapshot whatever, each due listing of an incident is one attempt: once at most needs distinct ids. */
  lemma {:induction false} OneAttemptPerListing(ds: Deliveries, alerts: seq<Alert>, now: int, id: string)
    ensures TimesChosen(Collect(ds, alerts, now).1, id) == TimesDue(ds, alerts, now, id)
    ensures forall k :: Entry(Collect(ds, alerts, now).0, k) == Entry(ds, k)
  {
    if alerts == [] {
    } else {
      var before, a := alerts[..|alerts| - 1], alerts[|alerts| - 1];
      OneAttemptPerListing(ds, before, now, id);
      var (d1, due) := Collect(ds, before, now);
      if Considered(a) {
        assert (due + [(a.id.value, a.critical)])[..|due|] == due;
      }
    }
  }
}
