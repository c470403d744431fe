/** Which incidents are open: in the table, after a stream of updates, and while a batch is being retried. */
module OpenRows {
  import opened Wrappers
  import opened Telemetry
  import opened Alerts
  import opened AlertRuns
  import opened Storage

  /** Open incidents as pairs of kind and id. */
  type OpenSet = set<(Kind, nat)>

  function OpenIn(table: IncidentTable): OpenSet {
    set id | id in table && table[id].endMs.None? :: (table[id].json.kind, id)
  }

  function OpenOf(active: map<Kind, Incident>): OpenSet { set k | k in active :: (k, active[k].id) }

  function OpenStep(o: OpenSet, e: Incident): OpenSet {
    (set x | x in o && x.1 != e.id) + (if e.recoveredAtMs.None? then {(e.kind, e.id)} else {})
  }

  function OpenAfter(o: OpenSet, es: seq<Incident>): OpenSet {
    if es == [] then o else OpenStep(OpenAfter(o, es[..|es| - 1]), es[|es| - 1])
  }

  ghost predicate OnePerKind(o: OpenSet) { forall x, y :: x in o && y in o && x.0 == y.0 ==> x == y }

  lemma {:induction false} OpenAfterConcat(o: OpenSet, a: seq<Incident>, b: seq<Incident>)
    ensures OpenAfter(o, a + b) == OpenAfter(OpenAfter(o, a), b)
  {
    if b == [] {
      assert a + b == a;
    } else {
      assert (a + b)[..|a + b| - 1] == a + b[..|b| - 1];
      OpenAfterConcat(o, a, b[..|b| - 1]);
    }
  }

  /**
   * An incident is open after a stream when its last mention is its raise, or when it was open and is not mentioned.
   */
  lemma {:induction false} OpenAfterByMention(o: OpenSet, es: seq<Incident>, x: (Kind, nat))
    ensures x in OpenAfter(o, es) <==>
            if Mentions(es, x.1) then LastMention(es, x.1).recoveredAtMs.None? && LastMention(es, x.1).kind == x.0
            else x in o
  {
    if es == [] {
    } else {
      var before, e := es[..|es| - 1], es[|es| - 1];
      OpenAfterByMention(o, before, x);
      if e.id != x.1 {
        if Mentions(before, x.1) { MentionsPrefix(before, es, x.1); }
        if Mentions(es, x.1) { MentionsInit(es, x.1); }
      }
    }
  }

  /** The stored copy of an incident carries its own id and the row's end time. */
  ghost predicate TableSound(table: IncidentTable) {
    forall id :: id in table ==> table[id].json.id == id && table[id].json.recoveredAtMs == table[id].endMs
  }

  lemma UpsertOpens(table: IncidentTable, e: Incident)
    requires TableSound(table)
    ensures TableSound(UpsertIncident(table, e))
    ensures OpenIn(UpsertIncident(table, e)) == OpenStep(OpenIn(table), e)
  {
    var after := UpsertIncident(table, e);
    forall x: (Kind, nat)
      ensures x in OpenIn(after) <==> x in OpenStep(OpenIn(table), e)
    {
      InOpenIn(table, x);
      InOpenIn(after, x);
    }
  }

  lemma InOpenIn(table: IncidentTable, x: (Kind, nat))
    ensures x in OpenIn(table) <==> x.1 in table && table[x.1].endMs.None? && table[x.1].json.kind == x.0
  {
    if x.1 in table && table[x.1].endMs.None? && table[x.1].json.kind == x.0 {
      assert x == (table[x.1].json.kind, x.1);
    }
  }

  lemma InOpenOf(active: map<Kind, Incident>, x: (Kind, nat))
    ensures x in OpenOf(active) <==> x.0 in active && active[x.0].id == x.1
  {
    if x.0 in active && active[x.0].id == x.1 {
      assert x == (x.0, active[x.0].id);
    }
  }

  lemma AcknowledgeOpensNothing(table: IncidentTable, id: nat, at: int)
    requires TableSound(table)
    ensures TableSound(Acknowledge(table, id, at)) && OpenIn(Acknowledge(table, id, at)) == OpenIn(table)
  {
    var after := Acknowledge(table, id, at);
    forall x: (Kind, nat)
      ensures x in OpenIn(after) <==> x in OpenIn(table)
    {
      InOpenIn(table, x);
      InOpenIn(after, x);
    }
  }

  // ---------------------------------------------------------------- lawful streams

  /** A raise is of a kind that is not open and bears an id never seen; a recovery closes an open incident. */
  ghost predicate Lawful(o: OpenSet, es: seq<Incident>) {
    es == [] ||
    var before, e := es[..|es| - 1], es[|es| - 1];
    && Lawful(o, before)
    && if e.recoveredAtMs.None? then
         && (forall x :: x in OpenAfter(o, before) ==> x.0 != e.kind)
         && !Mentions(before, e.id) && (forall x :: x in o ==> x.1 != e.id)
       else (e.kind, e.id) in OpenAfter(o, before)
  }

  lemma {:induction false} LawfulPrefix(o: OpenSet, es: seq<Incident>, n: nat)
    requires Lawful(o, es) && n <= |es|
    ensures Lawful(o, es[..n])
  {
    if n == |es| {
      assert es[..n] == es;
    } else {
      LawfulPrefix(o, es[..|es| - 1], n);
      assert es[..|es| - 1][..n] == es[..n];
    }
  }

  lemma {:induction false} LawfulKeepsOnePerKind(o: OpenSet, es: seq<Incident>)
    requires Lawful(o, es) && OnePerKind(o)
    ensures OnePerKind(OpenAfter(o, es))
  {
    if es == [] {
    } else {
      LawfulKeepsOnePerKind(o, es[..|es| - 1]);
    }
  }

  /** Splitting a lawful stream: the rest is lawful from where the first part leaves off. */
  lemma {:induction false} LawfulSuffix(o: OpenSet, a: seq<Incident>, b: seq<Incident>)
    requires Lawful(o, a + b)
    ensures Lawful(o, a) && Lawful(OpenAfter(o, a), b)
  {
    if b == [] {
      assert a + b == a;
    } else {
      var before, e := b[..|b| - 1], b[|b| - 1];
      assert (a + b)[..|a + b| - 1] == a + before;
      LawfulSuffix(o, a, before);
      OpenAfterConcat(o, a, before);
      if e.recoveredAtMs.None? {
        MentionsIn(a, before, e.id);
        forall x | x in OpenAfter(o, a)
          ensures x.1 != e.id
        {
          OpenAfterByMention(o, a, x);
        }
      }
    }
  }

  lemma MentionsIn(a: seq<Incident>, b: seq<Incident>, id: nat)
    ensures Mentions(a + b, id) <==> Mentions(a, id) || Mentions(b, id)
  {
    if Mentions(a, id) {
      var i :| 0 <= i < |a| && a[i].id == id;
      assert (a + b)[i].id == id;
    }
    if Mentions(b, id) {
      var i :| 0 <= i < |b| && b[i].id == id;
      assert (a + b)[|a| + i].id == id;
    }
  }

  /** Every id in the set and in the stream is below the bound. */
  ghost predicate IdsBelow(o: OpenSet, es: seq<Incident>, bound: nat) {
    && (forall x :: x in o ==> x.1 < bound)
    && (forall i :: 0 <= i < |es| ==> es[i].id < bound)
  }

  /** Raises bear fresh ids from lo up to hi, in increasing order. */
  ghost predicate FreshRaises(es: seq<Incident>, lo: nat, hi: nat) {
    && lo <= hi
    && (forall i :: 0 <= i < |es| && es[i].recoveredAtMs.None? ==> lo <= es[i].id < hi)
    && (forall i, j :: 0 <= i < j < |es| && es[i].recoveredAtMs.None? && es[j].recoveredAtMs.None? ==>
       es[i].id < es[j].id)
  }

  lemma {:induction false} VisitAllFresh(e: EngineState, t: Sample, p: Policy, ks: seq<Kind>)
    requires Filed(e)
    requires forall i :: 0 <= i < |ks| ==> Report(t, p, ks[i]).Some?
    ensures var (after, events) := VisitAll(e, t, p, ks);
            Filed(after) && FreshRaises(events, e.nextId, after.nextId)
  {
    if ks == [] {
    } else {
      var before, v := ks[..|ks| - 1], ks[|ks| - 1];
      VisitAllFresh(e, t, p, before);
      var (mid, first) := VisitAll(e, t, p, before);
      var (after, last) := Visit(mid, t, p, v, Report(t, p, v).value);
      FreshConcat(first, last, e.nextId, mid.nextId, after.nextId);
    }
  }

  lemma FreshConcat(a: seq<Incident>, b: seq<Incident>, lo: nat, mid: nat, hi: nat)
    requires FreshRaises(a, lo, mid) && FreshRaises(b, mid, hi)
    ensures FreshRaises(a + b, lo, hi)
  {}

  /** Every incident the engine raises bears a new identifier. */
  lemma StepIsFresh(e: EngineState, x: Input)
    requires Filed(e)
    ensures FreshRaises(AlertRuns.Step(e, x).1, e.nextId, AlertRuns.Step(e, x).0.nextId)
  {
    if x.Observed? {
      KindsAreReported(x.t, x.p);
      var b := Begin(e, x.t, x.maxGapMs);
      VisitAllFresh(b, x.t, x.p, Kinds(x.t));
      var (after, events) := VisitAll(b, x.t, x.p, Kinds(x.t));
      FreshConcat(Restored(e, x.t), events, e.nextId, e.nextId, after.nextId);
    }
  }

  /** A lawful stream goes on lawfully with events that are lawful from its end and raise fresh ids only. */
  lemma {:induction false} LawfulConcat(o: OpenSet, a: seq<Incident>, b: seq<Incident>, lo: nat, hi: nat)
    requires Lawful(o, a) && Lawful(OpenAfter(o, a), b) && IdsBelow(o, a, lo) && FreshRaises(b, lo, hi)
    ensures Lawful(o, a + b)
  {
    if b == [] {
      assert a + b == a;
    } else {
      var before, e := b[..|b| - 1], b[|b| - 1];
      assert (a + b)[..|a + b| - 1] == a + before;
      LawfulConcat(o, a, before, lo, hi);
      OpenAfterConcat(o, a, before);
      if e.recoveredAtMs.None? { MentionsIn(a, before, e.id); }
    }
  }

  /** Distinct ids below a bound. */
  ghost predicate DistinctBelow(active: map<Kind, Incident>, bound: nat) {
    && (forall k :: k in active ==> active[k].kind == k && active[k].id < bound)
    && (forall k, l :: k in active && l in active && active[k].id == active[l].id ==> k == l)
  }

  /** The bound below which the raises before the last event lie. */
  function TopBefore(e: Incident, hi: nat): nat { if IsRaise(e) then e.id else hi }

  lemma FreshInit(es: seq<Incident>, lo: nat, hi: nat)
    requires FreshRaises(es, lo, hi) && es != []
    ensures var e := es[|es| - 1]; var top := TopBefore(e, hi);
            FreshRaises(es[..|es| - 1], lo, top) && top <= hi && (IsRaise(e) ==> lo <= top <= e.id < hi)
  {}

  /** Events that replay properly on the active map open exactly the replayed map. */
  lemma {:induction false} ReplayOpens(active: map<Kind, Incident>, es: seq<Incident>, lo: nat, hi: nat)
    requires DistinctBelow(active, lo) && AlertRuns.Alternates(active, es) && FreshRaises(es, lo, hi)
    ensures DistinctBelow(Replay(active, es), hi)
    ensures OpenAfter(OpenOf(active), es) == OpenOf(Replay(active, es))
    ensures forall i :: 0 <= i < |es| ==> es[i].id < hi
  {
    if es == [] {
    } else {
      var before, e := es[..|es| - 1], es[|es| - 1];
      FreshInit(es, lo, hi);
      ReplayOpens(active, before, lo, TopBefore(e, hi));
      ReplayStepOpens(Replay(active, before), e, TopBefore(e, hi), hi);
    }
  }

  /** And they are a lawful stream. */
  lemma {:induction false} ReplayIsLawful(active: map<Kind, Incident>, es: seq<Incident>, lo: nat, hi: nat)
    requires DistinctBelow(active, lo) && AlertRuns.Alternates(active, es) && FreshRaises(es, lo, hi)
    ensures Lawful(OpenOf(active), es)
  {
    if es == [] {
    } else {
      var before, e := es[..|es| - 1], es[|es| - 1];
      FreshInit(es, lo, hi);
      ReplayIsLawful(active, before, lo, TopBefore(e, hi));
      LastIsLawful(active, before, e, lo, TopBefore(e, hi));
      assert es == before + [e];
    }
  }

  lemma LastIsLawful(active: map<Kind, Incident>, before: seq<Incident>, e: Incident, lo: nat, top: nat)
    requires DistinctBelow(active, lo) && AlertRuns.Alternates(active, before) && FreshRaises(before, lo, top)
    requires Follows(Replay(active, before), e) && (IsRaise(e) ==> lo <= top <= e.id)
    ensures var o := OpenAfter(OpenOf(active), before);
            if IsRaise(e) then
              (forall x :: x in o ==> x.0 != e.kind) && !Mentions(before, e.id) &&
                (forall x :: x in OpenOf(active) ==> x.1 != e.id)
            else (e.kind, e.id) in o
  {
    ReplayOpens(active, before, lo, top);
    ReplayStepOpens(Replay(active, before), e, if IsRaise(e) then top else top + e.id + 1,
                    if IsRaise(e) then e.id + 1 else top + e.id + 1);
    if IsRaise(e) { RaiseIsNew(active, before, e, lo); }
  }

  lemma RaiseIsNew(active: map<Kind, Incident>, before: seq<Incident>, e: Incident, lo: nat)
    requires DistinctBelow(active, lo) && lo <= e.id
    requires forall i :: 0 <= i < |before| ==> before[i].id < e.id
    ensures !Mentions(before, e.id) && forall x :: x in OpenOf(active) ==> x.1 != e.id
  {}

  lemma ReplayStepOpens(active: map<Kind, Incident>, e: Incident, top: nat, hi: nat)
    requires DistinctBelow(active, top) && top <= hi && Follows(active, e)
    requires e.recoveredAtMs.None? ==> top <= e.id < hi
    ensures DistinctBelow(ReplayOne(active, e), hi)
    ensures OpenStep(OpenOf(active), e) == OpenOf(ReplayOne(active, e))
    ensures e.id < hi
    ensures e.recoveredAtMs.None? ==> forall x :: x in OpenOf(active) ==> x.0 != e.kind
    ensures e.recoveredAtMs.Some? ==> (e.kind, e.id) in OpenOf(active)
  {
    forall x: (Kind, nat)
      ensures x in OpenStep(OpenOf(active), e) <==> x in OpenOf(ReplayOne(active, e))
    {
      InOpenOf(active, x);
      InOpenOf(ReplayOne(active, e), x);
    }
  }

  // ---------------------------------------------------------------- one batch, retried

  ghost predicate Within(ns: seq<nat>, n: nat) { forall m :: 0 <= m < |ns| ==> ns[m] <= n }

  /** Open rows after several attempts at a stream, each stopped after the given number of updates. */
  ghost function Attempts(o: OpenSet, es: seq<Incident>, ns: seq<nat>): OpenSet
    requires Within(ns, |es|)
  {
    if ns == [] then o else OpenAfter(Attempts(o, es, ns[..|ns| - 1]), es[..ns[|ns| - 1]])
  }

  /** All but the last attempt failed, having written at most `limit` updates. */
  ghost predicate CanStop(ns: seq<nat>, es: seq<Incident>, limit: nat) {
    && Within(ns, |es|)
    && (forall m :: 0 <= m < |ns| - 1 ==> ns[m] <= limit)
  }

  /** Some kind is raised twice among the updates. */
  predicate DoubleRaise(es: seq<Incident>) {
    exists i, j :: 0 <= i < j < |es| && IsRaise(es[i]) && IsRaise(es[j]) && es[i].kind == es[j].kind
  }

  /** Attempts that got as far as M leave open only raises among the first M, and old rows those never mention. */
  ghost predicate Traced(now: OpenSet, o: OpenSet, es: seq<Incident>, M: nat)
    requires M <= |es|
  {
    forall x :: x in now ==> (x in o && !Mentions(es[..M], x.1)) || RaisedIn(es, M, x)
  }

  ghost predicate RaisedIn(es: seq<Incident>, M: nat, x: (Kind, nat))
    requires M <= |es|
  {
    exists i :: 0 <= i < M && IsRaise(es[i]) && x == (es[i].kind, es[i].id)
  }

  /** Rows not mentioned by the first M updates are as they were. */
  ghost predicate Untouched(now: OpenSet, o: OpenSet, es: seq<Incident>, M: nat)
    requires M <= |es|
  {
    forall x: (Kind, nat) :: !Mentions(es[..M], x.1) ==> (x in now <==> x in o)
  }

  lemma AttemptKeepsTrace(now: OpenSet, o: OpenSet, es: seq<Incident>, M: nat, n: nat)
    requires M <= |es| && n <= |es| && Traced(now, o, es, M) && Untouched(now, o, es, M)
    ensures var top := if n <= M then M else n;
            Traced(OpenAfter(now, es[..n]), o, es, top) && Untouched(OpenAfter(now, es[..n]), o, es, top)
  {
    var top := if n <= M then M else n;
    forall x: (Kind, nat)
      ensures x in OpenAfter(now, es[..n]) ==> (x in o && !Mentions(es[..top], x.1)) || RaisedIn(es, top, x)
      ensures !Mentions(es[..top], x.1) ==> (x in OpenAfter(now, es[..n]) <==> x in o)
    {
      OpenAfterByMention(now, es[..n], x);
      MentionsShorter(es, n, top, x.1);
      MentionsShorter(es, M, top, x.1);
      if Mentions(es[..n], x.1) && x in OpenAfter(now, es[..n]) { LastMentionIndex(es[..n], x.1); }
    }
  }

  lemma MentionsShorter(es: seq<Incident>, n: nat, top: nat, id: nat)
    requires n <= top <= |es|
    ensures Mentions(es[..n], id) ==> Mentions(es[..top], id)
  {
    if Mentions(es[..n], id) {
      var i :| 0 <= i < n && es[..n][i].id == id;
      assert es[..top][i].id == id;
    }
  }

  lemma {:induction false} LastMentionIndex(es: seq<Incident>, id: nat)
    requires Mentions(es, id)
    ensures exists i :: 0 <= i < |es| && es[i] == LastMention(es, id) && es[i].id == id
  {
    if es[|es| - 1].id != id {
      MentionsInit(es, id);
      LastMentionIndex(es[..|es| - 1], id);
    }
  }

  /** How far the furthest attempt got. */
  function Furthest(ns: seq<nat>): nat {
    if ns == [] then 0 else
      var rest, n := Furthest(ns[..|ns| - 1]), ns[|ns| - 1];
      if n <= rest then rest else n
  }

  lemma {:induction false} FurthestAtMost(ns: seq<nat>, limit: nat)
    requires Within(ns, limit)
    ensures Furthest(ns) <= limit
  {
    if ns == [] {
    } else {
      FurthestAtMost(ns[..|ns| - 1], limit);
    }
  }

  lemma {:induction false} AttemptsTraced(o: OpenSet, es: seq<Incident>, ns: seq<nat>)
    requires Within(ns, |es|)
    ensures Furthest(ns) <= |es|
    ensures Traced(Attempts(o, es, ns), o, es, Furthest(ns)) && Untouched(Attempts(o, es, ns), o, es, Furthest(ns))
  {
    if ns == [] {
    } else {
      AttemptsTraced(o, es, ns[..|ns| - 1]);
      AttemptKeepsTrace(Attempts(o, es, ns[..|ns| - 1]), o, es, Furthest(ns[..|ns| - 1]), ns[|ns| - 1]);
    }
  }

  lemma TracedIsOnePerKind(now: OpenSet, o: OpenSet, es: seq<Incident>, M: nat)
    requires M <= |es| && Traced(now, o, es, M) && Lawful(o, es) && OnePerKind(o) && !DoubleRaise(es[..M])
    ensures OnePerKind(now)
  {
    forall x, y | x in now && y in now && x.0 == y.0
      ensures x == y
    {
      if RaisedIn(es, M, x) && RaisedIn(es, M, y) {
      } else if RaisedIn(es, M, x) {
        RaiseExcludesOld(o, es, M, x, y);
      } else if RaisedIn(es, M, y) {
        RaiseExcludesOld(o, es, M, y, x);
      }
    }
  }

  lemma RaiseExcludesOld(o: OpenSet, es: seq<Incident>, M: nat, x: (Kind, nat), y: (Kind, nat))
    requires M <= |es| && Lawful(o, es) && RaisedIn(es, M, x)
    requires y in o && !Mentions(es[..M], y.1)
    ensures x.0 != y.0
  {
    var i :| 0 <= i < M && IsRaise(es[i]) && x == (es[i].kind, es[i].id);
    LawfulPrefix(o, es, i + 1);
    assert es[..i + 1][..i] == es[..i];
    MentionsShorter(es, i, M, y.1);
    OpenAfterByMention(o, es[..i], y);
  }

  /** An attempt that gets past every earlier one leaves what a single attempt would have. */
  lemma FurthestAttemptIsClean(now: OpenSet, o: OpenSet, es: seq<Incident>, M: nat, n: nat)
    requires M <= n <= |es| && Untouched(now, o, es, M)
    ensures OpenAfter(now, es[..n]) == OpenAfter(o, es[..n])
  {
    forall x: (Kind, nat)
      ensures x in OpenAfter(now, es[..n]) <==> x in OpenAfter(o, es[..n])
    {
      OpenAfterByMention(now, es[..n], x);
      OpenAfterByMention(o, es[..n], x);
      MentionsShorter(es, M, n, x.1);
    }
  }

  lemma NoDoubleRaiseIsSafe(o: OpenSet, es: seq<Incident>, limit: nat, ns: seq<nat>)
    requires limit <= |es| && Lawful(o, es) && OnePerKind(o) && !DoubleRaise(es[..limit]) && CanStop(ns, es, limit)
    ensures OnePerKind(Attempts(o, es, ns))
  {
    if ns != [] {
      var before, n := ns[..|ns| - 1], ns[|ns| - 1];
      AttemptsTraced(o, es, before);
      FurthestAtMost(before, limit);
      var now, M := Attempts(o, es, before), Furthest(before);
      if n >= M {
        FurthestAttemptIsClean(now, o, es, M, n);
        LawfulPrefix(o, es, n);
        LawfulKeepsOnePerKind(o, es[..n]);
      } else {
        AttemptKeepsTrace(now, o, es, M, n);
        TracedIsOnePerKind(OpenAfter(now, es[..n]), o, es, M);
      }
    }
  }

  /** A kind raised twice: writing up to the second raise and then again up to the first leaves both rows open. */
  lemma DoubleRaiseReopens(o: OpenSet, now: OpenSet, es: seq<Incident>, i: nat, j: nat)
    requires i < j < |es| && Lawful(o, es)
    requires IsRaise(es[i]) && IsRaise(es[j]) && es[i].kind == es[j].kind
    ensures !OnePerKind(OpenAfter(OpenAfter(now, es[..j + 1]), es[..i + 1]))
  {
    var first := OpenAfter(now, es[..j + 1]);
    RaiseIsFirstMention(o, es, i, j);
    OpenAfterByMention(first, es[..i + 1], (es[j].kind, es[j].id));
  }

  /** A raise bears an id that no earlier update bears. */
  lemma RaiseIsFirstMention(o: OpenSet, es: seq<Incident>, i: nat, j: nat)
    requires i < j < |es| && Lawful(o, es) && IsRaise(es[j])
    ensures !Mentions(es[..i + 1], es[j].id) && es[i].id != es[j].id
  {
    LawfulPrefix(o, es, j + 1);
    assert es[..j + 1][..j] == es[..j];
    MentionsShorter(es, i + 1, j, es[j].id);
    assert es[..j][i].id == es[i].id;
  }

  lemma ReopensTwice(o: OpenSet, es: seq<Incident>, ns: seq<nat>, i: nat, j: nat)
    requires i < j < |es| && Lawful(o, es) && Within(ns, |es|)
    requires IsRaise(es[i]) && IsRaise(es[j]) && es[i].kind == es[j].kind
    ensures !OnePerKind(Attempts(o, es, ns + [j + 1] + [i + 1]))
  {
    DoubleRaiseReopens(o, Attempts(o, es, ns), es, i, j);
  }

  /**
   * A lawful batch retried any number of times keeps at most one open row per kind at every moment exactly when
   * no kind is raised twice among the updates that a failing attempt can write.
   */
  lemma RetriesKeepOnePerKindIff(o: OpenSet, es: seq<Incident>, limit: nat)
    requires limit <= |es| && Lawful(o, es) && OnePerKind(o)
    ensures (forall ns :: CanStop(ns, es, limit) ==> OnePerKind(Attempts(o, es, ns))) <==> !DoubleRaise(es[..limit])
  {
    if DoubleRaise(es[..limit]) {
      var i, j :| 0 <= i < j < limit && IsRaise(es[..limit][i]) && IsRaise(es[..limit][j]) &&
        es[..limit][i].kind == es[..limit][j].kind;
      ReopensTwice(o, es, [], i, j);
      assert CanStop([] + [j + 1] + [i + 1], es, limit);
    } else {
      forall ns | CanStop(ns, es, limit)
        ensures OnePerKind(Attempts(o, es, ns))
      {
        NoDoubleRaiseIsSafe(o, es, limit, ns);
      }
    }
  }
}
