/** One alarm kind over time: what a sample may do to its timers, and how far apart raises and recoveries are. */
module Timelines {
  import opened Wrappers

  /** What the engine remembers of the kind between two samples. */
  datatype Moment = Moment(active: bool, pending: Option<nat>, recovering: Option<nat>)

  /** A sample, or a loss of monitoring without a time: what it raised or recovered, and the policy's periods. */
  datatype Tick = Tick(time: Option<nat>, raised: bool, recovered: bool, triggerMs: nat, recoveryMs: nat)

  predicate Waited(now: nat, since: nat, period: nat) { SaturatingSub(now, since) >= period }

  ghost predicate Law(a: Moment, t: Tick, b: Moment) {
    && (t.raised || t.recovered ==> t.time.Some?)
    && (t.raised ==>
          && !a.active && b.active && b.recovering.None?
          && b.pending.Some? && Waited(t.time.value, b.pending.value, t.triggerMs))
    && (t.recovered ==>
          && !b.active && b.pending.None?
          && (t.recoveryMs == 0 || (a.recovering.Some? && Waited(t.time.value, a.recovering.value, t.recoveryMs))))
    && (a.active && !t.recovered ==> b.active)
    && (b.pending.Some? ==> b.pending == a.pending || b.pending == t.time)
    && (b.recovering.Some? ==> b.recovering == a.recovering || b.recovering == t.time)
  }

  ghost predicate Timeline(ms: seq<Moment>, ts: seq<Tick>) {
    && |ms| == |ts| + 1
    && (forall n :: 0 <= n < |ts| ==> Law(ms[n], ts[n], ms[n + 1]))
    && (forall i, j :: 0 <= i < j < |ts| && ts[i].time.Some? && ts[j].time.Some? ==>
          ts[i].time.value <= ts[j].time.value)
  }

  lemma {:induction false} RecoveringSinceRaise(ms: seq<Moment>, ts: seq<Tick>, i: nat, n: nat)
    requires Timeline(ms, ts) && i < n <= |ts| && ts[i].raised
    ensures Law(ms[i], ts[i], ms[i + 1])
    ensures ms[n].recovering.Some? ==> ts[i].time.value <= ms[n].recovering.value
    decreases n
  {
    assert Law(ms[i], ts[i], ms[i + 1]);
    if n == i + 1 {
    } else {
      RecoveringSinceRaise(ms, ts, i, n - 1);
      assert Law(ms[n - 1], ts[n - 1], ms[n]);
    }
  }

  lemma {:induction false} PendingSinceRecovery(ms: seq<Moment>, ts: seq<Tick>, i: nat, n: nat)
    requires Timeline(ms, ts) && i < n <= |ts| && ts[i].recovered
    ensures Law(ms[i], ts[i], ms[i + 1])
    ensures ms[n].pending.Some? ==> ts[i].time.value <= ms[n].pending.value
    decreases n
  {
    assert Law(ms[i], ts[i], ms[i + 1]);
    if n == i + 1 {
    } else {
      PendingSinceRecovery(ms, ts, i, n - 1);
      assert Law(ms[n - 1], ts[n - 1], ms[n]);
    }
  }

  lemma {:induction false} ActiveUntilRecovered(ms: seq<Moment>, ts: seq<Tick>, i: nat, n: nat)
    requires Timeline(ms, ts) && i < n <= |ts| && ts[i].raised
    requires forall m :: i < m < n ==> !ts[m].recovered
    ensures ms[n].active
    decreases n
  {
    if n == i + 1 {
      assert Law(ms[i], ts[i], ms[i + 1]);
    } else {
      ActiveUntilRecovered(ms, ts, i, n - 1);
      assert Law(ms[n - 1], ts[n - 1], ms[n]);
    }
  }

  /** A recovery comes at least the recovery time after the raise it follows. */
  lemma RecoveryGap(ms: seq<Moment>, ts: seq<Tick>, i: nat, j: nat)
    requires Timeline(ms, ts) && i < j < |ts| && ts[i].raised && ts[j].recovered
    ensures ts[i].time.Some? && ts[j].time.Some? && ts[i].time.value + ts[j].recoveryMs <= ts[j].time.value
  {
    RecoveringSinceRaise(ms, ts, i, j);
    assert Law(ms[j], ts[j], ms[j + 1]);
  }

  /** A raise comes at least the trigger time after the recovery it follows. */
  lemma RaiseGap(ms: seq<Moment>, ts: seq<Tick>, i: nat, j: nat)
    requires Timeline(ms, ts) && i < j < |ts| && ts[i].recovered && ts[j].raised
    ensures ts[i].time.Some? && ts[j].time.Some? && ts[i].time.value + ts[j].triggerMs <= ts[j].time.value
  {
    PendingSinceRecovery(ms, ts, i, j + 1);
    assert Law(ms[j], ts[j], ms[j + 1]);
  }

  /** Between two raises there is a recovery. */
  lemma RecoveredBetween(ms: seq<Moment>, ts: seq<Tick>, i: nat, j: nat) returns (m: nat)
    requires Timeline(ms, ts) && i < j < |ts| && ts[i].raised && ts[j].raised
    ensures i < m < j && ts[m].recovered
  {
    assert Law(ms[j], ts[j], ms[j + 1]);
    if forall n :: i < n < j ==> !ts[n].recovered { ActiveUntilRecovered(ms, ts, i, j); }
    m :| i < m < j && ts[m].recovered;
  }
}
