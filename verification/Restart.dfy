/** What a restart reads back: the loop over the open incident rows, latest first, filed by kind. */
module Restart {
  import opened Alerts
  import opened Storage

  /** The rows taken so far are the open ones but the rest, which started no later. */
  ghost predicate TakenLatest(table: IncidentTable, rest: set<nat>, rows: set<nat>) {
    && rest <= OpenRowIds(table) && rows == OpenRowIds(table) - rest && |rows| <= RESTORE_LIMIT
    && (forall r, q :: r in rows && q in rest ==> table[q].startMs <= table[r].startMs)
  }

  /** Each kind among the rows is restored, from its earliest started row. */
  ghost predicate EarliestOfKind(active: map<Kind, Incident>, table: IncidentTable, rows: set<nat>) {
    && (forall r :: r in rows ==> r in table && table[r].json.kind in active)
    && (forall k :: k in active ==> exists r: nat :: RestoredRow(active[k], table, rows, k, r))
  }

  ghost predicate Restoring(active: map<Kind, Incident>, table: IncidentTable, rest: set<nat>, rows: set<nat>) {
    TakenLatest(table, rest, rows) && EarliestOfKind(active, table, rows)
  }

  lemma RestoreOne(active: map<Kind, Incident>, table: IncidentTable, rest: set<nat>, rows: set<nat>, x: nat)
    requires Restoring(active, table, rest, rows) && |rows| < RESTORE_LIMIT
    requires x in rest && forall q :: q in rest ==> table[q].startMs <= table[x].startMs
    ensures Restoring(active[table[x].json.kind := table[x].json.(acknowledgedAtMs := table[x].ackMs)], table,
            rest - {x}, rows + {x})
  {
    TakeOne(OpenRowIds(table), rest, rows, x);
    assert forall r :: r in rows ==> table[x].startMs <= table[r].startMs;
    KindRestored(active, table, rows, x);
  }

  /** Inserting a row that started no later than those taken overwrites its kind's incident. */
  lemma KindRestored(active: map<Kind, Incident>, table: IncidentTable, rows: set<nat>, x: nat)
    requires EarliestOfKind(active, table, rows) && x in table
    requires forall r :: r in rows ==> table[x].startMs <= table[r].startMs
    ensures EarliestOfKind(active[table[x].json.kind := table[x].json.(acknowledgedAtMs := table[x].ackMs)], table,
            rows + {x})
  {
    var kind := table[x].json.kind;
    var next := active[kind := table[x].json.(acknowledgedAtMs := table[x].ackMs)];
    forall k | k in next
      ensures exists r: nat :: RestoredRow(next[k], table, rows + {x}, k, r)
    {
      if k == kind {
        assert RestoredRow(next[k], table, rows + {x}, k, x);
      } else {
        OtherKindStays(active[k], table, rows, k, x);
      }
    }
  }

  lemma TakeOne(open: set<nat>, rest: set<nat>, rows: set<nat>, x: nat)
    requires rest <= open && rows == open - rest && x in rest
    ensures rows + {x} == open - (rest - {x}) && |rows + {x}| == |rows| + 1
  {}

  lemma OtherKindStays(i: Incident, table: IncidentTable, rows: set<nat>, k: Kind, x: nat)
    requires x in table && table[x].json.kind != k && exists r: nat :: RestoredRow(i, table, rows, k, r)
    ensures exists r: nat :: RestoredRow(i, table, rows + {x}, k, r)
  {
    var r: nat :| RestoredRow(i, table, rows, k, r);
    assert RestoredRow(i, table, rows + {x}, k, r);
  }

  lemma RestoreDone(active: map<Kind, Incident>, table: IncidentTable, rest: set<nat>, rows: set<nat>)
    requires Restoring(active, table, rest, rows) && (rest == {} || |rows| >= RESTORE_LIMIT)
    ensures Restores(active, table)
  {
    var open := OpenRowIds(table);
    if rest == {} { assert rows == open; }
    assert RestoredFrom(active, table, rows);
  }

  lemma {:induction false} LatestExists(table: IncidentTable, ids: set<nat>) returns (x: nat)
    requires ids != {} && forall i :: i in ids ==> i in table
    ensures x in ids && forall q :: q in ids ==> table[q].startMs <= table[x].startMs
    decreases ids
  {
    x :| x in ids;
    if ids != {x} {
      var y := LatestExists(table, ids - {x});
      if table[x].startMs < table[y].startMs { x := y; }
    }
  }

  lemma {:induction false} RestoreRest(active: map<Kind, Incident>, table: IncidentTable, rest: set<nat>,
      rows: set<nat>)
    returns (restored: map<Kind, Incident>)
    requires Restoring(active, table, rest, rows)
    ensures Restores(restored, table)
    decreases rest
  {
    if rest == {} || |rows| >= RESTORE_LIMIT {
      RestoreDone(active, table, rest, rows);
      restored := active;
    } else {
      var x := LatestExists(table, rest);
      RestoreOne(active, table, rest, rows, x);
      restored := RestoreRest(active[table[x].json.kind := table[x].json.(acknowledgedAtMs := table[x].ackMs)], table,
                              rest - {x}, rows + {x});
    }
  }

  /** Every table can be restored from. */
  lemma SomethingIsRestored(table: IncidentTable) returns (restored: map<Kind, Incident>)
    ensures Restores(restored, table)
  {
    restored := RestoreRest(map[], table, OpenRowIds(table), {});
  }
}
