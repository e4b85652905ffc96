/**
  When a second run would raise a NOT NULL flag that the first run could not: a
  column that was left nullable for its NULLs lost the last of them to the repair of
  the open shifts, which writes `closed_at` and `updated_at`.
 */
module Settling {
  import opened Catalog
  import opened Reconcile
  import opened Storage
  import opened Repairs
  import opened TableOrder
  import opened Seeds
  import opened Emission
  import opened Ddl
  import opened Rendering
  import opened Upgrade
  import opened Again

  const STAMPED := {"closed_at", "updated_at"}

  predicate ClosesShifts(updates: seq<Update>) {
    exists u :: u in updates && u.CloseOpenShifts?
  }

  predicate NullAt(row: Row, c: Name) {
    c in row && row[c] == Null
  }

  /** Some row keeps its NULL in the column: closing a superseded shift overwrites the two stamped columns. */
  predicate KeepsANull(t: Name, rows: seq<Row>, c: Name, updates: seq<Update>) {
    t == "shifts" && c in STAMPED && ClosesShifts(updates) ==>
      exists i :: 0 <= i < |rows| && NullAt(rows[i], c) && !Superseded(rows, rows[i])
  }

  // ---------- the rows of shifts ----------

  function FirstClosing(updates: seq<Update>): string
    requires ClosesShifts(updates)
  {
    if updates[0].CloseOpenShifts? then updates[0].now
    else (ClosesLater(updates); FirstClosing(updates[1..]))
  }

  lemma ClosesLater(updates: seq<Update>)
    requires ClosesShifts(updates) && !updates[0].CloseOpenShifts?
    ensures ClosesShifts(updates[1..])
  {
    var u :| u in updates && u.CloseOpenShifts?;
    assert updates == [updates[0]] + updates[1..];
    assert u in updates[1..];
  }

  function ShiftsAfter(rows: seq<Row>, updates: seq<Update>): seq<Row> {
    if ClosesShifts(updates) then AllClosed(rows, FirstClosing(updates)) else rows
  }

  lemma {:induction false} ClosedStays(tables: Database, updates: seq<Update>, rows: seq<Row>, now: string)
    requires RowsIn(tables, "shifts") == AllClosed(rows, now)
    ensures RowsIn(AllUpdated(tables, updates), "shifts") == AllClosed(rows, now)
    decreases |updates|
  {
    if updates != [] {
      var u := updates[0];
      if u.CloseOpenShifts? {
        ClosingIsIdempotent(rows, now, u.now);
      }
      ClosedStays(Updated(tables, u), updates[1..], rows, now);
    }
  }

  lemma {:induction false} ShiftsAre(tables: Database, updates: seq<Update>)
    ensures RowsIn(AllUpdated(tables, updates), "shifts") == ShiftsAfter(RowsIn(tables, "shifts"), updates)
    decreases |updates|
  {
    if updates != [] {
      var u, rest, rows := updates[0], updates[1..], RowsIn(tables, "shifts");
      if u.CloseOpenShifts? {
        assert u in updates;
        assert RowsIn(Updated(tables, u), "shifts") == AllClosed(rows, u.now);
        ClosedStays(Updated(tables, u), rest, rows, u.now);
      } else {
        ShiftsAre(Updated(tables, u), rest);
        assert RowsIn(Updated(tables, u), "shifts") == rows;
        assert updates == [u] + rest;
        assert ClosesShifts(updates) <==> ClosesShifts(rest);
      }
    }
  }

  // ---------- NULLs ----------

  lemma ClosedNulls(rows: seq<Row>, now: string, i: nat, c: Name)
    requires i < |rows|
    ensures c !in STAMPED ==> (NullAt(rows[i], c) ==> NullAt(AllClosed(rows, now)[i], c))
    ensures c in STAMPED ==> (NullAt(AllClosed(rows, now)[i], c) <==> NullAt(rows[i], c) && !Superseded(rows, rows[i]))
  {
    if Superseded(rows, rows[i]) {
      assert IsOpen(rows[i]);
      var row := ClosedShift(rows[i], now);
      assert c != "status" || !NullAt(rows[i], c);
    }
  }

  /** An update that is no closing, or a column that closing does not stamp, keeps every NULL. */
  lemma UpdateKeepsNulls(tables: Database, u: Update, t: Name, c: Name)
    requires t in tables && HasNull(tables[t], c) && !(u.CloseOpenShifts? && t == "shifts" && c in STAMPED)
    ensures HasNull(Updated(tables, u)[t], c)
  {
    var i :| 0 <= i < |tables[t].rows| && c in tables[t].rows[i] && tables[t].rows[i][c] == Null;
    var after := Updated(tables, u)[t].rows;
    if t == TableOf(u) {
      if u.CloseOpenShifts? {
        ClosedNulls(tables[t].rows, u.now, i, c);
      }
      assert NullAt(after[i], c);
    } else {
      assert after[i] == tables[t].rows[i];
    }
  }

  lemma {:induction false} UpdatesKeepNulls(tables: Database, updates: seq<Update>, t: Name, c: Name)
    requires t in tables && HasNull(tables[t], c) && !(ClosesShifts(updates) && t == "shifts" && c in STAMPED)
    ensures t in AllUpdated(tables, updates) && HasNull(AllUpdated(tables, updates)[t], c)
    decreases |updates|
  {
    if updates != [] {
      var u := updates[0];
      assert u in updates && forall v :: v in updates[1..] ==> v in updates;
      UpdateKeepsNulls(tables, u, t, c);
      UpdatesKeepNulls(Updated(tables, u), updates[1..], t, c);
    }
  }

  /** After the updates a column that held a NULL still does, exactly when some row keeps one. */
  lemma NullAfterUpdatesIff(tables: Database, updates: seq<Update>, t: Name, c: Name)
    requires t in tables && HasNull(tables[t], c)
    ensures t in AllUpdated(tables, updates)
    ensures HasNull(AllUpdated(tables, updates)[t], c) <==> KeepsANull(t, tables[t].rows, c, updates)
  {
    AllUpdatedCatalog(tables, updates);
    if ClosesShifts(updates) && t == "shifts" && c in STAMPED {
      ShiftsAre(tables, updates);
      var rows, after := tables[t].rows, AllUpdated(tables, updates)[t].rows;
      assert after == AllClosed(rows, FirstClosing(updates));
      forall i | 0 <= i < |rows|
        ensures NullAt(after[i], c) <==> NullAt(rows[i], c) && !Superseded(rows, rows[i])
      {
        ClosedNulls(rows, FirstClosing(updates), i, c);
      }
      assert HasNull(AllUpdated(tables, updates)[t], c) <==> exists i :: 0 <= i < |after| && NullAt(after[i], c);
    } else {
      UpdatesKeepNulls(tables, updates, t, c);
    }
  }

  // ---------- the whole run ----------

  lemma {:induction false} UpdatesAppend(tables: Database, a: seq<Update>, b: seq<Update>)
    ensures AllUpdated(tables, a + b) == AllUpdated(AllUpdated(tables, a), b)
    decreases |a|
  {
    if a == [] {
      assert a + b == b;
    } else {
      assert (a + b)[0] == a[0] && (a + b)[1..] == a[1..] + b;
      UpdatesAppend(Updated(tables, a[0]), a[1..], b);
    }
  }

  /** Tables that were there hold the same rows whether or not missing ones are created, empty, in between. */
  lemma {:induction false} UpdatesSeeRows(a: Database, b: Database, updates: seq<Update>)
    requires a.Keys <= b.Keys && (forall t :: RowsIn(a, t) == RowsIn(b, t)) && forall t :: t in a ==> a[t].cols == b[t].cols
    ensures forall t :: t in a ==> t in AllUpdated(a, updates) && t in AllUpdated(b, updates) && AllUpdated(a, updates)[t] == AllUpdated(b, updates)[t]
    decreases |updates|
  {
    if updates == [] {
      forall t | t in a ensures a[t] == b[t] {
        assert RowsIn(a, t) == RowsIn(b, t);
      }
    } else {
      var u := updates[0];
      SameNewRows(a, b, u);
      UpdatesSeeRows(Updated(a, u), Updated(b, u), updates[1..]);
    }
  }

  lemma RowsInUpdated(tables: Database, u: Update, t: Name)
    ensures RowsIn(Updated(tables, u), t) == if t == TableOf(u) then NewRows(u, tables) else RowsIn(tables, t)
  {
    if t == TableOf(u) && t !in tables {
      assert |NewRows(u, tables)| == 0;
    }
  }

  lemma SameNewRows(a: Database, b: Database, u: Update)
    requires a.Keys <= b.Keys && (forall t :: RowsIn(a, t) == RowsIn(b, t)) && forall t :: t in a ==> a[t].cols == b[t].cols
    ensures Updated(a, u).Keys == a.Keys && Updated(b, u).Keys == b.Keys
    ensures forall t :: RowsIn(Updated(a, u), t) == RowsIn(Updated(b, u), t)
    ensures forall t :: t in a ==> Updated(a, u)[t].cols == Updated(b, u)[t].cols
  {
    assert NewRows(u, a) == NewRows(u, b);
    forall t
      ensures RowsIn(Updated(a, u), t) == RowsIn(Updated(b, u), t)
    {
      assert RowsIn(a, t) == RowsIn(b, t);
      RowsInUpdated(a, u, t);
      RowsInUpdated(b, u, t);
    }
  }

  lemma CompletedRows(s: State, d: Declared, names: set<Name>, t: Name)
    ensures RowsIn(Completed(s, d, names).tables, t) == RowsIn(s.tables, t)
  {
    var o := Completed(s, d, names).tables;
    assert t in o <==> t in s.tables || t in names;
  }

  /** Before the seeds, a table that reconciliation saw is that table after all updates in turn. */
  lemma UpdatesInTurn(s: State, p: Plan, t: Name)
    requires t in Readied(s, p).tables
    ensures t in Indexes(s, p).tables && t in AllUpdated(Readied(s, p).tables, p.repairs + p.backfills)
    ensures Indexes(s, p).tables[t] == AllUpdated(Readied(s, p).tables, p.repairs + p.backfills)[t]
  {
    UpdatesAppend(Readied(s, p).tables, p.repairs, p.backfills);
    AllUpdatedCatalog(Readied(s, p).tables, p.repairs);
    var a, b := Repaired(s, p).tables, Equipped(s, p).tables;
    forall u ensures RowsIn(a, u) == RowsIn(b, u) {
      CompletedRows(Repaired(s, p), p.d, p.d.cols.Keys, u);
    }
    UpdatesSeeRows(a, b, p.backfills);
  }

  /** Every declared NOT NULL column that reconciliation had to leave nullable keeps a NULL through the updates. */
  ghost predicate NullsKept(s: State, p: Plan) {
    var r := Readied(s, p).tables;
    forall x :: x in p.specs && x.column.notNull && x.tbl in r && x.col in r[x.tbl].cols && !r[x.tbl].cols[x.col].notNull ==>
      KeepsANull(x.tbl, r[x.tbl].rows, x.col, p.repairs + p.backfills)
  }

  lemma MoreRowsMoreNulls(a: Table, b: Table, c: Name)
    requires a.rows <= b.rows && HasNull(a, c)
    ensures HasNull(b, c)
  {
    var i :| 0 <= i < |a.rows| && c in a.rows[i] && a.rows[i][c] == Null;
    assert b.rows[i] == a.rows[i];
  }

  lemma SeededShifts(s: State, p: Plan, once: State)
    requires RunInserts(Indexes(s, p), p.seeds) == Reached(once) && Apart(p) && ClosesShifts(p.repairs + p.backfills)
    ensures RowsIn(once.tables, "shifts") == RowsIn(Indexes(s, p).tables, "shifts")
  {
    var u :| u in p.repairs + p.backfills && u.CloseOpenShifts?;
    assert "shifts" in Reads(u);
    SeedsLeaveOthers(Indexes(s, p), p.seeds, "shifts");
  }

  lemma NullAtEndIff(s: State, p: Plan, tables: seq<TableDef>, ordered: seq<TableDef>, once: State, t: Name, c: Name)
    requires Ran(s, p, tables, ordered, once) && Apart(p) && t in Readied(s, p).tables && HasNull(Readied(s, p).tables[t], c)
    ensures t in once.tables
    ensures HasNull(once.tables[t], c) <==> KeepsANull(t, Readied(s, p).tables[t].rows, c, p.repairs + p.backfills)
  {
    RanIs(s, p, tables, ordered, once);
    UpdatesInTurn(s, p, t);
    NullAfterUpdatesIff(Readied(s, p).tables, p.repairs + p.backfills, t, c);
    var before, after := Indexes(s, p).tables[t], once.tables[t];
    if HasNull(before, c) {
      MoreRowsMoreNulls(before, after, c);
    } else {
      SeededShifts(s, p, once);
      assert after.rows == before.rows;
    }
  }

  /** After a run the loop has nothing left to do exactly when the updates overwrite no last NULL. */
  lemma SettledIff(s: State, p: Plan, tables: seq<TableDef>, ordered: seq<TableDef>, once: State)
    requires Ran(s, p, tables, ordered, once) && Apart(p)
    ensures AllSettled(once.tables, p.specs) <==> NullsKept(s, p)
  {
    RanIs(s, p, tables, ordered, once);
    ReadiedIsLawful(s, p);
    ScriptCatalog(s, p);
    ReconcileSettles(Evolved(s, p).tables, p.specs);
    var r := Readied(s, p).tables;
    forall x | x in p.specs
      ensures x.tbl in once.tables
      ensures Settled(once.tables, x) <==>
              (x.column.notNull && x.tbl in r && x.col in r[x.tbl].cols && !r[x.tbl].cols[x.col].notNull ==>
                 KeepsANull(x.tbl, r[x.tbl].rows, x.col, p.repairs + p.backfills))
    {
      assert Settled(r, x);
      if x.tbl in r && x.column.notNull && !r[x.tbl].cols[x.col].notNull {
        NullAtEndIff(s, p, tables, ordered, once, x.tbl, x.col);
      }
    }
  }

  /** Whenever no rename fires any more and no seed goes to a table of an update: a second run changes nothing
      if and only if the updates overwrote no last NULL and some key applies to every row of the seeds. */
  lemma RunningAgainIff(s: State, p: Plan, tables: seq<TableDef>, ordered: seq<TableDef>, once: State)
    requires Ran(s, p, tables, ordered, once) && Apart(p)
    requires forall op :: op in p.tableRenames + p.columnRenames ==> !Fires(once.tables, op)
    ensures ExecAll(once, ScriptOf(p, ordered)) == Reached(once) <==> NullsKept(s, p) && AllKeyed(once, p.seeds)
  {
    SecondRunIff(s, p, tables, ordered, once);
    SettledIff(s, p, tables, ordered, once);
  }

  /** Two open shifts of one user, the older without `updated_at`: closing it takes the column's last NULL. */
  lemma LastNullIsOverwritten(older: Row, newer: Row, now: string)
    requires IsOpen(older) && IsOpen(newer) && SameUser(newer, older) && Newer(newer, older)
    requires NullAt(older, "updated_at") && !NullAt(newer, "updated_at")
    ensures !KeepsANull("shifts", [older, newer], "updated_at", [CloseOpenShifts(now)])
  {
    var rows := [older, newer];
    assert rows[1] == newer && rows[0] == older && Superseded(rows, older);
    assert CloseOpenShifts(now) in [CloseOpenShifts(now)];
  }
}
