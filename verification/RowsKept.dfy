/**
  What the whole script does to the rows: none is lost, the old rows stay in front,
  and every cell stays in one column of its own, but for the cells that a declared
  update writes.
 */
module RowsKept {
  import opened Catalog
  import opened RowFlow
  import opened Reconcile
  import opened Storage
  import opened Repairs
  import opened TableOrder
  import opened Seeds
  import opened Emission
  import opened Ddl
  import opened Rendering
  import opened Upgrade
  import opened Again

  // ---------- keeping cells under new names ----------

  /** Each cell of `a` is in `b` under its new name, unless that is a free column. */
  ghost predicate EntriesKept(a: Row, b: Row, names: map<Name, Name>, free: set<Name>) {
    forall c :: c in a ==> c in names && names[c] in b && (names[c] !in free ==> b[names[c]] == a[c])
  }

  /** The rows of `a` are the first rows of `b`, each column in a column of its own. */
  ghost predicate KeptTable(a: Table, b: Table, names: map<Name, Name>, free: set<Name>) {
    && names.Keys == a.cols.Keys && Injective(names)
    && (forall c :: c in names ==> names[c] in b.cols)
    && |a.rows| <= |b.rows|
    && (forall i :: 0 <= i < |a.rows| ==> EntriesKept(a.rows[i], b.rows[i], names, free))
  }

  ghost predicate KeptSomehow(a: Table, b: Table, free: set<Name>) {
    exists names :: KeptTable(a, b, names, free)
  }

  /** The free columns of a table. */
  function FreeIn(written: set<(Name, Name)>, t: Name): set<Name> {
    set w | w in written && w.0 == t :: w.1
  }

  /** Every table of `a` is kept as one table of its own in `b`. */
  ghost predicate Kept(a: Database, b: Database, tables: map<Name, Name>, written: set<(Name, Name)>) {
    && tables.Keys == a.Keys && Injective(tables)
    && (forall t :: t in tables ==> tables[t] in b && KeptSomehow(a[t], b[tables[t]], FreeIn(written, tables[t])))
  }

  /** No table, row or cell of `a` is missing in `b`; only cells of the written columns may have changed. */
  ghost predicate NothingLostBut(a: Database, b: Database, written: set<(Name, Name)>) {
    exists tables :: Kept(a, b, tables, written)
  }

  // ---------- keeping cells in place ----------

  ghost predicate KeptInPlace(a: Table, b: Table, free: set<Name>) {
    && a.cols.Keys <= b.cols.Keys && |a.rows| <= |b.rows|
    && forall i :: 0 <= i < |a.rows| ==> forall c :: c in a.rows[i] ==> c in b.rows[i] && (c !in free ==> b.rows[i][c] == a.rows[i][c])
  }

  ghost predicate AllInPlace(a: Database, b: Database, written: set<(Name, Name)>) {
    a.Keys <= b.Keys && forall t :: t in a ==> KeptInPlace(a[t], b[t], FreeIn(written, t))
  }

  lemma InPlaceTransitive(a: Database, b: Database, c: Database, written: set<(Name, Name)>)
    requires AllInPlace(a, b, written) && AllInPlace(b, c, written)
    ensures AllInPlace(a, c, written)
  {
    forall t | t in a
      ensures KeptInPlace(a[t], c[t], FreeIn(written, t))
    {
      assert KeptInPlace(a[t], b[t], FreeIn(written, t)) && KeptInPlace(b[t], c[t], FreeIn(written, t));
    }
  }

  lemma MoreWritten(a: Database, b: Database, few: set<(Name, Name)>, many: set<(Name, Name)>)
    requires AllInPlace(a, b, few) && few <= many
    ensures AllInPlace(a, b, many)
  {
    forall t | t in a
      ensures KeptInPlace(a[t], b[t], FreeIn(many, t))
    {
      assert KeptInPlace(a[t], b[t], FreeIn(few, t)) && FreeIn(few, t) <= FreeIn(many, t);
    }
  }

  // ---------- the stages ----------

  lemma ReconciledInPlace(tables: Database, specs: seq<Spec>)
    requires WellFormed(tables)
    ensures AllInPlace(tables, Reconciled(tables, specs), {})
  {
    ReconcileKeeps(tables, specs);
    forall t | t in tables
      ensures KeptInPlace(tables[t], Reconciled(tables, specs)[t], FreeIn({}, t))
    {
      assert KeepsCells(tables[t], Reconciled(tables, specs)[t]);
    }
  }

  /** The columns that some update writes. */
  function Written(updates: seq<Update>): set<(Name, Name)> {
    set u, c | u in updates && c in Writes(u) :: (TableOf(u), c)
  }

  lemma UpdatedInPlace(s: State, u: Update)
    requires Lawful(s) && RunUpdate(s, u).Reached?
    ensures AllInPlace(s.tables, Updated(s.tables, u), Written([u]))
  {
    var after, t := Updated(s.tables, u), TableOf(u);
    UpdatedCatalog(s.tables, u);
    forall n | n in s.tables
      ensures KeptInPlace(s.tables[n], after[n], FreeIn(Written([u]), n))
    {
      if n == t {
        forall i | 0 <= i < |s.tables[t].rows|
          ensures forall c :: c in s.tables[t].rows[i] ==> c in after[t].rows[i] && (c !in FreeIn(Written([u]), t) ==> after[t].rows[i][c] == s.tables[t].rows[i][c])
        {
          UpdatedRowInPlace(s, u, i);
        }
      }
    }
  }

  lemma UpdatedRowInPlace(s: State, u: Update, i: nat)
    requires Lawful(s) && RunUpdate(s, u).Reached? && TableOf(u) in s.tables && i < |s.tables[TableOf(u)].rows|
    ensures var before, after := s.tables[TableOf(u)].rows[i], NewRows(u, s.tables)[i];
            forall c :: c in before ==> c in after && (c !in FreeIn(Written([u]), TableOf(u)) ==> after[c] == before[c])
  {
    UpdateTouches(u, s.tables, i);
    forall c | c in Writes(u)
      ensures c in FreeIn(Written([u]), TableOf(u))
    {
      assert u in [u] && (TableOf(u), c) in Written([u]);
    }
  }

  lemma {:induction false} UpdatesInPlace(s: State, updates: seq<Update>)
    requires Lawful(s) && UpdatesFit(s, updates)
    ensures AllInPlace(s.tables, AllUpdated(s.tables, updates), Written(updates))
    decreases |updates|
  {
    if updates == [] {
      InPlaceReflexive(s.tables, Written(updates));
    } else {
      var u, rest := updates[0], updates[1..];
      assert updates == [u] + rest;
      RunUpdateIs(s, u);
      UpdateKeepsLawful(s, u);
      UpdatedInPlace(s, u);
      UpdatesInPlace(RunUpdate(s, u).state, rest);
      MoreWritten(s.tables, Updated(s.tables, u), Written([u]), Written(updates));
      MoreWritten(Updated(s.tables, u), AllUpdated(s.tables, updates), Written(rest), Written(updates));
      InPlaceTransitive(s.tables, Updated(s.tables, u), AllUpdated(s.tables, updates), Written(updates));
    }
  }

  lemma InPlaceReflexive(tables: Database, written: set<(Name, Name)>)
    ensures AllInPlace(tables, tables, written)
  {
  }

  lemma CompletedInPlace(s: State, d: Declared, names: set<Name>, written: set<(Name, Name)>)
    ensures AllInPlace(s.tables, Completed(s, d, names).tables, written)
  {
  }

  lemma GrowsInPlace(a: State, b: State, written: set<(Name, Name)>)
    requires Grows(a, b)
    ensures AllInPlace(a.tables, b.tables, written)
  {
    forall t | t in a.tables
      ensures KeptInPlace(a.tables[t], b.tables[t], FreeIn(written, t))
    {
      assert forall i :: 0 <= i < |a.tables[t].rows| ==> b.tables[t].rows[i] == a.tables[t].rows[i];
    }
  }

  /** From reconciliation to the end. */
  lemma RestInPlace(s: State, p: Plan, tables: seq<TableDef>, ordered: seq<TableDef>, once: State)
    requires Ran(s, p, tables, ordered, once)
    ensures AllInPlace(Readied(s, p).tables, once.tables, Written(p.repairs + p.backfills))
  {
    var w := Written(p.repairs + p.backfills);
    var r, b, e, f := Readied(s, p), Repaired(s, p), Equipped(s, p), Backfilled(s, p);
    RanIs(s, p, tables, ordered, once);
    ReadiedIsLawful(s, p);
    UpdatesInPlace(r, p.repairs);
    MoreWritten(r.tables, b.tables, Written(p.repairs), w);
    CompletedInPlace(b, p.d, p.d.cols.Keys, w);
    EquippedIsLawfulToo(s, p, tables, ordered);
    UpdatesInPlace(e, p.backfills);
    MoreWritten(e.tables, f.tables, Written(p.backfills), w);
    GrowsInPlace(Indexes(s, p), once, w);
    InPlaceTransitive(r.tables, b.tables, e.tables, w);
    InPlaceTransitive(r.tables, e.tables, f.tables, w);
    InPlaceTransitive(r.tables, f.tables, once.tables, w);
  }

  lemma EquippedIsLawfulToo(s: State, p: Plan, tables: seq<TableDef>, ordered: seq<TableDef>)
    requires Lawful(s) && Generated(p, tables, ordered) && Fits(s, p)
    ensures Lawful(Equipped(s, p))
  {
    ReadiedIsLawful(s, p);
    UpdatesKeepLawful(Readied(s, p), p.repairs);
    ReadiedHasDeclared(s, p, tables, ordered);
    SectionRunsIff(Repaired(s, p), p.d, tables, ordered);
    SectionKeepsLawful(Repaired(s, p), p.d, tables, ordered);
  }

  lemma SectionKeepsLawful(s: State, d: Declared, tables: seq<TableDef>, ordered: seq<TableDef>)
    requires Lawful(s) && Coherent(d, tables) && Sorted(tables, ordered) && ExecAll(s, TableSection(d, ordered)).Reached?
    ensures Lawful(ExecAll(s, TableSection(d, ordered)).state)
  {
    forall t | t in ordered ensures t in tables { assert t in multiset(ordered); }
    forall stmt | stmt in TableSection(d, ordered)
      ensures Sensible(stmt)
    {
      SectionIsSensible(d, ordered, tables, stmt);
    }
    ScriptKeepsLawful(s, TableSection(d, ordered));
  }

  // ---------- the renames ----------

  lemma RenamedIsKept(a: Table, b: Table)
    requires Renamed(a, b)
    ensures KeptSomehow(a, b, {})
  {
    var names :| SameTable(a, b, names);
    forall i | 0 <= i < |a.rows|
      ensures EntriesKept(a.rows[i], b.rows[i], names, {})
    {
      assert EntriesMoved(a.rows[i], b.rows[i], names);
    }
    assert KeptTable(a, b, names, {});
  }

  lemma ReplayLosesNothing(db: Database, ops: seq<Rename>)
    requires WellFormed(db)
    ensures NothingLostBut(db, Replay(db, ops), {})
  {
    var tables := ReplayCarries(db, ops);
    var out := Replay(db, ops);
    forall t | t in tables
      ensures tables[t] in out && KeptSomehow(db[t], out[tables[t]], FreeIn({}, tables[t]))
    {
      RenamedIsKept(db[t], out[tables[t]]);
      assert FreeIn({}, tables[t]) == {};
    }
    assert Kept(db, out, tables, {});
  }

  lemma KeptThenInPlace(a: Table, b: Table, c: Table, names: map<Name, Name>, free: set<Name>)
    requires KeptTable(a, b, names, {}) && KeptInPlace(b, c, free)
    ensures KeptTable(a, c, names, free)
  {
    forall i | 0 <= i < |a.rows|
      ensures EntriesKept(a.rows[i], c.rows[i], names, free)
    {
      assert EntriesKept(a.rows[i], b.rows[i], names, {});
    }
  }

  lemma LostThenInPlace(a: Database, b: Database, c: Database, written: set<(Name, Name)>)
    requires NothingLostBut(a, b, {}) && AllInPlace(b, c, written)
    ensures NothingLostBut(a, c, written)
  {
    var tables :| Kept(a, b, tables, {});
    forall t | t in tables
      ensures tables[t] in c && KeptSomehow(a[t], c[tables[t]], FreeIn(written, tables[t]))
    {
      assert KeptSomehow(a[t], b[tables[t]], FreeIn({}, tables[t])) && FreeIn({}, tables[t]) == {};
      var names :| KeptTable(a[t], b[tables[t]], names, {});
      KeptThenInPlace(a[t], b[tables[t]], c[tables[t]], names, FreeIn(written, tables[t]));
    }
    assert Kept(a, c, tables, written);
  }

  /** The whole script, whatever the renames: every row stays, and every cell that no declared update writes. */
  lemma ScriptLosesNothing(s: State, p: Plan, tables: seq<TableDef>, ordered: seq<TableDef>, once: State)
    requires Ran(s, p, tables, ordered, once)
    ensures NothingLostBut(s.tables, once.tables, Written(p.repairs + p.backfills))
  {
    var w := Written(p.repairs + p.backfills);
    EvolvedTables(s, p);
    ReplayLosesNothing(s.tables, p.tableRenames + p.columnRenames);
    ReadiedIsLawful(s, p);
    ReconciledInPlace(Evolved(s, p).tables, p.specs);
    MoreWritten(Evolved(s, p).tables, Readied(s, p).tables, {}, w);
    RestInPlace(s, p, tables, ordered, once);
    InPlaceTransitive(Evolved(s, p).tables, Readied(s, p).tables, once.tables, w);
    LostThenInPlace(s.tables, Evolved(s, p).tables, once.tables, w);
  }

  lemma EvolvedTables(s: State, p: Plan)
    ensures Evolved(s, p).tables == Replay(s.tables, p.tableRenames + p.columnRenames)
  {
    var w := WithoutIndexes(s, p.obsolete);
    ReplayOnTables(w, p.tableRenames);
    ReplayOnTables(ReplayOn(w, p.tableRenames), p.columnRenames);
    ReplayAppend(s.tables, p.tableRenames, p.columnRenames);
  }
}
