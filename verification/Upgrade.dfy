/**
  The whole script against any lawful database: exactly when it goes through, and
  what it leaves.
 */
module Upgrade {
  import opened Catalog
  import opened Reconcile
  import opened Storage
  import opened Repairs
  import opened Graph
  import opened TableOrder
  import opened Seeds
  import opened Emission
  import opened Ddl
  import opened Rendering

  // ---------- the stages, as if no statement were refused ----------

  function WithoutIndexes(s: State, names: seq<Name>): State {
    s.(indexes := map n | n in s.indexes && n !in names :: s.indexes[n])
  }

  function Evolved(s: State, p: Plan): State {
    ReplayOn(ReplayOn(WithoutIndexes(s, p.obsolete), p.tableRenames), p.columnRenames)
  }

  /** Every table that is there has its declared columns. */
  function Readied(s: State, p: Plan): State {
    var e := Evolved(s, p);
    e.(tables := Reconciled(e.tables, p.specs))
  }

  function AllUpdated(tables: Database, updates: seq<Update>): Database
    decreases |updates|
  {
    if updates == [] then tables else AllUpdated(Updated(tables, updates[0]), updates[1..])
  }

  function Repaired(s: State, p: Plan): State {
    var r := Readied(s, p);
    r.(tables := AllUpdated(r.tables, p.repairs))
  }

  function Equipped(s: State, p: Plan): State {
    Completed(Repaired(s, p), p.d, p.d.cols.Keys)
  }

  function Backfilled(s: State, p: Plan): State {
    var b := Equipped(s, p);
    b.(tables := AllUpdated(b.tables, p.backfills))
  }

  /** All but the seeds. */
  function Indexes(s: State, p: Plan): State {
    WithIndexes(Backfilled(s, p), p.d, Elems(PlainIn(p.d, p.d.order)))
  }

  // ---------- what may stop it ----------

  /** No update is refused at its turn. */
  predicate UpdatesFit(s: State, updates: seq<Update>)
    decreases |updates|
  {
    updates == [] || (RunUpdate(s, updates[0]).Reached? && UpdatesFit(RunUpdate(s, updates[0]).state, updates[1..]))
  }

  /** The reasons before the seeds: an update, a foreign key without the key it references, or rows that
      repeat the key of a unique index. */
  ghost predicate Fits(s: State, p: Plan) {
    UpdatesFit(Readied(s, p), p.repairs) && SectionFits(Repaired(s, p), p.d) && UpdatesFit(Equipped(s, p), p.backfills)
  }

  // ---------- what the generator guarantees of a plan ----------

  /** Declarations, triggers and secured tables are those of one dump, the specs are its columns, the updates
      name declared columns, and no obsolete index is declared. */
  ghost predicate Dumped(p: Plan, tables: seq<TableDef>) {
    && NoDup(Names(tables)) && Coherent(p.d, tables)
    && (forall t, c :: t in p.d.cols && c in ColumnsFor(p.d, t) ==> Declares(p.specs, t, c))
    && (forall x :: x in p.specs ==> x.tbl in p.d.cols && x.col in ColumnsFor(p.d, x.tbl) && ColumnsFor(p.d, x.tbl)[x.col] == x.column)
    && (forall u, n :: u in p.repairs + p.backfills && n in Needs(u) ==> n.1 in ColumnsFor(p.d, n.0))
    && (forall i :: 0 <= i < |p.triggers| ==> p.triggers[i].1 in p.d.cols)
    && (forall t :: t in p.secured ==> t in p.d.cols && "tenant_id" in ColumnsFor(p.d, t))
    && (forall n :: n in p.obsolete ==> n !in p.d.indexes)
  }

  /** Besides, the tables are in the order of `topo_sort`, and it meets their references. */
  ghost predicate Generated(p: Plan, tables: seq<TableDef>, ordered: seq<TableDef>) {
    Dumped(p, tables) && Sorted(tables, ordered) && RefsMet({}, ordered)
  }

  // ---------- block by block ----------

  lemma {:induction false} DropsRun(s: State, names: seq<Name>)
    ensures ExecAll(s, Drops(names)) == Reached(WithoutIndexes(s, names))
    decreases |names|
  {
    if names == [] {
      assert WithoutIndexes(s, []).indexes == s.indexes;
    } else {
      var next := s.(indexes := s.indexes - {names[0]});
      assert Drops(names)[1..] == Drops(names[1..]) && names == [names[0]] + names[1..];
      DropsRun(next, names[1..]);
      assert WithoutIndexes(next, names[1..]).indexes == WithoutIndexes(s, names).indexes;
    }
  }

  lemma {:induction false} WithoutIndexesLawful(s: State, names: seq<Name>)
    requires Lawful(s)
    ensures Lawful(WithoutIndexes(s, names))
  {
    var o := WithoutIndexes(s, names);
    forall t ensures KeysOn(o, t) <= KeysOn(s, t) {
    }
  }

  lemma {:induction false} BlocksRunIff(s: State, updates: seq<Update>)
    ensures ExecAll(s, Blocks(updates)) ==
            if UpdatesFit(s, updates) then Reached(s.(tables := AllUpdated(s.tables, updates))) else Aborted
    decreases |updates|
  {
    if updates != [] {
      assert Blocks(updates)[1..] == Blocks(updates[1..]);
      RunUpdateIs(s, updates[0]);
      if RunUpdate(s, updates[0]).Reached? {
        BlocksRunIff(RunUpdate(s, updates[0]).state, updates[1..]);
      }
    }
  }

  lemma {:induction false} UpdatesKeepLawful(s: State, updates: seq<Update>)
    requires Lawful(s) && UpdatesFit(s, updates)
    ensures Lawful(s.(tables := AllUpdated(s.tables, updates)))
    decreases |updates|
  {
    if updates != [] {
      UpdateKeepsLawful(s, updates[0]);
      RunUpdateIs(s, updates[0]);
      UpdatesKeepLawful(RunUpdate(s, updates[0]).state, updates[1..]);
    }
  }

  lemma PreRunsIff(s: State, p: Plan)
    ensures ExecAll(s, Pre(p)) == if UpdatesFit(Readied(s, p), p.repairs) then Reached(Repaired(s, p)) else Aborted
  {
    var two := [Evolution(p.tableRenames, p.columnRenames), Reconciliation(p.specs)];
    var w := WithoutIndexes(s, p.obsolete);
    DropsRun(s, p.obsolete);
    ExecAppend(s, Drops(p.obsolete), two + Blocks(p.repairs));
    ExecAppend(w, two, Blocks(p.repairs));
    assert two[1..] == [two[1]];
    ExecOne(Evolved(s, p), two[1]);
    assert ExecAll(w, two) == Reached(Readied(s, p));
    BlocksRunIff(Readied(s, p), p.repairs);
  }

  lemma {:induction false} TriggersRun(s: State, triggers: seq<(Name, Name)>)
    requires forall i :: 0 <= i < |triggers| ==> triggers[i].1 in s.tables
    ensures ExecAll(s, Triggers(triggers)) == Reached(s)
    decreases |triggers|
  {
    if triggers != [] {
      assert Triggers(triggers)[1..] == Triggers(triggers[1..]);
      TriggersRun(s, triggers[1..]);
    }
  }

  lemma {:induction false} InsertsRun(s: State, seeds: seq<Insert>)
    ensures ExecAll(s, Inserts(seeds)) == RunInserts(s, seeds)
    decreases |seeds|
  {
    if seeds != [] {
      assert Inserts(seeds)[1..] == Inserts(seeds[1..]);
      if RunInsert(s, seeds[0]).Reached? {
        InsertsRun(RunInsert(s, seeds[0]).state, seeds[1..]);
      }
    }
  }

  /** Seeds add rows and nothing else. */
  ghost predicate Grows(a: State, b: State) {
    && b == a.(tables := b.tables) && a.tables.Keys == b.tables.Keys
    && forall t :: t in a.tables ==> a.tables[t].cols == b.tables[t].cols && a.tables[t].rows <= b.tables[t].rows
  }

  lemma {:induction false} InsertsGrow(s: State, seeds: seq<Insert>)
    requires RunInserts(s, seeds).Reached?
    ensures Grows(s, RunInserts(s, seeds).state)
    decreases |seeds|
  {
    if seeds != [] {
      var next := RunInsert(s, seeds[0]).state;
      var t := s.tables[seeds[0].into];
      AdmitAppends(KeysOn(s, seeds[0].into), t.rows, StoredAll(t.cols, seeds[0].rows));
      InsertsGrow(next, seeds[1..]);
    }
  }

  lemma {:induction false} InsertsKeepLawful(s: State, seeds: seq<Insert>)
    requires Lawful(s) && RunInserts(s, seeds).Reached?
    ensures Lawful(RunInserts(s, seeds).state)
    decreases |seeds|
  {
    if seeds != [] {
      InsertKeepsLawful(s, seeds[0]);
      InsertsKeepLawful(RunInsert(s, seeds[0]).state, seeds[1..]);
    }
  }

  // ---------- the statements after the tables ----------

  /** All declared tables are there, with their declared columns. */
  ghost predicate HasTables(s: State, d: Declared) {
    HasDeclared(s, d) && d.cols.Keys <= s.tables.Keys
  }

  lemma {:induction false} PlainInAre(d: Declared, order: seq<Name>)
    ensures forall n :: n in PlainIn(d, order) <==> n in order && n in d.indexes && !d.indexes[n].unique
  {
    if order != [] {
      PlainInAre(d, order[1..]);
      assert order == [order[0]] + order[1..];
    }
  }

  lemma PlainIndexesRun(s: State, d: Declared, tables: seq<TableDef>)
    requires Coherent(d, tables) && HasTables(s, d)
    ensures ExecAll(s, IndexStatements(d, PlainIn(d, d.order))) == Reached(WithIndexes(s, d, Elems(PlainIn(d, d.order))))
  {
    var names := PlainIn(d, d.order);
    PlainInAre(d, d.order);
    forall n | n in names
      ensures Buildable(s, d, n)
    {
      assert ColumnsFor(d, d.indexes[n].on).Keys <= s.tables[d.indexes[n].on].cols.Keys;
    }
    IndexesRunIff(s, d, names);
  }

  lemma SecurityRuns(s: State, p: Plan, tables: seq<TableDef>, ordered: seq<TableDef>)
    requires Generated(p, tables, ordered) && HasTables(s, p.d)
    ensures ExecAll(s, [RowSecurity(p.secured)]) == Reached(s)
  {
    ExecOne(s, RowSecurity(p.secured));
    forall t | t in p.secured
      ensures Secures(s, t)
    {
      assert ColumnsFor(p.d, t).Keys <= s.tables[t].cols.Keys;
    }
  }

  /** After the backfills only the seeds can be refused. */
  lemma TrailersRunIff(s: State, p: Plan, tables: seq<TableDef>, ordered: seq<TableDef>)
    requires Generated(p, tables, ordered) && HasTables(s, p.d)
    ensures var plain := WithIndexes(s, p.d, Elems(PlainIn(p.d, p.d.order)));
            ExecAll(s, Triggers(p.triggers) + (IndexStatements(p.d, PlainIn(p.d, p.d.order)) + (Inserts(p.seeds) + [RowSecurity(p.secured)]))) ==
            RunInserts(plain, p.seeds)
  {
    var indexes, seeds, last := IndexStatements(p.d, PlainIn(p.d, p.d.order)), Inserts(p.seeds), [RowSecurity(p.secured)];
    var plain := WithIndexes(s, p.d, Elems(PlainIn(p.d, p.d.order)));
    TriggersRun(s, p.triggers);
    ExecAppend(s, Triggers(p.triggers), indexes + (seeds + last));
    PlainIndexesRun(s, p.d, tables);
    ExecAppend(s, indexes, seeds + last);
    InsertsRun(plain, p.seeds);
    ExecAppend(plain, seeds, last);
    if RunInserts(plain, p.seeds).Reached? {
      InsertsGrow(plain, p.seeds);
      SecurityRuns(RunInserts(plain, p.seeds).state, p, tables, ordered);
    }
  }

  lemma UpdatedCatalog(tables: Database, u: Update)
    ensures Updated(tables, u).Keys == tables.Keys
    ensures forall t :: t in tables ==>
              Updated(tables, u)[t].cols == tables[t].cols && |Updated(tables, u)[t].rows| == |tables[t].rows|
    ensures forall t :: t in tables && t != TableOf(u) ==> Updated(tables, u)[t] == tables[t]
  {
  }

  lemma {:induction false} AllUpdatedCatalog(tables: Database, updates: seq<Update>)
    ensures AllUpdated(tables, updates).Keys == tables.Keys
    ensures forall t :: t in tables ==>
              AllUpdated(tables, updates)[t].cols == tables[t].cols && |AllUpdated(tables, updates)[t].rows| == |tables[t].rows|
    decreases |updates|
  {
    if updates != [] {
      UpdatedCatalog(tables, updates[0]);
      AllUpdatedCatalog(Updated(tables, updates[0]), updates[1..]);
    }
  }

  // ---------- the stages keep the database lawful ----------

  lemma ReadiedIsLawful(s: State, p: Plan)
    requires Lawful(s)
    ensures Lawful(Evolved(s, p)) && Lawful(Readied(s, p))
  {
    var w := WithoutIndexes(s, p.obsolete);
    WithoutIndexesLawful(s, p.obsolete);
    ReplayKeepsLawful(w, p.tableRenames);
    ReplayKeepsLawful(ReplayOn(w, p.tableRenames), p.columnRenames);
    ReconciliationKeepsLawful(Evolved(s, p), p.specs);
  }

  /** After reconciliation every table that is there has its declared columns. */
  lemma ReadiedHasDeclared(s: State, p: Plan, tables: seq<TableDef>, ordered: seq<TableDef>)
    requires Lawful(s) && Generated(p, tables, ordered)
    ensures HasDeclared(Readied(s, p), p.d) && HasDeclared(Repaired(s, p), p.d)
  {
    var e, r := Evolved(s, p), Readied(s, p);
    ReadiedIsLawful(s, p);
    ReconcileKeeps(e.tables, p.specs);
    AllUpdatedCatalog(r.tables, p.repairs);
    forall t, c | t in r.tables && c in ColumnsFor(p.d, t)
      ensures c in r.tables[t].cols
    {
      ReconcileIsExact(e.tables, p.specs, t, c);
    }
  }

  lemma EquippedHasTables(s: State, p: Plan, tables: seq<TableDef>, ordered: seq<TableDef>)
    requires Lawful(s) && Generated(p, tables, ordered)
    ensures HasTables(Equipped(s, p), p.d) && HasTables(Backfilled(s, p), p.d)
  {
    ReadiedHasDeclared(s, p, tables, ordered);
    AllUpdatedCatalog(Equipped(s, p).tables, p.backfills);
  }

  /** The whole script, on any lawful database: it goes through exactly when no update is refused, each missing
      table finds the keys it references, no missing unique index meets a repeated key, and no seed is refused. */
  lemma ScriptRunsIff(s: State, p: Plan, tables: seq<TableDef>, ordered: seq<TableDef>)
    requires Lawful(s) && Generated(p, tables, ordered)
    ensures ExecAll(s, ScriptOf(p, ordered)) == if Fits(s, p) then RunInserts(Indexes(s, p), p.seeds) else Aborted
  {
    ReadiedIsLawful(s, p);
    ReadiedHasDeclared(s, p, tables, ordered);
    EquippedHasTables(s, p, tables, ordered);
    PreRunsIff(s, p);
    ExecAppend(s, Pre(p), TableSection(p.d, ordered) + Post(p));
    if UpdatesFit(Readied(s, p), p.repairs) {
      UpdatesKeepLawful(Readied(s, p), p.repairs);
      SectionRunsIff(Repaired(s, p), p.d, tables, ordered);
      ExecAppend(Repaired(s, p), TableSection(p.d, ordered), Post(p));
      PostRunsIff(Equipped(s, p), p, tables, ordered);
    }
  }

  /** Before the seeds, the tables that were there have the columns that reconciliation leaves; the other
      declared tables are as declared. */
  lemma IndexesCatalog(s: State, p: Plan)
    ensures var r, x := Readied(s, p).tables, Indexes(s, p).tables;
            && x.Keys == r.Keys + p.d.cols.Keys
            && (forall t :: t in r ==> x[t].cols == r[t].cols && |x[t].rows| == |r[t].rows|)
            && (forall t :: t in p.d.cols && t !in r ==> x[t].cols == ColumnsFor(p.d, t))
  {
    AllUpdatedCatalog(Readied(s, p).tables, p.repairs);
    AllUpdatedCatalog(Equipped(s, p).tables, p.backfills);
  }

  /** The same after the seeds, which add rows. */
  lemma ScriptCatalog(s: State, p: Plan)
    requires RunInserts(Indexes(s, p), p.seeds).Reached?
    ensures var r, out := Readied(s, p).tables, RunInserts(Indexes(s, p), p.seeds).state.tables;
            && out.Keys == r.Keys + p.d.cols.Keys
            && (forall t :: t in r ==> out[t].cols == r[t].cols && |r[t].rows| <= |out[t].rows|)
            && (forall t :: t in p.d.cols && t !in r ==> out[t].cols == ColumnsFor(p.d, t))
  {
    IndexesCatalog(s, p);
    InsertsGrow(Indexes(s, p), p.seeds);
  }

  lemma PostRunsIff(s: State, p: Plan, tables: seq<TableDef>, ordered: seq<TableDef>)
    requires Generated(p, tables, ordered) && HasTables(s, p.d)
    ensures var filled := s.(tables := AllUpdated(s.tables, p.backfills));
            ExecAll(s, Post(p)) ==
            if UpdatesFit(s, p.backfills) then RunInserts(WithIndexes(filled, p.d, Elems(PlainIn(p.d, p.d.order))), p.seeds) else Aborted
  {
    var filled := s.(tables := AllUpdated(s.tables, p.backfills));
    BlocksRunIff(s, p.backfills);
    ExecAppend(s, Blocks(p.backfills), Triggers(p.triggers) + (IndexStatements(p.d, PlainIn(p.d, p.d.order)) + (Inserts(p.seeds) + [RowSecurity(p.secured)])));
    AllUpdatedCatalog(s.tables, p.backfills);
    TrailersRunIff(filled, p, tables, ordered);
  }

  /** A script keeps the database lawful: NOT NULL, keys and foreign keys hold at its end. */
  lemma SucceededIsLawful(s: State, p: Plan, tables: seq<TableDef>, ordered: seq<TableDef>)
    requires Lawful(s) && Generated(p, tables, ordered) && ExecAll(s, ScriptOf(p, ordered)).Reached?
    ensures Lawful(ExecAll(s, ScriptOf(p, ordered)).state)
  {
    forall stmt | stmt in ScriptOf(p, ordered)
      ensures Sensible(stmt)
    {
      StatementsAreSensible(p, tables, ordered, stmt);
    }
    ScriptKeepsLawful(s, ScriptOf(p, ordered));
  }

  lemma {:induction false} SectionIsSensible(d: Declared, rest: seq<TableDef>, tables: seq<TableDef>, stmt: Statement)
    requires Coherent(d, tables) && (forall t :: t in rest ==> t in tables) && stmt in TableSection(d, rest)
    ensures Sensible(stmt)
  {
    if stmt in TableSection(d, rest[1..]) {
      SectionIsSensible(d, rest[1..], tables, stmt);
    } else if stmt.Create? {
      assert rest[0] in rest;
      var i :| 0 <= i < |tables| && tables[i] == rest[0];
      assert Names(tables)[i] == rest[0].name && rest[0].name in d.cols;
    }
  }

  lemma StatementsAreSensible(p: Plan, tables: seq<TableDef>, ordered: seq<TableDef>, stmt: Statement)
    requires Generated(p, tables, ordered) && stmt in ScriptOf(p, ordered)
    ensures Sensible(stmt)
  {
    NoCreateAround(p);
    if stmt in TableSection(p.d, ordered) {
      forall t | t in ordered ensures t in tables { assert t in multiset(ordered); }
      SectionIsSensible(p.d, ordered, tables, stmt);
    }
  }
}
