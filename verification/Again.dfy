/**
  The whole script run a second time on the database it leaves: exactly when that
  changes nothing.
 */
module Again {
  import opened Catalog
  import opened Reconcile
  import opened Storage
  import opened Repairs
  import opened Graph
  import opened TableOrder
  import opened Seeds
  import opened Emission
  import opened Ddl
  import opened Rendering
  import opened Upgrade

  // ---------- updates that have nothing left to do ----------

  /** The update would run again and change nothing. */
  predicate Idle(u: Update, tables: Database) {
    Quiet(u, tables) && (u.StampTenants? ==> OneMemoEach(RowsIn(tables, "memo_recipients"), RowsIn(tables, "memos")))
  }

  predicate AllIdle(updates: seq<Update>, tables: Database) {
    forall u :: u in updates ==> Idle(u, tables)
  }

  ghost predicate SameRows(a: Database, b: Database, names: set<Name>) {
    forall t :: t in names ==> RowsIn(a, t) == RowsIn(b, t)
  }

  lemma IdleByRows(u: Update, a: Database, b: Database)
    requires Idle(u, a) && SameRows(a, b, Reads(u))
    ensures Idle(u, b)
  {
    assert TableOf(u) in Reads(u);
  }

  /** After its update an update of the same table is idle. */
  lemma UpdatedIsIdle(u: Update, v: Update, s: State)
    requires RunUpdate(s, u).Reached? && TableOf(u) == TableOf(v)
    ensures Idle(v, Updated(s.tables, u))
  {
    var tables := s.tables;
    if TableOf(u) in tables {
      UpdatedIsQuiet(u, v, tables);
      if u.StampTenants? {
        var rows, memos := RowsIn(tables, "memo_recipients"), RowsIn(tables, "memos");
        var after := AllStamped(rows, memos);
        assert RowsIn(Updated(tables, u), "memos") == memos;
        forall i, j, k | 0 <= i < |after| && 0 <= j < k < |memos| && Cell(after[i], "tenant_id") == Literal("default")
          ensures !(IsMemo(memos[j], after[i]) && IsMemo(memos[k], after[i]))
        {
          assert Cell(after[i], "memo_id") == Cell(rows[i], "memo_id");
          assert Stamps(memos, rows[i]) ==> Cell(rows[i], "tenant_id") == Literal("default");
        }
      }
    }
  }

  lemma IdleStays(u: Update, v: Update, s: State)
    requires Idle(v, s.tables) && RunUpdate(s, u).Reached?
    ensures Idle(v, Updated(s.tables, u))
  {
    if TableOf(u) == TableOf(v) {
      UpdatedIsIdle(u, v, s);
    } else {
      UpdatedCatalog(s.tables, u);
      assert TableOf(u) !in Reads(v) by {
        assert u.CloseOpenShifts? <==> v.StampTenants?;
      }
      IdleByRows(v, s.tables, Updated(s.tables, u));
    }
  }

  lemma {:induction false} AllUpdatedIsIdle(s: State, updates: seq<Update>, before: seq<Update>)
    requires UpdatesFit(s, updates) && AllIdle(before, s.tables)
    ensures AllIdle(before + updates, AllUpdated(s.tables, updates))
    decreases |updates|
  {
    if updates == [] {
      assert before + updates == before;
    } else {
      var u := updates[0];
      RunUpdateIs(s, u);
      UpdatedIsIdle(u, u, s);
      forall v | v in before ensures Idle(v, Updated(s.tables, u)) { IdleStays(u, v, s); }
      AllUpdatedIsIdle(RunUpdate(s, u).state, updates[1..], before + [u]);
      assert before + [u] + updates[1..] == before + updates;
    }
  }

  /** Idle updates run and leave the database as it is. */
  lemma {:induction false} IdleRuns(s: State, updates: seq<Update>, d: Declared)
    requires Lawful(s) && AllIdle(updates, s.tables) && HasTables(s, d)
    requires forall u, n :: u in updates && n in Needs(u) ==> n.1 in ColumnsFor(d, n.0)
    ensures UpdatesFit(s, updates) && AllUpdated(s.tables, updates) == s.tables
    decreases |updates|
  {
    if updates != [] {
      var u := updates[0];
      assert u in updates && forall v :: v in updates[1..] ==> v in updates;
      NeedsAreThere(s, u, d);
      assert Runnable(u, s.tables);
      NeedsWrites(u, s.tables);
      OwnRowsAreStorable(s, TableOf(u));
      assert RunUpdate(s, u) == Reached(s);
      RunUpdateIs(s, u);
      IdleRuns(s, updates[1..], d);
    }
  }

  lemma NeedsAreThere(s: State, u: Update, d: Declared)
    requires HasTables(s, d) && forall n :: n in Needs(u) ==> n.1 in ColumnsFor(d, n.0)
    ensures forall n :: n in Needs(u) ==> n.1 in ColumnsIn(s.tables, n.0)
  {
    forall n | n in Needs(u)
      ensures n.1 in ColumnsIn(s.tables, n.0)
    {
      assert n.0 in d.cols && ColumnsFor(d, n.0).Keys <= s.tables[n.0].cols.Keys;
    }
  }

  // ---------- seeds that add nothing ----------

  /** No seed goes to a table that an update reads or writes. */
  predicate Apart(p: Plan) {
    forall u, i :: u in p.repairs + p.backfills && 0 <= i < |p.seeds| ==> p.seeds[i].into !in Reads(u)
  }

  lemma {:induction false} SeedsLeaveOthers(s: State, seeds: seq<Insert>, t: Name)
    requires RunInserts(s, seeds).Reached? && forall i :: 0 <= i < |seeds| ==> seeds[i].into != t
    ensures RowsIn(RunInserts(s, seeds).state.tables, t) == RowsIn(s.tables, t)
    decreases |seeds|
  {
    if seeds != [] {
      SeedsLeaveOthers(RunInsert(s, seeds[0]).state, seeds[1..], t);
    }
  }

  /** Some key of its table applies to each row of each seed. */
  ghost predicate AllKeyed(s: State, seeds: seq<Insert>) {
    forall i, r :: 0 <= i < |seeds| && seeds[i].into in s.tables && r in StoredAll(s.tables[seeds[i].into].cols, seeds[i].rows) ==>
      Keyed(KeysOn(s, seeds[i].into), r)
  }

  /** The insert adds nothing to the database. */
  predicate AddsNothing(s: State, insert: Insert) {
    insert.into in s.tables && RowsAfter(s, insert) == s.tables[insert.into].rows
  }

  lemma GrowsKeys(a: State, b: State, t: Name)
    requires Grows(a, b)
    ensures KeysOn(a, t) == KeysOn(b, t)
  {
  }

  /** After its own turn and any other seeds, an insert adds nothing exactly when its rows are keyed. */
  lemma SeedAgainIff(s: State, insert: Insert, later: State)
    requires RunInsert(s, insert).Reached? && Grows(RunInsert(s, insert).state, later)
    ensures AddsNothing(later, insert) <==>
            forall r :: r in StoredAll(s.tables[insert.into].cols, insert.rows) ==> Keyed(KeysOn(s, insert.into), r)
  {
    var t, once := insert.into, RunInsert(s, insert).state;
    var keys, added := KeysOn(s, t), StoredAll(s.tables[t].cols, insert.rows);
    GrowsKeys(once, later, t);
    assert KeysOn(once, t) == keys;
    AdmitsNothingIff(keys, later.tables[t].rows, added);
    forall r | r in added
      ensures Conflicts(keys, later.tables[t].rows, r) <==> Keyed(keys, r)
    {
      if Keyed(keys, r) {
        AdmittedConflicts(keys, s.tables[t].rows, added, r);
        ConflictsStay(keys, once.tables[t].rows, later.tables[t].rows, r);
      }
      if Conflicts(keys, later.tables[t].rows, r) {
        ConflictIsKeyed(keys, later.tables[t].rows, r);
      }
    }
  }

  lemma ConflictIsKeyed(keys: set<Key>, rows: seq<Row>, r: Row)
    requires Conflicts(keys, rows, r)
    ensures Keyed(keys, r)
  {
    var k, i :| k in keys && 0 <= i < |rows| && SameKey(k, rows[i], r);
    assert SameKey(k, r, r);
  }

  lemma GrowsTransitive(a: State, b: State, c: State)
    requires Grows(a, b) && Grows(b, c)
    ensures Grows(a, c)
  {
    forall t | t in a.tables
      ensures a.tables[t].rows <= c.tables[t].rows
    {
      assert a.tables[t].rows <= b.tables[t].rows <= c.tables[t].rows;
    }
  }

  lemma {:induction false} SeedsAddNothingIff(s: State, seeds: seq<Insert>, later: State)
    requires RunInserts(s, seeds).Reached? && Grows(RunInserts(s, seeds).state, later)
    ensures (forall i :: 0 <= i < |seeds| ==> AddsNothing(later, seeds[i])) <==> AllKeyed(later, seeds)
    decreases |seeds|
  {
    if seeds != [] {
      var next := RunInsert(s, seeds[0]).state;
      InsertsGrow(next, seeds[1..]);
      GrowsTransitive(next, RunInserts(s, seeds).state, later);
      SeedAgainIff(s, seeds[0], later);
      SeedsAddNothingIff(next, seeds[1..], later);
      OneInsertGrows(s, seeds[0]);
      GrowsTransitive(s, next, later);
      GrowsKeys(s, later, seeds[0].into);
      KeyedCons(later, seeds);
      assert (forall i :: 0 <= i < |seeds| ==> AddsNothing(later, seeds[i])) <==>
             AddsNothing(later, seeds[0]) && forall i :: 0 <= i < |seeds[1..]| ==> AddsNothing(later, seeds[1..][i]) by {
        NothingCons(later, seeds);
      }
    }
  }

  lemma NothingCons(s: State, seeds: seq<Insert>)
    requires seeds != []
    ensures (forall i :: 0 <= i < |seeds| ==> AddsNothing(s, seeds[i])) <==>
            AddsNothing(s, seeds[0]) && forall i :: 0 <= i < |seeds[1..]| ==> AddsNothing(s, seeds[1..][i])
  {
    if AddsNothing(s, seeds[0]) && forall i :: 0 <= i < |seeds[1..]| ==> AddsNothing(s, seeds[1..][i]) {
      forall i | 0 <= i < |seeds| ensures AddsNothing(s, seeds[i]) {
        assert i > 0 ==> seeds[i] == seeds[1..][i - 1];
      }
    }
  }

  lemma KeyedCons(s: State, seeds: seq<Insert>)
    requires seeds != []
    ensures AllKeyed(s, seeds) <==> AllKeyed(s, [seeds[0]]) && AllKeyed(s, seeds[1..])
  {
    if AllKeyed(s, [seeds[0]]) && AllKeyed(s, seeds[1..]) {
      forall i, r | 0 <= i < |seeds| && seeds[i].into in s.tables && r in StoredAll(s.tables[seeds[i].into].cols, seeds[i].rows)
        ensures Keyed(KeysOn(s, seeds[i].into), r)
      {
        assert i > 0 ==> seeds[i] == seeds[1..][i - 1];
        assert i == 0 ==> seeds[i] == [seeds[0]][0];
      }
    }
    if AllKeyed(s, seeds) {
      assert forall i :: 0 <= i < |seeds[1..]| ==> seeds[1..][i] == seeds[i + 1];
    }
  }

  lemma OneInsertGrows(s: State, insert: Insert)
    requires RunInsert(s, insert).Reached?
    ensures Grows(s, RunInsert(s, insert).state)
  {
    OneInsert(s, insert);
    InsertsGrow(s, [insert]);
  }

  lemma AddingShows(s: State, seeds: seq<Insert>)
    requires seeds != [] && RunInserts(s, seeds).Reached?
    ensures RunInserts(s, seeds).state == s ==> AddsNothing(s, seeds[0])
  {
    var t, next, last := seeds[0].into, RunInsert(s, seeds[0]).state, RunInserts(s, seeds).state;
    OneInsertGrows(s, seeds[0]);
    InsertsGrow(next, seeds[1..]);
    assert s.tables[t].rows <= next.tables[t].rows <= last.tables[t].rows;
  }

  /** Seeds that all add nothing run and leave the database as it is; and only those do. */
  lemma {:induction false} SeedsRunAgainIff(s: State, seeds: seq<Insert>)
    requires Lawful(s)
    requires forall i :: 0 <= i < |seeds| ==> seeds[i].into in s.tables && RowsFit(s.tables[seeds[i].into].cols, seeds[i].rows)
    ensures RunInserts(s, seeds) == Reached(s) <==> forall i :: 0 <= i < |seeds| ==> AddsNothing(s, seeds[i])
    decreases |seeds|
  {
    if seeds != [] {
      NothingCons(s, seeds);
      if AddsNothing(s, seeds[0]) {
        OwnRowsAreStorable(s, seeds[0].into);
        assert RunInsert(s, seeds[0]) == Reached(s);
        assert forall i :: 0 <= i < |seeds[1..]| ==> seeds[1..][i] == seeds[i + 1];
        SeedsRunAgainIff(s, seeds[1..]);
      } else if RunInserts(s, seeds).Reached? {
        AddingShows(s, seeds);
      }
    }
  }

  lemma {:induction false} SeedsFitted(s: State, seeds: seq<Insert>, later: State)
    requires RunInserts(s, seeds).Reached? && Grows(RunInserts(s, seeds).state, later)
    ensures forall i :: 0 <= i < |seeds| ==> seeds[i].into in later.tables && RowsFit(later.tables[seeds[i].into].cols, seeds[i].rows)
    decreases |seeds|
  {
    if seeds != [] {
      var next := RunInsert(s, seeds[0]).state;
      SeedsFitted(next, seeds[1..], later);
      InsertsGrow(next, seeds[1..]);
      OneInsertGrows(s, seeds[0]);
      forall i | 0 <= i < |seeds|
        ensures seeds[i].into in later.tables && RowsFit(later.tables[seeds[i].into].cols, seeds[i].rows)
      {
        assert i > 0 ==> seeds[i] == seeds[1..][i - 1];
      }
    }
  }

  // ---------- the database that a run leaves ----------

  lemma {:induction false} ReplayOnIndexNames(s: State, ops: seq<Rename>)
    ensures ReplayOn(s, ops).indexes.Keys == s.indexes.Keys
    decreases |ops|
  {
    if ops != [] {
      ReplayOnIndexNames(ApplyTo(s, ops[0]), ops[1..]);
    }
  }

  /** What the script left: `once` is the result of a first run on `s`. */
  ghost predicate Ran(s: State, p: Plan, tables: seq<TableDef>, ordered: seq<TableDef>, once: State) {
    Lawful(s) && Generated(p, tables, ordered) && ExecAll(s, ScriptOf(p, ordered)) == Reached(once)
  }

  lemma RanIs(s: State, p: Plan, tables: seq<TableDef>, ordered: seq<TableDef>, once: State)
    requires Ran(s, p, tables, ordered, once)
    ensures Fits(s, p) && RunInserts(Indexes(s, p), p.seeds) == Reached(once) && Lawful(once) && Grows(Indexes(s, p), once)
  {
    ScriptRunsIff(s, p, tables, ordered);
    SucceededIsLawful(s, p, tables, ordered);
    InsertsGrow(Indexes(s, p), p.seeds);
  }

  lemma EvolvedIndexNames(s: State, p: Plan)
    ensures Evolved(s, p).indexes.Keys == WithoutIndexes(s, p.obsolete).indexes.Keys
  {
    var w := WithoutIndexes(s, p.obsolete);
    ReplayOnIndexNames(w, p.tableRenames);
    ReplayOnIndexNames(ReplayOn(w, p.tableRenames), p.columnRenames);
  }

  lemma MoreIndexNames(indexes: map<Name, Indexed>, d: Declared)
    requires forall n :: n in d.order <==> n in d.indexes
    requires forall n :: n in d.indexes ==> d.indexes[n].on in d.cols
    ensures MoreIndexes(MoreIndexes(indexes, d, UniquesAmong(d, d.cols.Keys)), d, Elems(PlainIn(d, d.order))).Keys == indexes.Keys + d.indexes.Keys
  {
    PlainInAre(d, d.order);
  }

  lemma IndexNamesAfter(s: State, p: Plan, tables: seq<TableDef>, ordered: seq<TableDef>)
    requires Generated(p, tables, ordered)
    ensures forall n :: n in p.d.indexes ==> n in Indexes(s, p).indexes
    ensures forall n :: n in p.obsolete ==> n !in Indexes(s, p).indexes
  {
    EvolvedIndexNames(s, p);
    MoreIndexNames(Repaired(s, p).indexes, p.d);
  }

  lemma GrowsHasTables(a: State, b: State, d: Declared)
    requires HasTables(a, d) && Grows(a, b)
    ensures HasTables(b, d)
  {
  }

  lemma NoneObsolete(s: State, names: seq<Name>)
    requires forall n :: n in names ==> n !in s.indexes
    ensures WithoutIndexes(s, names) == s
  {
    assert WithoutIndexes(s, names).indexes == s.indexes;
  }

  /** A run leaves the declared tables and indexes and none of the obsolete ones. */
  lemma RanIsComplete(s: State, p: Plan, tables: seq<TableDef>, ordered: seq<TableDef>, once: State)
    requires Ran(s, p, tables, ordered, once)
    ensures HasTables(once, p.d) && WithoutIndexes(once, p.obsolete) == once
    ensures forall n :: n in p.d.indexes ==> n in once.indexes
  {
    RanIs(s, p, tables, ordered, once);
    EquippedHasTables(s, p, tables, ordered);
    IndexNamesAfter(s, p, tables, ordered);
    var i := Indexes(s, p);
    assert once.indexes == i.indexes && i.tables == Backfilled(s, p).tables;
    GrowsHasTables(i, once, p.d);
    NoneObsolete(once, p.obsolete);
  }

  lemma CompletedIsIdle(s: State, d: Declared, names: set<Name>, updates: seq<Update>)
    requires AllIdle(updates, s.tables)
    ensures AllIdle(updates, Completed(s, d, names).tables)
  {
    forall u | u in updates ensures Idle(u, Completed(s, d, names).tables) {
      IdleByRows(u, s.tables, Completed(s, d, names).tables);
    }
  }

  /** The stages before the seeds leave every update idle. */
  lemma StagesAreIdle(s: State, p: Plan)
    requires UpdatesFit(Readied(s, p), p.repairs) && UpdatesFit(Equipped(s, p), p.backfills)
    ensures AllIdle(p.repairs + p.backfills, Indexes(s, p).tables)
  {
    AllUpdatedIsIdle(Readied(s, p), p.repairs, []);
    assert [] + p.repairs == p.repairs;
    CompletedIsIdle(Repaired(s, p), p.d, p.d.cols.Keys, p.repairs);
    AllUpdatedIsIdle(Equipped(s, p), p.backfills, p.repairs);
  }

  lemma SeedsLeaveIdle(s: State, seeds: seq<Insert>, updates: seq<Update>)
    requires AllIdle(updates, s.tables) && RunInserts(s, seeds).Reached?
    requires forall u, i :: u in updates && 0 <= i < |seeds| ==> seeds[i].into !in Reads(u)
    ensures AllIdle(updates, RunInserts(s, seeds).state.tables)
  {
    var last := RunInserts(s, seeds).state.tables;
    forall u | u in updates
      ensures Idle(u, last)
    {
      forall t | t in Reads(u) ensures RowsIn(last, t) == RowsIn(s.tables, t) {
        SeedsLeaveOthers(s, seeds, t);
      }
      IdleByRows(u, s.tables, last);
    }
  }

  lemma RanIsIdle(s: State, p: Plan, tables: seq<TableDef>, ordered: seq<TableDef>, once: State)
    requires Ran(s, p, tables, ordered, once) && Apart(p)
    ensures AllIdle(p.repairs + p.backfills, once.tables)
  {
    RanIs(s, p, tables, ordered, once);
    StagesAreIdle(s, p);
    SeedsLeaveIdle(Indexes(s, p), p.seeds, p.repairs + p.backfills);
  }

  // ---------- the second run ----------

  ghost predicate AllSettled(tables: Database, specs: seq<Spec>) {
    forall x :: x in specs ==> Settled(tables, x)
  }

  /** Before the tables nothing happens, where no rename fires, the loop is settled and the updates are idle. */
  lemma FirstStagesIdle(s: State, p: Plan)
    requires Lawful(s) && HasTables(s, p.d) && WithoutIndexes(s, p.obsolete) == s && AllIdle(p.repairs, s.tables)
    requires forall u, n :: u in p.repairs && n in Needs(u) ==> n.1 in ColumnsFor(p.d, n.0)
    requires (forall op :: op in p.tableRenames + p.columnRenames ==> !Fires(s.tables, op)) && AllSettled(s.tables, p.specs)
    ensures Readied(s, p) == s && UpdatesFit(s, p.repairs) && Repaired(s, p) == s
  {
    ReplayOnNothingFires(s, p.tableRenames);
    ReplayOnNothingFires(s, p.columnRenames);
    SettledIsFixed(s.tables, p.specs);
    IdleRuns(s, p.repairs, p.d);
  }

  lemma LastStagesIdle(s: State, p: Plan)
    requires Lawful(s) && HasTables(s, p.d) && AllIdle(p.backfills, s.tables) && Repaired(s, p) == s
    requires forall u, n :: u in p.backfills && n in Needs(u) ==> n.1 in ColumnsFor(p.d, n.0)
    requires forall n :: n in p.d.indexes ==> n in s.indexes
    ensures SectionFits(s, p.d) && Equipped(s, p) == s && UpdatesFit(s, p.backfills) && Indexes(s, p) == s
  {
    EverythingIsThere(s, p.d);
    IdleRuns(s, p.backfills, p.d);
    PlainInAre(p.d, p.d.order);
    assert WithIndexes(s, p.d, Elems(PlainIn(p.d, p.d.order))).indexes == s.indexes;
  }

  lemma UpdatesDeclared(p: Plan, tables: seq<TableDef>)
    requires Dumped(p, tables)
    ensures forall u, n :: u in p.repairs && n in Needs(u) ==> n.1 in ColumnsFor(p.d, n.0)
    ensures forall u, n :: u in p.backfills && n in Needs(u) ==> n.1 in ColumnsFor(p.d, n.0)
  {
    assert forall u :: u in p.repairs || u in p.backfills ==> u in p.repairs + p.backfills;
  }

  /** On a lawful database that has everything declared, and on which no rename fires and no update acts, the
      script does nothing but its inserts. */
  lemma OnlySeedsAct(s: State, p: Plan, tables: seq<TableDef>, ordered: seq<TableDef>)
    requires Lawful(s) && Generated(p, tables, ordered) && HasTables(s, p.d) && WithoutIndexes(s, p.obsolete) == s
    requires (forall n :: n in p.d.indexes ==> n in s.indexes) && AllIdle(p.repairs + p.backfills, s.tables)
    requires forall op :: op in p.tableRenames + p.columnRenames ==> !Fires(s.tables, op)
    requires AllSettled(s.tables, p.specs)
    ensures ExecAll(s, ScriptOf(p, ordered)) == RunInserts(s, p.seeds)
  {
    UpdatesDeclared(p, tables);
    assert AllIdle(p.repairs, s.tables) && AllIdle(p.backfills, s.tables);
    FirstStagesIdle(s, p);
    LastStagesIdle(s, p);
    ScriptRunsIff(s, p, tables, ordered);
  }

  lemma EverythingIsThere(s: State, d: Declared)
    requires s.keys.Keys == s.tables.Keys && d.cols.Keys <= s.tables.Keys && forall n :: n in d.indexes ==> n in s.indexes
    ensures Completed(s, d, d.cols.Keys) == s && SectionFits(s, d)
  {
    var o := Completed(s, d, d.cols.Keys);
    assert o.tables == s.tables;
    assert o.keys == s.keys;
    assert o.indexes == s.indexes;
    assert NewLinks(s, d, d.cols.Keys) == {};
  }

  /** A loop that leaves the columns as they were had nothing to do. */
  lemma UnchangedColumnsAreSettled(tables: Database, specs: seq<Spec>)
    requires WellFormed(tables) && forall t :: t in tables ==> t in Reconciled(tables, specs) && Reconciled(tables, specs)[t].cols == tables[t].cols
    ensures AllSettled(tables, specs)
  {
    var r := Reconciled(tables, specs);
    ReconcileSettles(tables, specs);
    ReconcileKeeps(tables, specs);
    forall x | x in specs
      ensures Settled(tables, x)
    {
      assert Settled(r, x);
      if x.tbl in tables {
        NullsStay(tables[x.tbl], r[x.tbl], x.col);
      }
    }
  }

  lemma NullsStay(a: Table, b: Table, c: Name)
    requires KeepsCells(a, b) && WellFormedTable(a) && c in a.cols
    ensures HasNull(a, c) <==> HasNull(b, c)
  {
    assert forall i :: 0 <= i < |a.rows| ==> a.rows[i].Keys == a.cols.Keys;
    if HasNull(a, c) {
      var i :| 0 <= i < |a.rows| && c in a.rows[i] && a.rows[i][c] == Null;
      assert b.rows[i][c] == Null;
    }
  }

  /** A run that changes nothing shows that reconciliation had nothing to do. */
  lemma UnchangedIsSettled(s: State, p: Plan, tables: seq<TableDef>, ordered: seq<TableDef>)
    requires Lawful(s) && Generated(p, tables, ordered) && ExecAll(s, ScriptOf(p, ordered)) == Reached(s)
    requires Evolved(s, p) == s
    ensures AllSettled(s.tables, p.specs)
  {
    ScriptRunsIff(s, p, tables, ordered);
    ScriptCatalog(s, p);
    ReconcileKeeps(s.tables, p.specs);
    UnchangedColumnsAreSettled(s.tables, p.specs);
  }

  /** Whenever no rename fires any more and no seed goes to a table of an update: a second run changes nothing
      if and only if every declared NOT NULL column is NOT NULL by now or still holds a NULL, and some key
      applies to every row of the seeds. */
  lemma SecondRunIff(s: State, p: Plan, tables: seq<TableDef>, ordered: seq<TableDef>, once: State)
    requires Ran(s, p, tables, ordered, once) && Apart(p)
    requires forall op :: op in p.tableRenames + p.columnRenames ==> !Fires(once.tables, op)
    ensures ExecAll(once, ScriptOf(p, ordered)) == Reached(once) <==>
            AllSettled(once.tables, p.specs) && AllKeyed(once, p.seeds)
  {
    RanIs(s, p, tables, ordered, once);
    RanIsComplete(s, p, tables, ordered, once);
    RanIsIdle(s, p, tables, ordered, once);
    GrowsReflexive(once);
    SeedsAddNothingIff(Indexes(s, p), p.seeds, once);
    SeedsFitted(Indexes(s, p), p.seeds, once);
    SeedsRunAgainIff(once, p.seeds);
    if AllSettled(once.tables, p.specs) {
      OnlySeedsAct(once, p, tables, ordered);
    }
    if ExecAll(once, ScriptOf(p, ordered)) == Reached(once) {
      ReplayOnNothingFires(once, p.tableRenames);
      ReplayOnNothingFires(once, p.columnRenames);
      UnchangedIsSettled(once, p, tables, ordered);
    }
  }

  lemma GrowsReflexive(s: State)
    ensures Grows(s, s)
  {
  }
}
