/**
  One upgrade of a deployed database: the script generated from the whole chain, run
  on a lawful database that tracks some earlier point of it.
 */
module Deployment {
  import opened Catalog
  import opened Migrations
  import opened Tracking
  import opened RenameReplay
  import opened Reconcile
  import opened Convergence
  import opened Storage
  import opened Graph
  import opened TableOrder
  import opened Seeds
  import opened Emission
  import opened Ddl
  import opened Rendering
  import opened Upgrade
  import opened Again
  import opened Settling
  import opened RowsKept

  function CatalogOf(db: Database): map<Name, Columns> {
    map t | t in db :: db[t].cols
  }

  /** The plan is made from the renames of the chain and the dump of its final state. */
  ghost predicate PlanOf(p: Plan, chain: seq<Step>, final: Database, dumps: seq<TableDump>) {
    && p.tableRenames == TablesOf(RenamesOf(chain)) && p.columnRenames == ColumnsOf(RenamesOf(chain))
    && IsDump(dumps, final) && p.specs == SpecsOf(dumps) && p.d.cols == CatalogOf(final)
  }

  /** The database has been brought to `b`, where the chain stood after `seen`; `ahead` is outstanding. */
  ghost predicate Outstanding(s: State, b: Database, seen: seq<Step>, ahead: seq<Step>, temps: set<Name>) {
    Lawful(s) && Tracks(s.tables, b, seen, temps) && Runs(b, ahead) && Disciplined(seen + ahead, temps)
  }

  // ---------- the three blocks and the whole script ----------

  /** Before the updates the whole script is the evolution and the reconciliation. */
  lemma ReadiedTables(s: State, p: Plan, chain: seq<Step>, final: Database, dumps: seq<TableDump>)
    requires PlanOf(p, chain, final, dumps)
    ensures Readied(s, p).tables == Reconciled(Evolve(s.tables, RenamesOf(chain)), SpecsOf(dumps))
  {
    EvolvedTables(s, p);
    ReplayAppend(s.tables, p.tableRenames, p.columnRenames);
  }

  ghost predicate SameCatalog(a: Database, b: Database) {
    a.Keys == b.Keys && forall t :: t in a ==> a[t].cols == b[t].cols
  }

  lemma CatalogsAgree(r: Database, final: Database, dumps: seq<TableDump>, d: Declared, o: Database)
    requires IsDump(dumps, final) && d.cols == CatalogOf(final) && o.Keys == r.Keys + d.cols.Keys
    requires (forall t :: t in r ==> o[t].cols == r[t].cols) && forall t :: t in d.cols && t !in r ==> o[t].cols == ColumnsFor(d, t)
    ensures SameCatalog(o, CreateMissing(r, dumps))
  {
    CreatesTheRest(r, final, dumps);
    assert forall t :: t in final ==> ColumnsFor(d, t) == final[t].cols;
  }

  /** The script ends with the tables and columns that evolution, reconciliation and guarded creates give. */
  lemma EndsConverged(s: State, p: Plan, tables: seq<TableDef>, ordered: seq<TableDef>, chain: seq<Step>, final: Database,
                      dumps: seq<TableDump>, once: State)
    requires Ran(s, p, tables, ordered, once) && PlanOf(p, chain, final, dumps)
    ensures SameCatalog(once.tables, Converge(s.tables, RenamesOf(chain), dumps))
  {
    RanIs(s, p, tables, ordered, once);
    ScriptCatalog(s, p);
    ReadiedTables(s, p, chain, final, dumps);
    CatalogsAgree(Readied(s, p).tables, final, dumps, p.d, once.tables);
  }

  lemma TracksByCatalog(a: Database, c: Database, b: Database, past: seq<Step>, temps: set<Name>)
    requires Tracks(a, b, past, temps) && SameCatalog(a, c)
    ensures Tracks(c, b, past, temps)
  {
    forall s | s in past
      ensures Gone(c, s)
    {
      assert Gone(a, s);
    }
  }

  /** The upgraded database is on the track of the whole chain, and no rename fires on it any more. */
  lemma UpgradedTracks(s: State, b: Database, seen: seq<Step>, ahead: seq<Step>, temps: set<Name>, p: Plan, tables: seq<TableDef>,
                       ordered: seq<TableDef>, dumps: seq<TableDump>, once: State)
    requires Outstanding(s, b, seen, ahead, temps) && PlanOf(p, seen + ahead, Run(b, ahead), dumps)
    requires Ran(s, p, tables, ordered, once)
    ensures Tracks(once.tables, Run(b, ahead), seen + ahead, temps)
    ensures forall op :: op in p.tableRenames + p.columnRenames ==> !Fires(once.tables, op)
  {
    var chain := seen + ahead;
    var out := Converge(s.tables, RenamesOf(chain), dumps);
    Converges(s.tables, b, seen, ahead, temps, dumps);
    EndsConverged(s, p, tables, ordered, chain, Run(b, ahead), dumps, once);
    TracksByCatalog(out, once.tables, Run(b, ahead), chain, temps);
    KindsMember(RenamesOf(chain));
    forall op | op in p.tableRenames + p.columnRenames
      ensures !Fires(once.tables, op)
    {
      SeenRenameIsSilent(once.tables, chain, op, temps);
    }
  }

  // ---------- what an upgrade leaves ----------

  /** An upgrade that goes through: its catalog is that of the database, as the outstanding renames move it,
      merged with the declared schema; no row is lost and no cell changed but those the declared updates
      write; and running the script again changes nothing exactly when the updates overwrote no last NULL and
      every seed row has a key. */
  lemma UpgradeIsSound(s: State, b: Database, seen: seq<Step>, ahead: seq<Step>, temps: set<Name>, p: Plan, tables: seq<TableDef>,
                       ordered: seq<TableDef>, dumps: seq<TableDump>, once: State)
    requires Outstanding(s, b, seen, ahead, temps) && PlanOf(p, seen + ahead, Run(b, ahead), dumps)
    requires Ran(s, p, tables, ordered, once)
    ensures Lawful(once) && Tracks(once.tables, Run(b, ahead), seen + ahead, temps)
    ensures var out := Converge(s.tables, RenamesOf(seen + ahead), dumps);
            SameCatalog(once.tables, out) && Merged(Replay(s.tables, RenamesOf(ahead)), Run(b, ahead), out)
    ensures NothingLostBut(s.tables, once.tables, Written(p.repairs + p.backfills))
    ensures Apart(p) ==> (ExecAll(once, ScriptOf(p, ordered)) == Reached(once) <==> NullsKept(s, p) && AllKeyed(once, p.seeds))
  {
    RanIs(s, p, tables, ordered, once);
    Converges(s.tables, b, seen, ahead, temps, dumps);
    UpgradedTracks(s, b, seen, ahead, temps, p, tables, ordered, dumps, once);
    EndsConverged(s, p, tables, ordered, seen + ahead, Run(b, ahead), dumps, once);
    ScriptLosesNothing(s, p, tables, ordered, once);
    if Apart(p) {
      RunningAgainIff(s, p, tables, ordered, once);
    }
  }

  // ---------- exactly when it goes through ----------

  /** The seeds are rows of the final SQLite state. */
  ghost predicate Conform(final: Database, seeds: seq<Insert>) {
    forall i :: 0 <= i < |seeds| ==>
      seeds[i].into in final && WellFormedTable(Table(final[seeds[i].into].cols, seeds[i].rows))
  }

  /** Column `c` of the legacy table `e` is NOT NULL and the seed has no value for it: the column is not
      declared any more and has no default, or it is declared nullable and some row is NULL there. */
  ghost predicate RefusesAt(e: Table, declared: Columns, rows: seq<Row>, c: Name) {
    && c in e.cols && e.cols[c].notNull
    && if c in declared then exists i :: 0 <= i < |rows| && c in rows[i] && rows[i][c] == Null
       else rows != [] && e.cols[c].fill == Null
  }

  ghost predicate Refuses(ev: Database, final: Database, seed: Insert) {
    seed.into in ev && exists c :: RefusesAt(ev[seed.into], DeclaredIn(final, seed.into), seed.rows, c)
  }

  lemma RefusedIsUnfit(e: Table, declared: Columns, o: Table, rows: seq<Row>, c: Name)
    requires MergedTable(e, declared, o) && WellFormedTable(Table(declared, rows)) && RefusesAt(e, declared, rows, c)
    ensures !RowsFit(o.cols, rows)
  {
    var i := if c in declared then var j :| 0 <= j < |rows| && c in rows[j] && rows[j][c] == Null; j else 0;
    assert rows[i].Keys == declared.Keys && o.cols[c].notNull;
    assert Stored(o.cols, rows[i])[c] == Null;
    assert !RowFits(o.cols, rows[i]);
  }

  lemma UnrefusedFits(e: Table, declared: Columns, o: Table, rows: seq<Row>, i: nat)
    requires MergedTable(e, declared, o) && WellFormedTable(Table(declared, rows)) && i < |rows|
    requires forall c :: !RefusesAt(e, declared, rows, c)
    ensures RowFits(o.cols, rows[i])
  {
    var t := Table(declared, rows);
    assert t.rows[i].Keys == declared.Keys;
    forall c | c in o.cols && o.cols[c].notNull
      ensures Stored(o.cols, rows[i])[c] != Null
    {
      assert !RefusesAt(e, declared, rows, c);
      if c in declared && declared[c].notNull {
        assert t.rows[i][c] != Null;
      }
    }
  }

  /** A seed fits the columns of the upgraded table exactly when the table it found does not refuse it. */
  lemma SeedFitsIff(ev: Database, final: Database, out: Database, seed: Insert)
    requires Merged(ev, final, out) && seed.into in final
    requires WellFormedTable(Table(final[seed.into].cols, seed.rows))
    ensures seed.into in out && (RowsFit(out[seed.into].cols, seed.rows) <==> !Refuses(ev, final, seed))
  {
    var t, declared := seed.into, final[seed.into].cols;
    if t in ev {
      assert MergedTable(ev[t], declared, out[t]);
      if c :| RefusesAt(ev[t], declared, seed.rows, c) {
        RefusedIsUnfit(ev[t], declared, out[t], seed.rows, c);
      } else {
        forall i | 0 <= i < |seed.rows|
          ensures RowFits(out[t].cols, seed.rows[i])
        {
          UnrefusedFits(ev[t], declared, out[t], seed.rows, i);
        }
      }
    } else {
      forall i | 0 <= i < |seed.rows|
        ensures RowFits(out[t].cols, seed.rows[i])
      {
        assert Table(declared, seed.rows).rows[i].Keys == declared.Keys;
      }
    }
  }

  /** The database once some inserts have run. */
  function InsertedAll(s: State, seeds: seq<Insert>): State
    decreases |seeds|
  {
    if seeds == [] then s
    else InsertedAll(if seeds[0].into in s.tables then WithRows(s, seeds[0].into, RowsAfter(s, seeds[0])) else s, seeds[1..])
  }

  /** Every insert fits its table and finds the parents of the rows it adds, at its turn. */
  ghost predicate SeedsAccepted(s: State, seeds: seq<Insert>) {
    forall i :: 0 <= i < |seeds| ==>
      && seeds[i].into in s.tables && RowsFit(s.tables[seeds[i].into].cols, seeds[i].rows)
      && var before := InsertedAll(s, seeds[..i]); seeds[i].into in before.tables && ParentsFound(before, seeds[i])
  }

  lemma AcceptedCons(s: State, seeds: seq<Insert>)
    requires seeds != [] && seeds[0].into in s.tables
    ensures var next := WithRows(s, seeds[0].into, RowsAfter(s, seeds[0]));
            SeedsAccepted(s, seeds) <==>
            RowsFit(s.tables[seeds[0].into].cols, seeds[0].rows) && ParentsFound(s, seeds[0]) && SeedsAccepted(next, seeds[1..])
  {
    var next, rest := WithRows(s, seeds[0].into, RowsAfter(s, seeds[0])), seeds[1..];
    forall i | 0 <= i < |rest|
      ensures rest[i] == seeds[i + 1] && InsertedAll(next, rest[..i]) == InsertedAll(s, seeds[..i + 1])
    {
      assert seeds[..i + 1][0] == seeds[0] && seeds[..i + 1][1..] == rest[..i];
    }
    assert seeds[..0] == [];
    if RowsFit(s.tables[seeds[0].into].cols, seeds[0].rows) && ParentsFound(s, seeds[0]) && SeedsAccepted(next, rest) {
      forall i | 0 <= i < |seeds|
        ensures seeds[i].into in s.tables && RowsFit(s.tables[seeds[i].into].cols, seeds[i].rows)
        ensures var before := InsertedAll(s, seeds[..i]); seeds[i].into in before.tables && ParentsFound(before, seeds[i])
      {
        assert i > 0 ==> seeds[i] == rest[i - 1];
      }
    }
    if SeedsAccepted(s, seeds) {
      forall i | 0 <= i < |rest|
        ensures rest[i].into in next.tables && RowsFit(next.tables[rest[i].into].cols, rest[i].rows)
        ensures var before := InsertedAll(next, rest[..i]); rest[i].into in before.tables && ParentsFound(before, rest[i])
      {
        assert rest[i] == seeds[i + 1];
      }
    }
  }

  lemma {:induction false} SeedsRunIff(s: State, seeds: seq<Insert>)
    requires Lawful(s) && forall i :: 0 <= i < |seeds| ==> seeds[i].into in s.tables
    ensures RunInserts(s, seeds).Reached? <==> SeedsAccepted(s, seeds)
    decreases |seeds|
  {
    if seeds != [] {
      InsertRunsIff(s, seeds[0]);
      AcceptedCons(s, seeds);
      if RunInsert(s, seeds[0]).Reached? {
        InsertKeepsLawful(s, seeds[0]);
        assert forall i :: 0 <= i < |seeds[1..]| ==> seeds[1..][i] == seeds[i + 1];
        SeedsRunIff(RunInsert(s, seeds[0]).state, seeds[1..]);
      }
    }
  }

  /** The rows of every seed find their parents at its turn. */
  ghost predicate AllParentsFound(s: State, seeds: seq<Insert>) {
    forall i :: 0 <= i < |seeds| ==>
      var before := InsertedAll(s, seeds[..i]); seeds[i].into in before.tables ==> ParentsFound(before, seeds[i])
  }

  lemma {:induction false} InsertedKeys(s: State, seeds: seq<Insert>)
    ensures InsertedAll(s, seeds).tables.Keys == s.tables.Keys
    decreases |seeds|
  {
    if seeds != [] {
      InsertedKeys(if seeds[0].into in s.tables then WithRows(s, seeds[0].into, RowsAfter(s, seeds[0])) else s, seeds[1..]);
    }
  }

  lemma AcceptedIff(s: State, seeds: seq<Insert>)
    requires forall i :: 0 <= i < |seeds| ==> seeds[i].into in s.tables
    ensures SeedsAccepted(s, seeds) <==>
            (forall i :: 0 <= i < |seeds| ==> RowsFit(s.tables[seeds[i].into].cols, seeds[i].rows)) && AllParentsFound(s, seeds)
  {
    forall i | 0 <= i < |seeds|
      ensures InsertedAll(s, seeds[..i]).tables.Keys == s.tables.Keys
    {
      InsertedKeys(s, seeds[..i]);
    }
  }

  lemma IndexesIsLawful(s: State, p: Plan, tables: seq<TableDef>, ordered: seq<TableDef>)
    requires Lawful(s) && Generated(p, tables, ordered) && Fits(s, p)
    ensures Lawful(Indexes(s, p))
  {
    EquippedIsLawfulToo(s, p, tables, ordered);
    UpdatesKeepLawful(Equipped(s, p), p.backfills);
    PlainInAre(p.d, p.d.order);
    EquippedHasTables(s, p, tables, ordered);
    PlainKeepsLawful(Backfilled(s, p), p.d, PlainIn(p.d, p.d.order), tables);
  }

  lemma PlainKeys(s: State, d: Declared, names: seq<Name>, t: Name)
    requires forall n :: n in names ==> n in d.indexes && !d.indexes[n].unique
    ensures KeysOn(WithIndexes(s, d, Elems(names)), t) <= KeysOn(s, t)
  {
    var o := WithIndexes(s, d, Elems(names));
    assert forall n :: n in o.indexes && n !in s.indexes ==> !o.indexes[n].unique;
  }

  lemma PlainKeepsLawful(s: State, d: Declared, names: seq<Name>, tables: seq<TableDef>)
    requires Lawful(s) && Coherent(d, tables) && HasTables(s, d)
    requires forall n :: n in names ==> n in d.indexes && !d.indexes[n].unique
    ensures Lawful(WithIndexes(s, d, Elems(names)))
  {
    var o := WithIndexes(s, d, Elems(names));
    forall t ensures KeysOn(o, t) <= KeysOn(s, t) {
      PlainKeys(s, d, names, t);
    }
    forall n | n in o.indexes
      ensures IndexAnchored(s.tables, o.indexes[n])
    {
      assert n !in s.indexes ==> ColumnsFor(d, d.indexes[n].on).Keys <= s.tables[d.indexes[n].on].cols.Keys;
    }
    FewerKeysAreLawful(s, o);
  }

  lemma FewerKeysAreLawful(s: State, o: State)
    requires Lawful(s) && o.tables == s.tables && o.keys == s.keys && o.links == s.links && (forall n :: n in o.indexes ==> IndexAnchored(s.tables, o.indexes[n]))
    requires forall t :: KeysOn(o, t) <= KeysOn(s, t)
    ensures Lawful(o)
  {
  }

  /** For a deployed database: the upgrade goes through if and only if no declared update is refused, each
      missing table finds the keys it references, no missing unique index meets two rows with one key, no
      legacy NOT NULL column refuses a seed, and the rows the seeds add find their parents. */
  lemma UpgradeRunsIff(s: State, b: Database, seen: seq<Step>, ahead: seq<Step>, temps: set<Name>, p: Plan, tables: seq<TableDef>,
                       ordered: seq<TableDef>, dumps: seq<TableDump>)
    requires Outstanding(s, b, seen, ahead, temps) && PlanOf(p, seen + ahead, Run(b, ahead), dumps)
    requires Generated(p, tables, ordered) && Conform(Run(b, ahead), p.seeds)
    ensures ExecAll(s, ScriptOf(p, ordered)).Reached? <==>
            && Fits(s, p)
            && (forall i :: 0 <= i < |p.seeds| ==> !Refuses(Replay(s.tables, RenamesOf(ahead)), Run(b, ahead), p.seeds[i]))
            && AllParentsFound(Indexes(s, p), p.seeds)
  {
    ScriptRunsIff(s, p, tables, ordered);
    if Fits(s, p) {
      UpgradeSeedsRunIff(s, b, seen, ahead, temps, p, tables, ordered, dumps);
    }
  }

  lemma UpgradeSeedsRunIff(s: State, b: Database, seen: seq<Step>, ahead: seq<Step>, temps: set<Name>, p: Plan, tables: seq<TableDef>,
                           ordered: seq<TableDef>, dumps: seq<TableDump>)
    requires Outstanding(s, b, seen, ahead, temps) && PlanOf(p, seen + ahead, Run(b, ahead), dumps)
    requires Generated(p, tables, ordered) && Conform(Run(b, ahead), p.seeds) && Fits(s, p)
    ensures RunInserts(Indexes(s, p), p.seeds).Reached? <==>
            && (forall i :: 0 <= i < |p.seeds| ==> !Refuses(Replay(s.tables, RenamesOf(ahead)), Run(b, ahead), p.seeds[i]))
            && AllParentsFound(Indexes(s, p), p.seeds)
  {
    var x := Indexes(s, p);
    IndexesIsLawful(s, p, tables, ordered);
    IndexesCatalog(s, p);
    SeedColumnsFit(s, b, seen, ahead, temps, p, dumps, x);
    SeedsRunByPart(x, p.seeds);
  }

  lemma SeedsRunByPart(s: State, seeds: seq<Insert>)
    requires Lawful(s) && forall i :: 0 <= i < |seeds| ==> seeds[i].into in s.tables
    ensures RunInserts(s, seeds).Reached? <==>
            (forall i :: 0 <= i < |seeds| ==> RowsFit(s.tables[seeds[i].into].cols, seeds[i].rows)) && AllParentsFound(s, seeds)
  {
    SeedsRunIff(s, seeds);
    AcceptedIff(s, seeds);
  }

  lemma SeedColumnsFit(s: State, b: Database, seen: seq<Step>, ahead: seq<Step>, temps: set<Name>, p: Plan, dumps: seq<TableDump>, x: State)
    requires Outstanding(s, b, seen, ahead, temps) && PlanOf(p, seen + ahead, Run(b, ahead), dumps) && Conform(Run(b, ahead), p.seeds)
    requires x.tables.Keys == Readied(s, p).tables.Keys + p.d.cols.Keys
    requires forall t :: t in x.tables ==> x.tables[t].cols == if t in Readied(s, p).tables then Readied(s, p).tables[t].cols else ColumnsFor(p.d, t)
    ensures forall i :: 0 <= i < |p.seeds| ==>
              p.seeds[i].into in x.tables
              && (RowsFit(x.tables[p.seeds[i].into].cols, p.seeds[i].rows) <==> !Refuses(Replay(s.tables, RenamesOf(ahead)), Run(b, ahead), p.seeds[i]))
  {
    var final, r := Run(b, ahead), Readied(s, p).tables;
    var out := Converge(s.tables, RenamesOf(seen + ahead), dumps);
    Converges(s.tables, b, seen, ahead, temps, dumps);
    ReadiedTables(s, p, seen + ahead, final, dumps);
    forall i | 0 <= i < |p.seeds|
      ensures p.seeds[i].into in x.tables
      ensures RowsFit(x.tables[p.seeds[i].into].cols, p.seeds[i].rows) <==> !Refuses(Replay(s.tables, RenamesOf(ahead)), final, p.seeds[i])
    {
      SeedFitsIff(Replay(s.tables, RenamesOf(ahead)), final, out, p.seeds[i]);
      CreateMissingIsExact(r, dumps, p.seeds[i].into);
    }
  }

  /** A NOT NULL column that the chain dropped stops the seed of its table when it has no default. */
  lemma DroppedColumnRefuses(typ: string, kept: Column, row: Row, rows: seq<Row>)
    requires !kept.notNull
    ensures var legacy := Table(map["dropped" := Column(typ, Null, true), "kept" := kept], []);
            Refuses(map["t" := legacy], map["t" := Table(map["kept" := kept], [])], Insert("t", [row] + rows))
  {
    var e := Table(map["dropped" := Column(typ, Null, true), "kept" := kept], []);
    var ev, final := map["t" := e], map["t" := Table(map["kept" := kept], [])];
    assert RefusesAt(ev["t"], DeclaredIn(final, "t"), [row] + rows, "dropped");
  }
}
