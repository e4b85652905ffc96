/**
  The script on a live database, statement by statement: the parse of the renames,
  the DO blocks, the creates, the inserts, and the transaction around them.
 */
module Script {
  import opened Sequences
  import opened Catalog
  import opened Migrations
  import opened Tracking
  import opened Reconcile
  import opened Convergence
  import opened Storage
  import opened Repairs
  import opened Graph
  import opened TableOrder
  import opened Seeds
  import opened Emission
  import opened Ddl
  import opened Rendering
  import opened Upgrade
  import opened Again
  import opened Settling
  import opened RowsKept
  import opened Deployment

  /** `schema_evolution_ops`: two lists, each in registry order. */
  method SchemaEvolutionOps(chain: seq<Step>) returns (tableRenames: seq<Rename>, columnRenames: seq<Rename>)
    ensures tableRenames == TablesOf(RenamesOf(chain))
    ensures columnRenames == ColumnsOf(RenamesOf(chain))
  {
    tableRenames, columnRenames := [], [];
    for i := 0 to |chain|
      invariant tableRenames + TablesOf(RenamesOf(chain[i..])) == TablesOf(RenamesOf(chain))
      invariant columnRenames + ColumnsOf(RenamesOf(chain[i..])) == ColumnsOf(RenamesOf(chain))
    {
      var found := RenamesIn(chain[i]);
      OpsStep(chain, i);
      Regroup(tableRenames, TablesOf(found), TablesOf(RenamesOf(chain[i + 1..])));
      Regroup(columnRenames, ColumnsOf(found), ColumnsOf(RenamesOf(chain[i + 1..])));
      columnRenames := columnRenames + ColumnsOf(found);
      tableRenames := tableRenames + TablesOf(found);
    }
    assert chain[|chain|..] == [];
  }

  lemma OpsStep(chain: seq<Step>, i: nat)
    requires i < |chain|
    ensures TablesOf(RenamesOf(chain[i..])) == TablesOf(RenamesIn(chain[i])) + TablesOf(RenamesOf(chain[i + 1..]))
    ensures ColumnsOf(RenamesOf(chain[i..])) == ColumnsOf(RenamesIn(chain[i])) + ColumnsOf(RenamesOf(chain[i + 1..]))
  {
    assert chain[i..][1..] == chain[i + 1..];
    KindsAppend(RenamesIn(chain[i]), RenamesOf(chain[i + 1..]));
  }

  /** A database the script runs against. */
  class Server {
    var db: State

    constructor (initial: State)
      ensures db == initial
    {
      db := initial;
    }

    method RenameTable(src: Name, dst: Name)
      modifies this
      ensures db == ApplyTo(old(db), TableRename(src, dst))
    {
      if src in db.tables && dst !in db.tables {
        db := ApplyTo(db, TableRename(src, dst));
      }
    }

    method RenameColumnOf(tbl: Name, from: Name, to: Name)
      modifies this
      ensures db == ApplyTo(old(db), ColumnRename(tbl, from, to))
    {
      if tbl in db.tables && from in db.tables[tbl].cols && to !in db.tables[tbl].cols {
        db := ApplyTo(db, ColumnRename(tbl, from, to));
      }
    }

    /** The $oz_evolve$ block. */
    method RunEvolution(tableRenames: seq<Rename>, columnRenames: seq<Rename>)
      requires forall op :: op in tableRenames ==> op.TableRename?
      requires forall op :: op in columnRenames ==> op.ColumnRename?
      modifies this
      ensures db == ReplayOn(ReplayOn(old(db), tableRenames), columnRenames)
    {
      for i := 0 to |tableRenames|
        invariant ReplayOn(db, tableRenames[i..]) == ReplayOn(old(db), tableRenames)
      {
        assert tableRenames[i] in tableRenames && tableRenames[i..][1..] == tableRenames[i + 1..];
        RenameTable(tableRenames[i].src, tableRenames[i].dst);
      }
      assert tableRenames[|tableRenames|..] == [];
      ghost var moved := db;
      for i := 0 to |columnRenames|
        invariant ReplayOn(db, columnRenames[i..]) == ReplayOn(moved, columnRenames)
      {
        assert columnRenames[i] in columnRenames && columnRenames[i..][1..] == columnRenames[i + 1..];
        RenameColumnOf(columnRenames[i].tbl, columnRenames[i].from, columnRenames[i].to);
      }
      assert columnRenames[|columnRenames|..] == [];
    }

    /** The $oz_reconcile$ block; `warnings` are the columns it leaves nullable. */
    method RunReconciliation(specs: seq<Spec>) returns (warnings: seq<Spec>)
      modifies this
      ensures db == old(db).(tables := Reconciled(old(db.tables), specs))
      ensures warnings == Warnings(old(db.tables), specs)
    {
      var before, tables := db.tables, db.tables;
      warnings := [];
      for i := 0 to |specs|
        invariant Reconciled(tables, specs[i..]) == Reconciled(before, specs)
        invariant warnings + Warnings(tables, specs[i..]) == Warnings(before, specs)
        invariant db == old(db)
      {
        assert specs[i..][1..] == specs[i + 1..] && specs[i..][0] == specs[i];
        var warned;
        tables, warned := ReconcileColumn(tables, specs[i]);
        Regroup(warnings, warned, Warnings(tables, specs[i + 1..]));
        warnings := warnings + warned;
      }
      assert specs[|specs|..] == [];
      db := db.(tables := tables);
    }

    /** One turn of the block's loop. */
    static method ReconcileColumn(before: Database, r: Spec) returns (tables: Database, warned: seq<Spec>)
      ensures tables == ReconcileOne(before, r)
      ensures forall rest :: warned + Warnings(tables, rest) == Warnings(before, [r] + rest)
    {
      warned := [];
      tables := before;
      if r.tbl in tables && r.col !in tables[r.tbl].cols {
        tables := tables[r.tbl := WithColumn(tables[r.tbl], r.col, r.column.(notNull := false))];
      }
      if r.column.notNull && r.tbl in tables && r.col in tables[r.tbl].cols && !tables[r.tbl].cols[r.col].notNull {
        var nulls := NullCount(tables[r.tbl].rows, r.col);
        if nulls == 0 {
          tables := tables[r.tbl := SetNotNull(tables[r.tbl], r.col)];
        } else {
          warned := [r];
        }
      }
    }

    /** A DO block around one update: nothing happens where its table is missing. */
    method RunBlock(u: Update) returns (ok: bool)
      modifies this
      ensures ok <==> RunUpdate(old(db), u).Reached?
      ensures db == if ok then RunUpdate(old(db), u).state else old(db)
    {
      ok := true;
      if TableOf(u) in db.tables {
        ok := Runnable(u, db.tables);
        if ok {
          ok := Replace(TableOf(u), NewRows(u, db.tables));
        }
      }
    }

    /** Gives the table other rows, unless a NOT NULL column, a key or a foreign key forbids it. */
    method Replace(t: Name, rows: seq<Row>) returns (ok: bool)
      requires t in db.tables
      modifies this
      ensures ok <==> Storable(old(db), t, rows)
      ensures db == if ok then WithRows(old(db), t, rows) else old(db)
    {
      ok := Storable(db, t, rows);
      if ok {
        db := WithRows(db, t, rows);
      }
    }

    /** INSERT ... ON CONFLICT DO NOTHING: row by row, those that conflict are skipped. */
    method RunSeed(insert: Insert) returns (ok: bool)
      modifies this
      ensures ok <==> RunInsert(old(db), insert).Reached?
      ensures db == if ok then RunInsert(old(db), insert).state else old(db)
    {
      if insert.into !in db.tables || !RowsFit(db.tables[insert.into].cols, insert.rows) {
        return false;
      }
      var t, keys := db.tables[insert.into], KeysOn(db, insert.into);
      var rows := t.rows;
      ghost var added := StoredAll(t.cols, insert.rows);
      for i := 0 to |insert.rows|
        invariant Admit(keys, rows, added[i..]) == RowsAfter(db, insert)
      {
        var row := Stored(t.cols, insert.rows[i]);
        assert added[i..][0] == row && added[i..][1..] == added[i + 1..];
        if !Conflicts(keys, rows, row) {
          rows := rows + [row];
        }
      }
      assert added[|insert.rows|..] == [];
      ok := Replace(insert.into, rows);
    }

    method CreateIfMissing(t: Name, cols: Columns, keys: set<Key>, links: set<Link>) returns (ok: bool)
      modifies this
      ensures ok <==> RunCreate(old(db), t, cols, keys, links).Reached?
      ensures db == if ok then RunCreate(old(db), t, cols, keys, links).state else old(db)
    {
      ok := true;
      if t !in db.tables {
        ok := forall l :: l in links ==> Referencable(db, keys, l);
        if ok {
          db := State(db.tables[t := Table(cols, [])], db.keys[t := keys], db.indexes, db.links + links);
        }
      }
    }

    method BuildIfMissing(name: Name, x: Indexed) returns (ok: bool)
      modifies this
      ensures ok <==> RunIndex(old(db), name, x).Reached?
      ensures db == if ok then RunIndex(old(db), name, x).state else old(db)
    {
      ok := x.on in db.tables && Mentions(x.key) <= db.tables[x.on].cols.Keys;
      if ok && name !in db.indexes {
        ok := !(x.unique && Repeats(db.tables[x.on].rows, x.key));
        if ok {
          db := db.(indexes := db.indexes[name := x]);
        }
      }
    }

    method Execute(stmt: Statement) returns (ok: bool)
      requires stmt.Evolution? ==>
                 (forall op :: op in stmt.tableRenames ==> op.TableRename?) && forall op :: op in stmt.columnRenames ==> op.ColumnRename?
      modifies this
      ensures ok <==> RunStatement(old(db), stmt).Reached?
      ensures ok ==> db == RunStatement(old(db), stmt).state
    {
      ok := true;
      match stmt {
        case DropIndex(name) => db := db.(indexes := db.indexes - {name});
        case Evolution(tables, columns) => RunEvolution(tables, columns);
        case Reconciliation(specs) => var _ := RunReconciliation(specs);
        case Repair(update) => ok := RunBlock(update);
        case Create(t, cols, keys, links) => ok := CreateIfMissing(t.name, cols, keys, links);
        case BuildIndex(name, index) => ok := BuildIfMissing(name, index);
        case Trigger(_, on) => ok := on in db.tables;
        case Seed(insert) => ok := RunSeed(insert);
        case RowSecurity(tables) => ok := forall t :: t in tables ==> Secures(db, t);
      }
    }

    /** The script as one transaction: it goes through as a whole or changes nothing. */
    method RunScript(script: seq<Statement>) returns (ok: bool)
      requires forall stmt :: stmt in script && stmt.Evolution? ==>
                 (forall op :: op in stmt.tableRenames ==> op.TableRename?) && forall op :: op in stmt.columnRenames ==> op.ColumnRename?
      modifies this
      ensures ok <==> ExecAll(old(db), script).Reached?
      ensures db == if ok then ExecAll(old(db), script).state else old(db)
    {
      var before := db;
      for i := 0 to |script|
        invariant ExecAll(db, script[i..]) == ExecAll(old(db), script)
      {
        assert script[i..][0] == script[i] && script[i..][1..] == script[i + 1..] && script[i] in script;
        var done := Execute(script[i]);
        if !done {
          db := before;
          return false;
        }
      }
      assert script[|script|..] == [];
      ok := true;
    }

    /** Generates the script of the chain and runs it on a deployed database that was brought to its first `seen`
        steps.  It goes through exactly when nothing refuses it, and then ends with the database's tables, as the
        outstanding renames move them, merged with the declared schema; it loses no row and changes no cell but
        those the declared updates write. */
    method Deploy(chain: seq<Step>, dumps: seq<TableDump>, q: Plan, tables: seq<TableDef>, source: Data,
                  ghost b: Database, ghost seen: nat, ghost temps: set<Name>)
      returns (ok: bool, p: Plan, ordered: seq<TableDef>)
      requires seen <= |chain| && Outstanding(db, b, chain[..seen], chain[seen..], temps)
      requires PlanOf(q, chain, Run(b, chain[seen..]), dumps) && Dumped(q, tables) && Acyclic(DepsOf(tables)) && AllKnown(tables)
      requires forall t :: t in source ==> t in Run(b, chain[seen..]) && WellFormedTable(Table(Run(b, chain[seen..])[t].cols, source[t]))
      modifies this
      ensures Sorted(tables, ordered) && p == q.(seeds := SeedsFor(source, Names(ordered)))
      ensures ok <==>
              && Fits(old(db), p) && AllParentsFound(Indexes(old(db), p), p.seeds)
              && forall i :: 0 <= i < |p.seeds| ==> !Refuses(Replay(old(db.tables), RenamesOf(chain[seen..])), Run(b, chain[seen..]), p.seeds[i])
      ensures !ok ==> db == old(db)
      ensures ok ==> Upgraded(old(db), db, chain, seen, b, temps, dumps, p, ordered)
    {
      var script;
      script, ordered, p := Render(tables, source, q);
      RenamesByKind(q, chain, p, ordered);
      DeployRunsIff(db, chain, dumps, q, tables, source, p, ordered, b, seen, temps);
      ok := RunScript(script);
      if ok {
        DeployIsSound(old(db), db, chain, dumps, q, tables, p, ordered, b, seen, temps);
      }
    }
  }

  lemma OrderIsGenerated(q: Plan, tables: seq<TableDef>, p: Plan, ordered: seq<TableDef>)
    requires Dumped(q, tables) && Acyclic(DepsOf(tables)) && AllKnown(tables) && Sorted(tables, ordered) && p == q.(seeds := p.seeds)
    ensures Generated(p, tables, ordered)
  {
    OrderMeetsRefsIff(tables, ordered);
  }

  lemma DeployRunsIff(s: State, chain: seq<Step>, dumps: seq<TableDump>, q: Plan, tables: seq<TableDef>, source: Data, p: Plan,
                      ordered: seq<TableDef>, b: Database, seen: nat, temps: set<Name>)
    requires seen <= |chain| && Outstanding(s, b, chain[..seen], chain[seen..], temps)
    requires PlanOf(q, chain, Run(b, chain[seen..]), dumps) && Dumped(q, tables) && Acyclic(DepsOf(tables)) && AllKnown(tables)
    requires forall t :: t in source ==> t in Run(b, chain[seen..]) && WellFormedTable(Table(Run(b, chain[seen..])[t].cols, source[t]))
    requires Sorted(tables, ordered) && p == q.(seeds := SeedsFor(source, Names(ordered)))
    ensures ExecAll(s, ScriptOf(p, ordered)).Reached? <==>
            && Fits(s, p) && AllParentsFound(Indexes(s, p), p.seeds)
            && forall i :: 0 <= i < |p.seeds| ==> !Refuses(Replay(s.tables, RenamesOf(chain[seen..])), Run(b, chain[seen..]), p.seeds[i])
  {
    assert chain == chain[..seen] + chain[seen..];
    OrderIsGenerated(q, tables, p, ordered);
    SeedsConform(source, Names(ordered), Run(b, chain[seen..]));
    UpgradeRunsIff(s, b, chain[..seen], chain[seen..], temps, p, tables, ordered, dumps);
  }

  lemma DeployIsSound(s: State, once: State, chain: seq<Step>, dumps: seq<TableDump>, q: Plan, tables: seq<TableDef>, p: Plan,
                      ordered: seq<TableDef>, b: Database, seen: nat, temps: set<Name>)
    requires seen <= |chain| && Outstanding(s, b, chain[..seen], chain[seen..], temps)
    requires PlanOf(q, chain, Run(b, chain[seen..]), dumps) && Dumped(q, tables) && Acyclic(DepsOf(tables)) && AllKnown(tables)
    requires Sorted(tables, ordered) && p == q.(seeds := p.seeds) && ExecAll(s, ScriptOf(p, ordered)) == Reached(once)
    ensures Upgraded(s, once, chain, seen, b, temps, dumps, p, ordered)
  {
    assert chain == chain[..seen] + chain[seen..];
    OrderIsGenerated(q, tables, p, ordered);
    UpgradeIsSound(s, b, chain[..seen], chain[seen..], temps, p, tables, ordered, dumps, once);
  }

  /** What an upgrade that goes through makes of a database. */
  ghost predicate Upgraded(s: State, once: State, chain: seq<Step>, seen: nat, b: Database, temps: set<Name>, dumps: seq<TableDump>,
                           p: Plan, ordered: seq<TableDef>)
    requires seen <= |chain| && Runs(b, chain[seen..]) && forall d :: d in dumps ==> ListsItsColumns(d)
  {
    && Lawful(once) && Tracks(once.tables, Run(b, chain[seen..]), chain, temps)
    && (var out := Converge(s.tables, RenamesOf(chain), dumps);
        SameCatalog(once.tables, out) && Merged(Replay(s.tables, RenamesOf(chain[seen..])), Run(b, chain[seen..]), out))
    && NothingLostBut(s.tables, once.tables, Written(p.repairs + p.backfills))
    && (Apart(p) ==> (ExecAll(once, ScriptOf(p, ordered)) == Reached(once) <==> NullsKept(s, p) && AllKeyed(once, p.seeds)))
  }

  lemma RenamesByKind(q: Plan, chain: seq<Step>, p: Plan, ordered: seq<TableDef>)
    requires q.tableRenames == TablesOf(RenamesOf(chain)) && q.columnRenames == ColumnsOf(RenamesOf(chain))
    requires p == q.(seeds := p.seeds)
    ensures forall stmt :: stmt in ScriptOf(p, ordered) && stmt.Evolution? ==>
              (forall op :: op in stmt.tableRenames ==> op.TableRename?) && forall op :: op in stmt.columnRenames ==> op.ColumnRename?
  {
    KindsMember(RenamesOf(chain));
    forall stmt | stmt in ScriptOf(p, ordered) && stmt.Evolution?
      ensures stmt == Evolution(p.tableRenames, p.columnRenames)
    {
      OneEvolution(p, ordered, stmt);
    }
  }

  lemma OneEvolution(p: Plan, ordered: seq<TableDef>, stmt: Statement)
    requires stmt in ScriptOf(p, ordered) && stmt.Evolution?
    ensures stmt == Evolution(p.tableRenames, p.columnRenames)
  {
    NoEvolutionAmongTables(p.d, ordered);
    var plain := IndexStatements(p.d, PlainIn(p.d, p.d.order));
    var tail := Inserts(p.seeds) + [RowSecurity(p.secured)];
    assert forall s :: s in tail ==> !s.Evolution?;
    assert forall s :: s in plain ==> !s.Evolution?;
    assert forall s :: s in Triggers(p.triggers) ==> !s.Evolution?;
    assert forall s :: s in Post(p) ==> !s.Evolution?;
  }

  lemma {:induction false} NoEvolutionAmongTables(d: Declared, ordered: seq<TableDef>)
    ensures forall stmt :: stmt in TableSection(d, ordered) ==> !stmt.Evolution?
  {
    if ordered != [] {
      NoEvolutionAmongTables(d, ordered[1..]);
    }
  }

  /** The seeds are the rows of the dump. */
  lemma {:induction false} SeedsConform(source: Data, names: seq<Name>, final: Database)
    requires forall t :: t in source ==> t in final && WellFormedTable(Table(final[t].cols, source[t]))
    ensures Conform(final, SeedsFor(source, names))
  {
    if names != [] {
      SeedsConform(source, names[1..], final);
      var here := if RowsOf(source, names[0]) == [] then [] else [Insert(names[0], RowsOf(source, names[0]))];
      var all := SeedsFor(source, names);
      forall i | 0 <= i < |all|
        ensures all[i].into in final && WellFormedTable(Table(final[all[i].into].cols, all[i].rows))
      {
        assert i >= |here| ==> all[i] == SeedsFor(source, names[1..])[i - |here|];
      }
    }
  }
}
