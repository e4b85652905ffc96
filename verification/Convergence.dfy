/**
  The convergence script as a whole: evolve, reconcile, CREATE TABLE IF NOT
  EXISTS.  Run against a deployed database it ends with that database's tables,
  under their new names, merged with the declared schema; a second run changes
  nothing.
 */
module Convergence {
  import opened Catalog
  import opened Migrations
  import opened Tracking
  import opened RenameReplay
  import opened Reconcile

  /** One table of the final SQLite state, as PRAGMA table_info lists it. */
  datatype TableDump = TableDump(name: Name, cols: map<Name, Column>, order: seq<Name>)

  predicate ListsItsColumns(d: TableDump) {
    && (forall i :: 0 <= i < |d.order| ==> d.order[i] in d.cols)
    && (forall c :: c in d.cols ==> c in d.order)
  }

  function SpecsFrom(d: TableDump, i: nat): seq<Spec>
    requires ListsItsColumns(d) && i <= |d.order|
    decreases |d.order| - i
  {
    if i == |d.order| then [] else [Spec(d.name, d.order[i], d.cols[d.order[i]])] + SpecsFrom(d, i + 1)
  }

  /** `pg_column_specs`: the VALUES list, read from the same dump as the CREATE TABLE statements. */
  function SpecsOf(dumps: seq<TableDump>): seq<Spec>
    requires forall d :: d in dumps ==> ListsItsColumns(d)
  {
    if dumps == [] then [] else SpecsFrom(dumps[0], 0) + SpecsOf(dumps[1..])
  }

  /** CREATE TABLE IF NOT EXISTS */
  function CreateOne(db: Database, d: TableDump): Database {
    if d.name in db then db else db[d.name := Table(d.cols, [])]
  }

  function CreateMissing(db: Database, dumps: seq<TableDump>): Database
    decreases |dumps|
  {
    if dumps == [] then db else CreateMissing(CreateOne(db, dumps[0]), dumps[1..])
  }

  function Converge(db: Database, ops: seq<Rename>, dumps: seq<TableDump>): Database
    requires forall d :: d in dumps ==> ListsItsColumns(d)
  {
    CreateMissing(Reconciled(Evolve(db, ops), SpecsOf(dumps)), dumps)
  }

  /** `dumps` is the dump of `final`: each of its tables once, with exactly its columns. */
  ghost predicate IsDump(dumps: seq<TableDump>, final: Database) {
    && (forall d :: d in dumps ==> ListsItsColumns(d) && d.name in final && d.cols == final[d.name].cols)
    && (forall t :: t in final ==> exists d :: d in dumps && d.name == t)
  }

  lemma {:induction false} SpecsFromMember(d: TableDump, i: nat, s: Spec)
    requires ListsItsColumns(d) && i <= |d.order|
    ensures s in SpecsFrom(d, i) <==> exists k :: i <= k < |d.order| && s == Spec(d.name, d.order[k], d.cols[d.order[k]])
    decreases |d.order| - i
  {
    if i < |d.order| {
      SpecsFromMember(d, i + 1, s);
    }
  }

  lemma {:induction false} SpecsMember(dumps: seq<TableDump>, s: Spec)
    requires forall d :: d in dumps ==> ListsItsColumns(d)
    ensures s in SpecsOf(dumps) <==>
              exists d :: d in dumps && s.tbl == d.name && s.col in d.cols && s.column == d.cols[s.col]
  {
    if dumps != [] {
      var d := dumps[0];
      SpecsFromMember(d, 0, s);
      SpecsMember(dumps[1..], s);
      assert dumps == [d] + dumps[1..];
      if s.tbl == d.name && s.col in d.cols && s.column == d.cols[s.col] {
        var k :| 0 <= k < |d.order| && d.order[k] == s.col;
        assert s == Spec(d.name, d.order[k], d.cols[d.order[k]]);
      }
    }
  }

  lemma DumpDeclares(dumps: seq<TableDump>, final: Database, t: Name, c: Name)
    requires IsDump(dumps, final)
    ensures Declares(SpecsOf(dumps), t, c) <==> t in final && c in final[t].cols
    ensures forall s :: s in SpecsOf(dumps) ==> s.tbl in final && s.col in final[s.tbl].cols && s.column == final[s.tbl].cols[s.col]
    ensures DeclaresNotNull(SpecsOf(dumps), t, c) <==> t in final && c in final[t].cols && final[t].cols[c].notNull
  {
    forall s | s in SpecsOf(dumps)
      ensures s.tbl in final && s.col in final[s.tbl].cols && s.column == final[s.tbl].cols[s.col]
    {
      SpecsMember(dumps, s);
    }
    if t in final && c in final[t].cols {
      var d :| d in dumps && d.name == t;
      var s := Spec(t, c, final[t].cols[c]);
      SpecsMember(dumps, s);
    }
  }

  lemma {:induction false} CreateMissingIsExact(db: Database, dumps: seq<TableDump>, t: Name)
    ensures var out := CreateMissing(db, dumps);
            && (t in out <==> t in db || exists d :: d in dumps && d.name == t)
            && (t in db ==> out[t] == db[t])
            && (t in out && t !in db ==> exists d :: d in dumps && d.name == t && out[t] == Table(d.cols, []))
    decreases |dumps|
  {
    if dumps != [] {
      CreateMissingIsExact(CreateOne(db, dumps[0]), dumps[1..], t);
      assert dumps == [dumps[0]] + dumps[1..];
    }
  }

  // ---------- merging a database with the declared schema ----------

  function DeclaredIn(final: Database, t: Name): map<Name, Column> {
    if t in final then final[t].cols else map[]
  }

  /** `o` is `e` with the declared columns added and the flags raised that its rows allow. */
  ghost predicate MergedTable(e: Table, declared: map<Name, Column>, o: Table) {
    && KeepsCells(e, o)
    && o.cols.Keys == e.cols.Keys + declared.Keys
    && (forall c :: c in declared && c !in e.cols ==>
          o.cols[c].typ == declared[c].typ && o.cols[c].fill == declared[c].fill)
    && (forall c :: c in o.cols ==>
          (o.cols[c].notNull <==>
             (c in e.cols && e.cols[c].notNull) || (c in declared && declared[c].notNull && !HasNull(o, c))))
  }

  /** `out` has the tables of `ev`, merged, and the other declared tables, empty. */
  ghost predicate Merged(ev: Database, final: Database, out: Database) {
    && out.Keys == ev.Keys + final.Keys
    && (forall t :: t in ev ==> MergedTable(ev[t], DeclaredIn(final, t), out[t]))
    && (forall t :: t in final && t !in ev ==> out[t] == Table(final[t].cols, []))
  }

  /** Reconciliation, seen from one column. */
  lemma ColumnMerges(ev: Database, final: Database, dumps: seq<TableDump>, t: Name, c: Name)
    requires WellFormed(ev) && IsDump(dumps, final) && t in ev
    ensures t in Reconciled(ev, SpecsOf(dumps))
    ensures var e, o, declared := ev[t], Reconciled(ev, SpecsOf(dumps))[t], DeclaredIn(final, t);
            && (c in o.cols <==> c in e.cols || c in declared)
            && (c in o.cols ==>
                  (o.cols[c].notNull <==> (c in e.cols && e.cols[c].notNull) || (c in declared && declared[c].notNull && !HasNull(o, c))))
            && (c in declared && c !in e.cols ==> o.cols[c].typ == declared[c].typ && o.cols[c].fill == declared[c].fill)
  {
    var specs := SpecsOf(dumps);
    DumpDeclares(dumps, final, t, c);
    ReconcileIsExact(ev, specs, t, c);
    if c in DeclaredIn(final, t) && c !in ev[t].cols {
      var s := AddedColumnIsDeclared(ev, specs, t, c);
    }
  }

  lemma TableMerges(ev: Database, final: Database, dumps: seq<TableDump>, t: Name)
    requires WellFormed(ev) && IsDump(dumps, final) && t in ev
    ensures t in Reconciled(ev, SpecsOf(dumps))
    ensures MergedTable(ev[t], DeclaredIn(final, t), Reconciled(ev, SpecsOf(dumps))[t])
  {
    ReconcileKeeps(ev, SpecsOf(dumps));
    var e, o, declared := ev[t], Reconciled(ev, SpecsOf(dumps))[t], DeclaredIn(final, t);
    forall c
      ensures c in o.cols <==> c in e.cols || c in declared
      ensures c in o.cols ==>
                (o.cols[c].notNull <==> (c in e.cols && e.cols[c].notNull) || (c in declared && declared[c].notNull && !HasNull(o, c)))
      ensures c in declared && c !in e.cols ==> o.cols[c].typ == declared[c].typ && o.cols[c].fill == declared[c].fill
    {
      ColumnMerges(ev, final, dumps, t, c);
    }
  }

  /** CREATE TABLE IF NOT EXISTS adds the declared tables that are missing, empty. */
  lemma CreatesTheRest(rc: Database, final: Database, dumps: seq<TableDump>)
    requires IsDump(dumps, final)
    ensures var out := CreateMissing(rc, dumps);
            && out.Keys == rc.Keys + final.Keys
            && (forall t :: t in rc ==> out[t] == rc[t])
            && (forall t :: t in final && t !in rc ==> out[t] == Table(final[t].cols, []))
  {
    var out := CreateMissing(rc, dumps);
    forall t
      ensures t in out <==> t in rc || t in final
      ensures t in rc ==> t in out && out[t] == rc[t]
      ensures t in final && t !in rc ==> t in out && out[t] == Table(final[t].cols, [])
    {
      CreateMissingIsExact(rc, dumps, t);
    }
  }

  /** What reconciliation and guarded creation make of any evolved database. */
  lemma ConvergeMerges(ev: Database, final: Database, dumps: seq<TableDump>)
    requires WellFormed(ev) && IsDump(dumps, final)
    ensures var out := CreateMissing(Reconciled(ev, SpecsOf(dumps)), dumps);
            Merged(ev, final, out) && WellFormed(out)
  {
    var rc := Reconciled(ev, SpecsOf(dumps));
    ReconcileKeeps(ev, SpecsOf(dumps));
    CreatesTheRest(rc, final, dumps);
    forall t | t in ev
      ensures MergedTable(ev[t], DeclaredIn(final, t), rc[t])
    {
      TableMerges(ev, final, dumps, t);
    }
  }

  // ---------- when the merged schema is the declared one ----------

  /** `out` has the tables and columns of `final`; a declared NOT NULL column is NOT NULL unless
      some legacy row holds a NULL in it. */
  ghost predicate SchemaReached(out: Database, final: Database) {
    && out.Keys == final.Keys
    && (forall t :: t in final ==>
          && out[t].cols.Keys == final[t].cols.Keys
          && (forall c :: c in final[t].cols ==>
                && out[t].cols[c].typ == final[t].cols[c].typ
                && (final[t].cols[c].notNull ==> out[t].cols[c].notNull || HasNull(out[t], c))))
  }

  /** Every table and column of `a` is in `b`, with the same type. */
  ghost predicate SubSchema(a: Database, b: Database) {
    forall t :: t in a ==>
      t in b && forall c :: c in a[t].cols ==> c in b[t].cols && a[t].cols[c].typ == b[t].cols[c].typ
  }

  /** The script reaches the declared schema exactly when that schema declares, with the same type,
      every table and column the database has under its new names. */
  lemma ReachedIff(ev: Database, final: Database, out: Database)
    requires Merged(ev, final, out)
    ensures SchemaReached(out, final) <==> SubSchema(ev, final)
  {
    if SubSchema(ev, final) {
      assert out.Keys == final.Keys;
      forall t | t in final
        ensures out[t].cols.Keys == final[t].cols.Keys
        ensures forall c :: c in final[t].cols ==>
                  && out[t].cols[c].typ == final[t].cols[c].typ
                  && (final[t].cols[c].notNull ==> out[t].cols[c].notNull || HasNull(out[t], c))
      {
        if t in ev { assert MergedTable(ev[t], final[t].cols, out[t]); }
      }
    }
    if SchemaReached(out, final) {
      forall t | t in ev
        ensures t in final && forall c :: c in ev[t].cols ==> c in final[t].cols && ev[t].cols[c].typ == final[t].cols[c].typ
      {
        assert t in out && MergedTable(ev[t], DeclaredIn(final, t), out[t]);
      }
    }
  }

  // ---------- one upgrade ----------

  /** Merging keeps a database on the track of the chain. */
  lemma MergedTracks(ev: Database, final: Database, past: seq<Step>, temps: set<Name>, out: Database)
    requires Tracks(ev, final, past, temps) && Merged(ev, final, out)
    ensures Tracks(out, final, past, temps)
  {
    forall s | s in past
      ensures Gone(out, s)
    {
      assert Gone(ev, s) && Gone(final, s);
      if s.Move? && s.op.ColumnRename? && s.op.tbl in ev {
        assert MergedTable(ev[s.op.tbl], DeclaredIn(final, s.op.tbl), out[s.op.tbl]);
      }
    }
    forall t, c | t in out && t in final && c in out[t].cols && c !in final[t].cols
      ensures Dropped(Marks({}, past), t, c)
    {
      if t in ev { assert MergedTable(ev[t], final[t].cols, out[t]); }
    }
  }

  /** From any deployed database: the script ends with its tables, as the outstanding renames move
      them, merged with the declared schema.  What it has beyond that schema is exactly what the
      database already had. */
  lemma Converges(db: Database, b: Database, seen: seq<Step>, ahead: seq<Step>, temps: set<Name>, dumps: seq<TableDump>)
    requires Tracks(db, b, seen, temps) && WellFormed(db)
    requires Runs(b, ahead) && Disciplined(seen + ahead, temps) && IsDump(dumps, Run(b, ahead))
    ensures var moved, final := Replay(db, RenamesOf(ahead)), Run(b, ahead);
            var out := Converge(db, RenamesOf(seen + ahead), dumps);
            && Merged(moved, final, out) && WellFormed(out)
            && Tracks(out, final, seen + ahead, temps)
            && (SchemaReached(out, final) <==> SubSchema(moved, final))
  {
    var moved, final := Replay(db, RenamesOf(ahead)), Run(b, ahead);
    var out := Converge(db, RenamesOf(seen + ahead), dumps);
    ReplayCompletes(db, b, seen, ahead, temps);
    TracksAhead(db, b, seen, ahead, temps);
    ReplayKeepsWellFormed(db, RenamesOf(ahead));
    ConvergeMerges(moved, final, dumps);
    MergedTracks(moved, final, seen + ahead, temps, out);
    ReachedIff(moved, final, out);
  }

  /** In particular on a database that is at a prefix of the chain. */
  lemma ConvergesFromAnyPrefix(db0: Database, seen: seq<Step>, ahead: seq<Step>, temps: set<Name>, dumps: seq<TableDump>)
    requires Runs(db0, seen + ahead) && Disciplined(seen + ahead, temps) && db0.Keys !! temps
    requires IsDump(dumps, Run(db0, seen + ahead))
    requires Runs(db0, seen) && WellFormed(Run(db0, seen))
    ensures var moved, final := Replay(Run(db0, seen), RenamesOf(ahead)), Run(db0, seen + ahead);
            var out := Converge(Run(db0, seen), RenamesOf(seen + ahead), dumps);
            Merged(moved, final, out) && WellFormed(out) && (SchemaReached(out, final) <==> SubSchema(moved, final))
  {
    var db := Run(db0, seen);
    RunAppend(db0, seen, ahead);
    DisciplineSplits(seen, ahead, temps);
    PrefixTracks(db0, seen, temps);
    Converges(db, db, seen, ahead, temps, dumps);
  }

  // ---------- a second run ----------

  /** On a converged database no rename of the chain finds its source. */
  lemma TrackedIsSilent(out: Database, final: Database, chain: seq<Step>, temps: set<Name>)
    requires Tracks(out, final, chain, temps) && UsesTemps(chain, temps)
    ensures Evolve(out, RenamesOf(chain)) == out
  {
    var ops := RenamesOf(chain);
    KindsMember(ops);
    forall op | op in ops
      ensures !Fires(out, op)
    {
      SeenRenameIsSilent(out, chain, op, temps);
    }
    ReplayNothingFires(out, TablesOf(ops));
    ReplayNothingFires(out, ColumnsOf(ops));
  }

  lemma {:induction false} CreateMissingFixed(db: Database, dumps: seq<TableDump>)
    requires forall d :: d in dumps ==> d.name in db
    ensures CreateMissing(db, dumps) == db
    decreases |dumps|
  {
    if dumps != [] {
      assert dumps[0] in dumps;
      CreateMissingFixed(db, dumps[1..]);
    }
  }

  lemma MergedIsSettled(ev: Database, final: Database, out: Database, dumps: seq<TableDump>)
    requires Merged(ev, final, out) && IsDump(dumps, final)
    ensures forall s :: s in SpecsOf(dumps) ==> Settled(out, s)
  {
    forall s | s in SpecsOf(dumps)
      ensures Settled(out, s)
    {
      DumpDeclares(dumps, final, s.tbl, s.col);
      if s.tbl in ev { assert MergedTable(ev[s.tbl], final[s.tbl].cols, out[s.tbl]); }
    }
  }

  /** The second run of the script changes no table, column, flag or row. */
  lemma ConvergeIsIdempotent(db: Database, b: Database, seen: seq<Step>, ahead: seq<Step>, temps: set<Name>, dumps: seq<TableDump>)
    requires Tracks(db, b, seen, temps) && WellFormed(db)
    requires Runs(b, ahead) && Disciplined(seen + ahead, temps) && IsDump(dumps, Run(b, ahead))
    ensures var ops := RenamesOf(seen + ahead);
            var once := Converge(db, ops, dumps);
            Converge(once, ops, dumps) == once
  {
    var final, once := Run(b, ahead), Converge(db, RenamesOf(seen + ahead), dumps);
    Converges(db, b, seen, ahead, temps, dumps);
    TrackedIsSilent(once, final, seen + ahead, temps);
    MergedIsSettled(Replay(db, RenamesOf(ahead)), final, once, dumps);
    SettledIsFixed(once, SpecsOf(dumps));
    CreateMissingFixed(once, dumps);
  }

  /** On an empty database the first two parts do nothing, and the script creates the final schema. */
  lemma FreshDatabase(ops: seq<Rename>, dumps: seq<TableDump>, final: Database)
    requires IsDump(dumps, final)
    ensures Evolve(map[], ops) == map[] && Reconciled(map[], SpecsOf(dumps)) == map[]
    ensures Converge(map[], ops, dumps) == map t | t in final :: Table(final[t].cols, [])
  {
    EmptyIsSilent(ops, dumps);
    var out, created := Converge(map[], ops, dumps), map t | t in final :: Table(final[t].cols, []);
    forall t
      ensures t in out <==> t in created
      ensures t in out ==> out[t] == created[t]
    {
      CreateMissingIsExact(map[], dumps, t);
    }
    assert out == created;
  }

  lemma EmptyIsSilent(ops: seq<Rename>, dumps: seq<TableDump>)
    requires forall d :: d in dumps ==> ListsItsColumns(d)
    ensures Evolve(map[], ops) == map[] && Reconciled(map[], SpecsOf(dumps)) == map[]
  {
    var empty: Database := map[];
    ReplayNothingFires(empty, TablesOf(ops));
    ReplayNothingFires(empty, ColumnsOf(ops));
    SettledIsFixed(empty, SpecsOf(dumps));
  }
}
