/**
  Where one pass of guarded renames is not a fixed point, not a no-op on a
  converged database, or not row-preserving: the exact conditions, and the inputs
  that meet them.
 */
module RenameLimits {
  import opened Catalog
  import opened Migrations
  import opened RenameReplay
  import opened Reconcile
  import opened Convergence

  /** Table renames in which each name is left once, taken once, and never taken back. */
  ghost predicate OneWay(ops: seq<Rename>) {
    ops == []
    || (&& ops[0].TableRename? && ops[0].src != ops[0].dst
        && (forall op :: op in ops[1..] ==>
              op.TableRename? && op.src != ops[0].src && op.dst != ops[0].src && op.dst != ops[0].dst)
        && OneWay(ops[1..]))
  }

  /** The names a table called `x` would take one after the other if nothing were in its way. */
  function Lineage(ops: seq<Rename>, x: Name): set<Name> {
    if ops == [] then {}
    else if ops[0].TableRename? && ops[0].src == x then {ops[0].dst} + Lineage(ops[1..], ops[0].dst)
    else Lineage(ops[1..], x)
  }

  /** Two tables of one lineage are both present, and the one in front still has somewhere to go. */
  ghost predicate Jammed(db: Database, ops: seq<Rename>) {
    exists x, op :: x in db && op in ops && op.TableRename? && op.src in db && op.src in Lineage(ops, x) && op.dst !in db
  }

  ghost predicate SomethingFires(db: Database, ops: seq<Rename>) {
    exists op :: op in ops && Fires(db, op)
  }

  lemma {:induction false} LineageTakesTargets(ops: seq<Rename>, x: Name, y: Name)
    requires y in Lineage(ops, x)
    ensures exists op :: op in ops && op.TableRename? && op.dst == y
  {
    if ops[0].TableRename? && ops[0].src == x {
      if y == ops[0].dst {
        assert ops[0] in ops;
      } else {
        LineageTakesTargets(ops[1..], ops[0].dst, y);
      }
    } else {
      LineageTakesTargets(ops[1..], x, y);
    }
  }

  lemma {:induction false} StaysAbsent(db: Database, ops: seq<Rename>, n: Name)
    requires OneWay(ops) && n !in db && forall op :: op in ops ==> op.dst != n
    ensures n !in Replay(db, ops)
    decreases |ops|
  {
    if ops != [] {
      assert ops[0] in ops;
      StaysAbsent(Apply(db, ops[0]), ops[1..], n);
    }
  }

  lemma {:induction false} StaysPresent(db: Database, ops: seq<Rename>, n: Name)
    requires OneWay(ops) && n in db && forall op :: op in ops ==> op.src != n
    ensures n in Replay(db, ops)
    decreases |ops|
  {
    if ops != [] {
      assert ops[0] in ops;
      StaysPresent(Apply(db, ops[0]), ops[1..], n);
    }
  }

  /** A table no rename targets leaves its name exactly when its rename finds the new name free. */
  lemma {:induction false} LeavesIffFree(db: Database, ops: seq<Rename>, n: Name)
    requires OneWay(ops) && n in db && forall op :: op in ops ==> op.dst != n
    ensures n !in Replay(db, ops) <==> exists op :: op in ops && op.src == n && op.dst !in db
    decreases |ops|
  {
    if ops != [] {
      var op, rest, next := ops[0], ops[1..], Apply(db, ops[0]);
      assert ops == [op] + rest && op in ops;
      if op.src == n {
        if op.dst in db {
          StaysPresent(next, rest, n);
        } else {
          StaysAbsent(next, rest, n);
        }
      } else {
        LeavesIffFree(next, rest, n);
        assert forall o :: o in rest ==> (o.dst in next <==> o.dst in db);
      }
    }
  }

  lemma JamSkipsFiredHead(db: Database, ops: seq<Rename>)
    requires ops != [] && OneWay(ops) && Fires(db, ops[0])
    ensures Jammed(db, ops) <==> Jammed(Apply(db, ops[0]), ops[1..])
  {
    if Jammed(db, ops) { JamOutlivesFiredHead(db, ops); }
    if Jammed(Apply(db, ops[0]), ops[1..]) { JamPrecedesFiredHead(db, ops); }
  }

  lemma JamOutlivesFiredHead(db: Database, ops: seq<Rename>)
    requires ops != [] && OneWay(ops) && Fires(db, ops[0]) && Jammed(db, ops)
    ensures Jammed(Apply(db, ops[0]), ops[1..])
  {
    var a, b, rest, next := ops[0].src, ops[0].dst, ops[1..], Apply(db, ops[0]);
    assert ops == [ops[0]] + rest;
    var x, op :| x in db && op in ops && op.TableRename? && op.src in db && op.src in Lineage(ops, x) && op.dst !in db;
    LineageTakesTargets(ops, x, op.src);
    assert op in rest;
    var x' := if x == a then b else x;
    assert x' in next && op.src in Lineage(rest, x');
  }

  lemma JamPrecedesFiredHead(db: Database, ops: seq<Rename>)
    requires ops != [] && OneWay(ops) && Fires(db, ops[0]) && Jammed(Apply(db, ops[0]), ops[1..])
    ensures Jammed(db, ops)
  {
    var a, b, rest, next := ops[0].src, ops[0].dst, ops[1..], Apply(db, ops[0]);
    assert ops == [ops[0]] + rest;
    var x, op :| x in next && op in rest && op.TableRename? && op.src in next && op.src in Lineage(rest, x) && op.dst !in next;
    LineageTakesTargets(rest, x, op.src);
    var x' := if x == b then a else x;
    assert x' in db && op in ops && op.src in Lineage(ops, x');
  }

  lemma JamSkipsAbsentHead(db: Database, ops: seq<Rename>)
    requires ops != [] && OneWay(ops) && ops[0].src !in db
    ensures Jammed(db, ops) <==> Jammed(db, ops[1..])
  {
    assert ops == [ops[0]] + ops[1..];
    if Jammed(db, ops) {
      var x, op :| x in db && op in ops && op.TableRename? && op.src in db && op.src in Lineage(ops, x) && op.dst !in db;
      assert op in ops[1..] && op.src in Lineage(ops[1..], x);
    }
    if Jammed(db, ops[1..]) {
      var x, op :| x in db && op in ops[1..] && op.TableRename? && op.src in db && op.src in Lineage(ops[1..], x) && op.dst !in db;
      assert op in ops && op.src in Lineage(ops, x);
    }
  }

  lemma JamAtBlockedHead(db: Database, ops: seq<Rename>)
    requires ops != [] && OneWay(ops) && ops[0].src in db && ops[0].dst in db
    ensures Jammed(db, ops) <==>
              Jammed(db, ops[1..]) || exists op :: op in ops[1..] && op.src == ops[0].dst && op.dst !in db
  {
    var a, b, rest := ops[0].src, ops[0].dst, ops[1..];
    assert ops == [ops[0]] + rest;
    if Jammed(db, ops) {
      var x, op :| x in db && op in ops && op.TableRename? && op.src in db && op.src in Lineage(ops, x) && op.dst !in db;
      assert op in rest;
      if op.src != b {
        var x' := if x == a then b else x;
        assert op.src in Lineage(rest, x');
      }
    }
    if Jammed(db, rest) {
      var x, op :| x in db && op in rest && op.TableRename? && op.src in db && op.src in Lineage(rest, x) && op.dst !in db;
      LineageTakesTargets(rest, x, op.src);
      if x == a { AloneHasNoLineage(rest, a); }
      assert op in ops && op.src in Lineage(ops, x);
    }
    if exists op :: op in rest && op.src == b && op.dst !in db {
      var op :| op in rest && op.src == b && op.dst !in db;
      assert op in ops && b in Lineage(ops, a);
    }
  }

  lemma {:induction false} AloneHasNoLineage(ops: seq<Rename>, x: Name)
    requires OneWay(ops) && forall op :: op in ops ==> op.src != x
    ensures Lineage(ops, x) == {}
  {
    if ops != [] {
      assert ops[0] in ops;
      AloneHasNoLineage(ops[1..], x);
    }
  }

  lemma {:induction false} FiresAfterIffJammed(db: Database, ops: seq<Rename>)
    requires OneWay(ops)
    ensures SomethingFires(Replay(db, ops), ops) <==> Jammed(db, ops)
    decreases |ops|
  {
    if ops != [] {
      var a, b, rest, next := ops[0].src, ops[0].dst, ops[1..], Apply(db, ops[0]);
      var out := Replay(next, rest);
      assert ops == [ops[0]] + rest;
      FiresAfterIffJammed(next, rest);
      assert SomethingFires(out, ops) <==> Fires(out, ops[0]) || SomethingFires(out, rest);
      if Fires(db, ops[0]) {
        StaysAbsent(next, rest, a);
        JamSkipsFiredHead(db, ops);
      } else if a !in db {
        StaysAbsent(next, rest, a);
        JamSkipsAbsentHead(db, ops);
      } else {
        StaysPresent(next, rest, a);
        LeavesIffFree(next, rest, b);
        JamAtBlockedHead(db, ops);
      }
    }
  }

  lemma {:induction false} FiringMoves(db: Database, ops: seq<Rename>)
    requires OneWay(ops) && SomethingFires(db, ops)
    ensures Replay(db, ops).Keys != db.Keys
    decreases |ops|
  {
    var rest, next := ops[1..], Apply(db, ops[0]);
    assert ops == [ops[0]] + rest;
    if Fires(db, ops[0]) {
      StaysAbsent(next, rest, ops[0].src);
      assert ops[0].src in db;
    } else {
      assert next == db;
      FiringMoves(next, rest);
    }
  }

  // ---------- rebuilds among the renames ----------

  /** The list without the renames of rebuilds, whose source never exists when the script runs. */
  function Effective(ops: seq<Rename>, temps: set<Name>): seq<Rename> {
    if ops == [] then []
    else (if ops[0].TableRename? && ops[0].src in temps then [] else [ops[0]]) + Effective(ops[1..], temps)
  }

  lemma {:induction false} RebuildsAreInert(db: Database, ops: seq<Rename>, temps: set<Name>)
    requires TableRenames(ops, temps) && db.Keys !! temps
    ensures Replay(db, ops) == Replay(db, Effective(ops, temps)) && Replay(db, ops).Keys !! temps
    ensures forall op :: op in Effective(ops, temps) <==> op in ops && op.src !in temps
    decreases |ops|
  {
    if ops != [] {
      var op, rest := ops[0], ops[1..];
      assert ops == [op] + rest && op in ops;
      RebuildsAreInert(Apply(db, op), rest, temps);
      if op.src !in temps {
        assert ([op] + Effective(rest, temps))[1..] == Effective(rest, temps);
      } else {
        assert [] + Effective(rest, temps) == Effective(rest, temps);
      }
    }
  }

  /** One pass of the table renames is a fixed point exactly when the database is not jammed. */
  lemma FixedPointIffNotJammed(db: Database, ops: seq<Rename>, temps: set<Name>)
    requires TableRenames(ops, temps) && db.Keys !! temps && OneWay(Effective(ops, temps))
    ensures Replay(Replay(db, ops), ops) == Replay(db, ops) <==> !Jammed(db, Effective(ops, temps))
  {
    var some := Effective(ops, temps);
    var out := Replay(db, some);
    RebuildsAreInert(db, ops, temps);
    RebuildsAreInert(out, ops, temps);
    FiresAfterIffJammed(db, some);
    if SomethingFires(out, some) {
      FiringMoves(out, some);
    } else {
      ReplayNothingFires(out, some);
    }
  }

  // ---------- when the pass leaves a database alone ----------

  /** No column is renamed back to a name that was left. */
  ghost predicate ColumnsOneWay(cols: seq<Rename>) {
    cols == []
    || (&& cols[0].ColumnRename? && cols[0].from != cols[0].to
        && (forall op :: op in cols[1..] ==> op.ColumnRename? && (op.tbl == cols[0].tbl ==> op.to != cols[0].from))
        && ColumnsOneWay(cols[1..]))
  }

  lemma {:induction false} ColumnStaysAbsent(db: Database, cols: seq<Rename>, t: Name, f: Name)
    requires t in db && f !in db[t].cols
    requires forall op :: op in cols ==> op.ColumnRename? && (op.tbl == t ==> op.to != f)
    ensures t in Replay(db, cols) && f !in Replay(db, cols)[t].cols
    decreases |cols|
  {
    if cols != [] {
      assert cols[0] in cols;
      ColumnStaysAbsent(Apply(db, cols[0]), cols[1..], t, f);
    }
  }

  lemma {:induction false} ColumnsKeepTables(db: Database, cols: seq<Rename>)
    requires forall op :: op in cols ==> op.ColumnRename?
    ensures Replay(db, cols).Keys == db.Keys
    ensures forall t :: t in db && (forall op :: op in cols ==> op.tbl != t) ==> Replay(db, cols)[t] == db[t]
    decreases |cols|
  {
    if cols != [] {
      assert cols[0] in cols && cols == [cols[0]] + cols[1..];
      ColumnsKeepTables(Apply(db, cols[0]), cols[1..]);
    }
  }

  lemma {:induction false} ColumnFiringMoves(db: Database, cols: seq<Rename>)
    requires ColumnsOneWay(cols) && SomethingFires(db, cols)
    ensures Replay(db, cols) != db
    decreases |cols|
  {
    var op, rest := cols[0], cols[1..];
    assert cols == [op] + rest;
    if Fires(db, op) {
      ColumnStaysAbsent(Apply(db, op), rest, op.tbl, op.from);
    } else {
      ColumnFiringMoves(Apply(db, op), rest);
    }
  }

  /** The pass leaves a database alone exactly when none of its renames fires there. */
  lemma NoOpIffSilent(db: Database, ops: seq<Rename>, temps: set<Name>)
    requires db.Keys !! temps && TableRenames(TablesOf(ops), temps)
    requires OneWay(Effective(TablesOf(ops), temps)) && ColumnsOneWay(ColumnsOf(ops))
    ensures Evolve(db, ops) == db <==> !SomethingFires(db, ops)
  {
    var tables, cols := TablesOf(ops), ColumnsOf(ops);
    var some := Effective(tables, temps);
    KindsMember(ops);
    RebuildsAreInert(db, tables, temps);
    ColumnsKeepTables(Replay(db, tables), cols);
    if SomethingFires(db, some) {
      FiringMoves(db, some);
      var op :| op in some && Fires(db, op);
      assert op in ops;
    } else {
      ReplayNothingFires(db, some);
      if SomethingFires(db, cols) {
        ColumnFiringMoves(db, cols);
      } else {
        ReplayNothingFires(db, cols);
      }
      SilentByKind(db, ops, some, cols);
    }
  }

  lemma SilentByKind(db: Database, ops: seq<Rename>, some: seq<Rename>, cols: seq<Rename>)
    requires forall op :: op in cols <==> op in ops && op.ColumnRename?
    requires forall op :: op in ops && op.TableRename? && op !in some ==> op.src !in db
    requires !SomethingFires(db, some)
    ensures SomethingFires(db, ops) <==> SomethingFires(db, cols)
  {
    if SomethingFires(db, cols) {
      var op :| op in cols && Fires(db, op);
      assert op in ops;
    }
  }

  /** On a converged database the pass is a no-op exactly when the declared schema offers no rename its
      source without its target. */
  lemma ConvergedIsSilentIff(out: Database, final: Database, ops: seq<Rename>, temps: set<Name>)
    requires SchemaReached(out, final) && out.Keys !! temps && TableRenames(TablesOf(ops), temps)
    requires OneWay(Effective(TablesOf(ops), temps)) && ColumnsOneWay(ColumnsOf(ops))
    ensures Evolve(out, ops) == out <==> forall op :: op in ops ==> !Fires(final, op)
  {
    NoOpIffSilent(out, ops, temps);
    forall op
      ensures Fires(out, op) <==> Fires(final, op)
    {
      if op.ColumnRename? && op.tbl in final {
        assert out[op.tbl].cols.Keys == final[op.tbl].cols.Keys;
      }
    }
  }

  // ---------- when one pass of the whole block is a fixed point ----------

  /** The columns of a table as a database of empty tables, and the renames of its columns as renames of those. */
  function AsTables(t: Table): Database {
    map c | c in t.cols :: Table(map[], [])
  }

  function WithinTable(cols: seq<Rename>, t: Name): seq<Rename> {
    if cols == [] then []
    else (if cols[0].ColumnRename? && cols[0].tbl == t then [TableRename(cols[0].from, cols[0].to)] else [])
         + WithinTable(cols[1..], t)
  }

  lemma {:induction false} WithinTableMember(cols: seq<Rename>, t: Name)
    ensures forall f, g :: TableRename(f, g) in WithinTable(cols, t) <==> ColumnRename(t, f, g) in cols
  {
    if cols != [] {
      WithinTableMember(cols[1..], t);
      assert cols == [cols[0]] + cols[1..];
    }
  }

  lemma RenameColumnAsTables(t: Table, f: Name, g: Name)
    ensures AsTables(RenameColumn(t, f, g)) == Apply(AsTables(t), TableRename(f, g))
  {
    var u := AsTables(RenameColumn(t, f, g));
    var v := Apply(AsTables(t), TableRename(f, g));
    assert u.Keys == v.Keys;
    assert forall c :: c in v ==> v[c] == Table(map[], []);
  }

  lemma {:induction false} ColumnsAsTables(db: Database, cols: seq<Rename>, t: Name)
    requires t in db && forall op :: op in cols ==> op.ColumnRename?
    ensures t in Replay(db, cols) && AsTables(Replay(db, cols)[t]) == Replay(AsTables(db[t]), WithinTable(cols, t))
    decreases |cols|
  {
    if cols != [] {
      var op, rest := cols[0], cols[1..];
      var here := if op.tbl == t then [TableRename(op.from, op.to)] else [];
      assert op in cols;
      ColumnsAsTables(Apply(db, op), rest, t);
      ReplayAppend(AsTables(db[t]), here, WithinTable(rest, t));
      if op.tbl == t {
        RenameColumnAsTables(db[t], op.from, op.to);
        assert here[1..] == [] && Replay(AsTables(db[t]), here) == Apply(AsTables(db[t]), here[0]);
      }
    }
  }

  /** Each column name of a table is left once, taken once, and never taken back. */
  ghost predicate ColumnsOnce(cols: seq<Rename>) {
    ColumnsOneWay(cols) && forall op :: op in cols && op.ColumnRename? ==> OneWay(WithinTable(cols, op.tbl))
  }

  /** In some table two columns of one lineage are both present, and the one in front still has somewhere to go. */
  ghost predicate ColumnsJammed(db: Database, cols: seq<Rename>) {
    exists op :: op in cols && op.ColumnRename? && op.tbl in db && Jammed(AsTables(db[op.tbl]), WithinTable(cols, op.tbl))
  }

  lemma ColumnFiresAfterIff(db: Database, cols: seq<Rename>)
    requires ColumnsOnce(cols) && forall op :: op in cols ==> op.ColumnRename?
    ensures SomethingFires(Replay(db, cols), cols) <==> ColumnsJammed(db, cols)
  {
    var out := Replay(db, cols);
    ColumnsKeepTables(db, cols);
    forall op | op in cols && op.tbl in db
      ensures SomethingFires(AsTables(out[op.tbl]), WithinTable(cols, op.tbl)) <==>
              Jammed(AsTables(db[op.tbl]), WithinTable(cols, op.tbl))
    {
      ColumnsAsTables(db, cols, op.tbl);
      FiresAfterIffJammed(AsTables(db[op.tbl]), WithinTable(cols, op.tbl));
    }
    if SomethingFires(out, cols) {
      var op :| op in cols && Fires(out, op);
      WithinTableMember(cols, op.tbl);
      var r := TableRename(op.from, op.to);
      assert ColumnRename(op.tbl, op.from, op.to) == op && r in WithinTable(cols, op.tbl) && Fires(AsTables(out[op.tbl]), r);
    }
    if ColumnsJammed(db, cols) {
      var op :| op in cols && op.tbl in db && Jammed(AsTables(db[op.tbl]), WithinTable(cols, op.tbl));
      var r :| r in WithinTable(cols, op.tbl) && Fires(AsTables(out[op.tbl]), r);
      FiresInTable(out, cols, op.tbl, r);
    }
  }

  lemma FiresInTable(db: Database, cols: seq<Rename>, t: Name, r: Rename)
    requires t in db && r in WithinTable(cols, t) && Fires(AsTables(db[t]), r)
    ensures SomethingFires(db, cols)
  {
    WithinOnlyTables(cols, t);
    WithinTableMember(cols, t);
    var op := ColumnRename(t, r.src, r.dst);
    assert op in cols && Fires(db, op);
  }

  lemma {:induction false} WithinOnlyTables(cols: seq<Rename>, t: Name)
    ensures forall r :: r in WithinTable(cols, t) ==> r.TableRename?
  {
    if cols != [] {
      WithinOnlyTables(cols[1..], t);
    }
  }

  /** One pass of the whole block, tables first, is a fixed point exactly when neither the tables nor,
      once the tables have moved, the columns of any table are jammed. */
  lemma PassIsFixedIff(db: Database, ops: seq<Rename>, temps: set<Name>)
    requires db.Keys !! temps && TableRenames(TablesOf(ops), temps)
    requires OneWay(Effective(TablesOf(ops), temps)) && ColumnsOnce(ColumnsOf(ops))
    ensures Evolve(Evolve(db, ops), ops) == Evolve(db, ops) <==>
            !Jammed(db, Effective(TablesOf(ops), temps)) && !ColumnsJammed(Replay(db, TablesOf(ops)), ColumnsOf(ops))
  {
    var tables, cols := TablesOf(ops), ColumnsOf(ops);
    var some := Effective(tables, temps);
    var mid, out := Replay(db, tables), Evolve(db, ops);
    KindsMember(ops);
    RebuildsAreInert(db, tables, temps);
    ColumnsKeepTables(mid, cols);
    NoOpIffSilent(out, ops, temps);
    FiresAfterIffJammed(db, some);
    ColumnFiresAfterIff(mid, cols);
    forall op | op in some
      ensures op.TableRename? && (Fires(out, op) <==> Fires(mid, op))
    {
    }
    assert SomethingFires(out, some) <==> SomethingFires(mid, some);
    if SomethingFires(out, some) {
      var op :| op in some && Fires(out, op);
      assert op in ops;
    } else {
      SilentByKind(out, ops, some, cols);
    }
  }

  // ---------- the rows of a table that is renamed and declared ----------

  /** A populated table that is declared and that nothing is renamed to keeps its rows under its name
      exactly when each rename of it finds the new name taken. */
  lemma DeclaredSourceKeepsRowsIff(db: Database, ops: seq<Rename>, dumps: seq<TableDump>, final: Database, n: Name, temps: set<Name>)
    requires WellFormed(db) && db.Keys !! temps && IsDump(dumps, final) && n in db && n in final && db[n].rows != []
    requires TableRenames(TablesOf(ops), temps) && OneWay(Effective(TablesOf(ops), temps))
    requires Untaken(TablesOf(ops), n, temps) && forall op :: op in ops && op.ColumnRename? ==> op.tbl != n
    ensures var out := Converge(db, ops, dumps);
            n in out && (KeepsCells(db[n], out[n]) <==> forall op :: op in TablesOf(ops) && op.src == n ==> op.dst in db)
  {
    var tables := TablesOf(ops);
    var moved := Replay(db, tables);
    KindsMember(ops);
    RebuildsAreInert(db, tables, temps);
    LeavesIffFree(db, Effective(tables, temps), n);
    UntakenStays(db, tables, n, temps);
    ColumnsKeepTables(moved, ColumnsOf(ops));
    ReplayKeepsWellFormed(db, tables);
    ReplayKeepsWellFormed(moved, ColumnsOf(ops));
    ConvergeMerges(Evolve(db, ops), final, dumps);
    if n in moved {
      assert MergedTable(Evolve(db, ops)[n], DeclaredIn(final, n), Converge(db, ops, dumps)[n]);
    }
  }

  // ---------- inputs that show the hypotheses are needed ----------

  /** a -> b, b -> c on a database holding both a and b: the second pass moves a. */
  lemma TwoNamesOfOneLineage(t: Table, u: Table)
    ensures var ops := [TableRename("a", "b"), TableRename("b", "c")];
            var db: Database := map["a" := t, "b" := u];
            && Replay(db, ops) == map["a" := t, "c" := u]
            && Replay(Replay(db, ops), ops) == map["b" := t, "c" := u]
  {
    var db: Database := map["a" := t, "b" := u];
    var r1, r2 := TableRename("a", "b"), TableRename("b", "c");
    assert Apply(db, r1) == db;
    var once: Database := map["a" := t, "c" := u];
    assert Apply(db, r2) == once;
    assert Apply(once, r1) == map["b" := t, "c" := u];
    assert Apply(Apply(once, r1), r2) == Apply(once, r1);
  }

  /** A column renamed before its own table: the chain renames both, the script only the table. */
  lemma ColumnRenamedUnderAnOldTableName(column: Column)
    ensures var chain := [Move(ColumnRename("t", "f", "g")), Move(TableRename("t", "u"))];
            var db: Database := map["t" := Table(map["f" := column], [])];
            && Runs(db, chain)
            && Run(db, chain) == map["u" := Table(map["g" := column], [])]
            && Evolve(db, RenamesOf(chain)) == map["u" := Table(map["f" := column], [])]
  {
    var cr, tr := ColumnRename("t", "f", "g"), TableRename("t", "u");
    var chain := [Move(cr), Move(tr)];
    var before, after := Table(map["f" := column], []), Table(map["g" := column], []);
    var db: Database := map["t" := before];
    assert before.cols.Keys == {"f"} && Rekey(before.cols, "f", "g") == after.cols;
    assert RenameColumn(before, "f", "g") == after;
    assert Apply(db, cr) == map["t" := after];
    assert Apply(map["t" := after], tr) == map["u" := after];
    assert chain[1..] == [Move(tr)] && [Move(tr)][1..] == [];
    assert Run(map["t" := after], [Move(tr)]) == map["u" := after];
    assert RenamesOf([Move(tr)]) == [tr] + RenamesOf([]) == [tr];
    assert RenamesOf(chain) == [cr] + RenamesOf([Move(tr)]) == [cr, tr];
    assert [cr, tr][1..] == [tr] && [tr][1..] == [];
    assert TablesOf([tr]) == [tr] && ColumnsOf([tr]) == [];
    assert TablesOf([cr, tr]) == [tr] && ColumnsOf([cr, tr]) == [cr] + ColumnsOf([tr]) == [cr];
    assert Apply(db, tr) == map["u" := before];
  }

  lemma TwoTableRenames(db: Database, r1: Rename, r2: Rename)
    requires r1.TableRename? && r2.TableRename?
    ensures Evolve(db, [r1, r2]) == Apply(Apply(db, r1), r2)
  {
    assert [r1, r2][1..] == [r2] && [r2][1..] == [];
    assert TablesOf([r2]) == [r2] && ColumnsOf([r2]) == [] + ColumnsOf([]) == [];
    assert TablesOf([r1, r2]) == [r1, r2] && ColumnsOf([r1, r2]) == [] + ColumnsOf([r2]) == [];
    var next := Apply(db, r1);
    assert Replay(next, [r2]) == Apply(next, r2);
    assert Replay(db, [r1, r2]) == Replay(next, [r2]);
  }

  lemma RunsInThree(start: Database, chain: seq<Step>, mid: Database, last: Database, out: Database)
    requires |chain| == 3 && Enabled(start, chain[0]) && Enabled(mid, chain[1]) && Enabled(last, chain[2])
    requires Exec(start, chain[0]) == mid && Exec(mid, chain[1]) == last && Exec(last, chain[2]) == out
    ensures Runs(start, chain) && Run(start, chain) == out
    ensures RenamesOf(chain) == RenamesIn(chain[0]) + (RenamesIn(chain[1]) + RenamesIn(chain[2]))
  {
    var two, one := chain[1..], chain[1..][1..];
    assert one[1..] == [] && two[0] == chain[1] && one[0] == chain[2];
    assert RenamesOf(one) == RenamesIn(chain[2]) + [];
    assert Runs(last, one) && Run(last, one) == out;
    assert Runs(mid, two) && Run(mid, two) == out;
  }

  /** The chain a -> b, b -> c, create a: the first rename fires on the very database it ends with. */
  lemma ConvergedYetRenamed(t: Table, u: Table)
    ensures var chain := [Move(TableRename("a", "b")), Move(TableRename("b", "c")), CreateTable("a", t)];
            var out: Database := map["a" := t, "c" := u];
            && Runs(map["a" := u], chain) && Run(map["a" := u], chain) == out
            && Evolve(out, RenamesOf(chain)) == map["b" := t, "c" := u] && Evolve(out, RenamesOf(chain)) != out
  {
    var r1, r2 := TableRename("a", "b"), TableRename("b", "c");
    var chain := [Move(r1), Move(r2), CreateTable("a", t)];
    var out: Database := map["a" := t, "c" := u];
    RunsInThree(map["a" := u], chain, map["b" := u], map["c" := u], out);
    assert RenamesOf(chain) == [r1, r2];
    TwoTableRenames(out, r1, r2);
    FirstOfTwoFires(t, u);
  }

  lemma FirstOfTwoFires(t: Table, u: Table)
    ensures var out: Database := map["a" := t, "c" := u];
            var moved: Database := map["b" := t, "c" := u];
            Apply(Apply(out, TableRename("a", "b")), TableRename("b", "c")) == moved && moved != out
  {
    var out: Database := map["a" := t, "c" := u];
    var moved: Database := map["b" := t, "c" := u];
    assert Rekey(out, "a", "b") == moved;
    assert Apply(moved, TableRename("b", "c")) == moved;
    assert "a" in out && "a" !in moved;
  }

  /** A rename source that the final schema declares again: its rows are carried off to the new
      name and an empty table takes their place. */
  lemma DeclaredSourceLosesItsRows(rows: seq<Row>)
    ensures var dumps := [TableDump("a", map[], []), TableDump("b", map[], [])];
            var db: Database := map["a" := Table(map[], rows)];
            Converge(db, [TableRename("a", "b")], dumps) == map["a" := Table(map[], []), "b" := Table(map[], rows)]
  {
    var da, dd := TableDump("a", map[], []), TableDump("b", map[], []);
    var op := TableRename("a", "b");
    var db: Database := map["a" := Table(map[], rows)];
    var moved: Database := map["b" := Table(map[], rows)];
    assert [op][1..] == [] && TablesOf([op]) == [op];
    assert ColumnsOf([op]) == [] + ColumnsOf([op][1..]) == [];
    assert Apply(db, op) == moved;
    assert [da, dd][1..] == [dd] && [dd][1..] == [];
    assert SpecsOf([dd]) == SpecsFrom(dd, 0) + SpecsOf([]) == [];
    assert SpecsOf([da, dd]) == SpecsFrom(da, 0) + SpecsOf([dd]) == [];
    var created := CreateOne(moved, da);
    assert CreateMissing(created, [dd]) == CreateMissing(CreateOne(created, dd), []) == created;
    assert CreateMissing(moved, [da, dd]) == CreateMissing(created, [dd]);
  }
}
