/**
  The part of a PostgreSQL database that the convergence script of
  scripts/generate-pg-migration.py reads and changes: tables, their columns and
  their rows.  A column carries its type, the value its default expression
  evaluates to (`Null` when there is none) and its NOT NULL flag.
 */
module Catalog {
  import opened Sequences

  type Name = string

  datatype Value = Null | Literal(text: string)

  datatype Column = Column(typ: string, fill: Value, notNull: bool)

  type Row = map<Name, Value>

  datatype Table = Table(cols: map<Name, Column>, rows: seq<Row>)

  type Database = map<Name, Table>

  /** Every row has a cell for exactly the table's columns, and no NOT NULL column holds a NULL. */
  predicate WellFormedTable(t: Table) {
    && (forall i :: 0 <= i < |t.rows| ==> t.rows[i].Keys == t.cols.Keys)
    && (forall i, c :: 0 <= i < |t.rows| && c in t.cols && t.cols[c].notNull && c in t.rows[i] ==> t.rows[i][c] != Null)
  }

  predicate WellFormed(db: Database) {
    forall n :: n in db ==> WellFormedTable(db[n])
  }

  /** ALTER TABLE ... ADD COLUMN: every existing row gets the value of the default. */
  function WithColumn(t: Table, col: Name, column: Column): Table {
    Table(t.cols[col := column], seq(|t.rows|, i requires 0 <= i < |t.rows| => t.rows[i][col := column.fill]))
  }

  /** Moves the entry `from` to the free key `to`; does nothing when the guard fails. */
  function Rekey<V>(m: map<Name, V>, from: Name, to: Name): map<Name, V> {
    if from in m && to !in m then (m - {from})[to := m[from]] else m
  }

  function Moved(from: Name, to: Name, n: Name): Name {
    if n == from then to else n
  }

  /** The two kinds of rename that the script replays. */
  datatype Rename =
    | TableRename(src: Name, dst: Name)
    | ColumnRename(tbl: Name, from: Name, to: Name)

  function RenameColumn(t: Table, from: Name, to: Name): Table {
    if from in t.cols && to !in t.cols then
      Table(Rekey(t.cols, from, to), seq(|t.rows|, i requires 0 <= i < |t.rows| => Rekey(t.rows[i], from, to)))
    else
      t
  }

  /** One guarded rename: it fires when its source exists and its target does not. */
  function Apply(db: Database, op: Rename): Database {
    match op
    case TableRename(src, dst) => Rekey(db, src, dst)
    case ColumnRename(tbl, from, to) =>
      if tbl in db then db[tbl := RenameColumn(db[tbl], from, to)] else db
  }

  function Replay(db: Database, ops: seq<Rename>): Database
    decreases |ops|
  {
    if ops == [] then db else Replay(Apply(db, ops[0]), ops[1..])
  }

  /** The guard of a rename: replaying it on `db` changes the catalog. */
  predicate Fires(db: Database, op: Rename) {
    match op
    case TableRename(src, dst) => src in db && dst !in db
    case ColumnRename(tbl, from, to) => tbl in db && from in db[tbl].cols && to !in db[tbl].cols
  }

  function TablesOf(ops: seq<Rename>): seq<Rename> {
    if ops == [] then [] else (if ops[0].TableRename? then [ops[0]] else []) + TablesOf(ops[1..])
  }

  function ColumnsOf(ops: seq<Rename>): seq<Rename> {
    if ops == [] then [] else (if ops[0].ColumnRename? then [ops[0]] else []) + ColumnsOf(ops[1..])
  }

  /** The DO block that `render_evolution_ops` emits: all table renames first, then all column renames. */
  function Evolve(db: Database, ops: seq<Rename>): Database {
    Replay(Replay(db, TablesOf(ops)), ColumnsOf(ops))
  }

  lemma {:induction false} ReplayAppend(db: Database, a: seq<Rename>, b: seq<Rename>)
    ensures Replay(db, a + b) == Replay(Replay(db, a), b)
    decreases |a|
  {
    if a == [] {
      assert a + b == b;
    } else {
      assert (a + b)[1..] == a[1..] + b;
      ReplayAppend(Apply(db, a[0]), a[1..], b);
    }
  }

  lemma {:induction false} TablesAppend(a: seq<Rename>, b: seq<Rename>)
    ensures TablesOf(a + b) == TablesOf(a) + TablesOf(b)
  {
    if a == [] {
      assert a + b == b;
    } else {
      assert (a + b)[1..] == a[1..] + b;
      TablesAppend(a[1..], b);
      Regroup(if a[0].TableRename? then [a[0]] else [], TablesOf(a[1..]), TablesOf(b));
    }
  }

  lemma {:induction false} ColumnsAppend(a: seq<Rename>, b: seq<Rename>)
    ensures ColumnsOf(a + b) == ColumnsOf(a) + ColumnsOf(b)
  {
    if a == [] {
      assert a + b == b;
    } else {
      assert (a + b)[1..] == a[1..] + b;
      ColumnsAppend(a[1..], b);
      Regroup(if a[0].ColumnRename? then [a[0]] else [], ColumnsOf(a[1..]), ColumnsOf(b));
    }
  }

  lemma KindsAppend(a: seq<Rename>, b: seq<Rename>)
    ensures TablesOf(a + b) == TablesOf(a) + TablesOf(b)
    ensures ColumnsOf(a + b) == ColumnsOf(a) + ColumnsOf(b)
  {
    TablesAppend(a, b);
    ColumnsAppend(a, b);
  }

  lemma {:induction false} KindsMember(ops: seq<Rename>)
    ensures forall op :: op in TablesOf(ops) <==> op in ops && op.TableRename?
    ensures forall op :: op in ColumnsOf(ops) <==> op in ops && op.ColumnRename?
  {
    if ops != [] {
      KindsMember(ops[1..]);
      assert ops == [ops[0]] + ops[1..];
    }
  }

  /** A rename whose guard fails leaves the database as it is. */
  lemma {:induction false} ReplayNothingFires(db: Database, ops: seq<Rename>)
    requires forall op :: op in ops ==> !Fires(db, op)
    ensures Replay(db, ops) == db
    decreases |ops|
  {
    if ops != [] {
      assert ops[0] in ops;
      assert Apply(db, ops[0]) == db;
      ReplayNothingFires(db, ops[1..]);
    }
  }

  lemma StepKeepsWellFormed(db: Database, op: Rename)
    requires WellFormed(db)
    ensures WellFormed(Apply(db, op))
  {
  }

  lemma {:induction false} ReplayKeepsWellFormed(db: Database, ops: seq<Rename>)
    requires WellFormed(db)
    ensures WellFormed(Replay(db, ops))
    decreases |ops|
  {
    if ops != [] {
      StepKeepsWellFormed(db, ops[0]);
      ReplayKeepsWellFormed(Apply(db, ops[0]), ops[1..]);
    }
  }
}
