/**
  The column-reconciliation loop: add the declared columns an existing table
  lacks, and promote a declared NOT NULL column once no row holds a NULL in it.
 */
module Reconcile {
  import opened Catalog

  /** One row of the loop's VALUES list. */
  datatype Spec = Spec(tbl: Name, col: Name, column: Column)

  /** SELECT count(*) ... WHERE col IS NULL */
  function NullCount(rows: seq<Row>, col: Name): nat {
    if rows == [] then 0
    else (if col in rows[0] && rows[0][col] == Null then 1 else 0) + NullCount(rows[1..], col)
  }

  ghost predicate HasNull(t: Table, col: Name) {
    exists i :: 0 <= i < |t.rows| && col in t.rows[i] && t.rows[i][col] == Null
  }

  lemma {:induction false} NullCountIsExact(t: Table, col: Name)
    ensures NullCount(t.rows, col) == 0 <==> !HasNull(t, col)
    decreases |t.rows|
  {
    if t.rows != [] {
      var rest := t.(rows := t.rows[1..]);
      NullCountIsExact(rest, col);
      if HasNull(rest, col) {
        var i :| 0 <= i < |rest.rows| && col in rest.rows[i] && rest.rows[i][col] == Null;
        assert t.rows[i + 1][col] == Null;
      }
      if HasNull(t, col) {
        var i :| 0 <= i < |t.rows| && col in t.rows[i] && t.rows[i][col] == Null;
        assert i > 0 ==> rest.rows[i - 1] == t.rows[i];
      }
    }
  }

  function AddMissing(db: Database, s: Spec): Database {
    if s.tbl in db && s.col !in db[s.tbl].cols then
      db[s.tbl := WithColumn(db[s.tbl], s.col, s.column.(notNull := false))]
    else
      db
  }

  function SetNotNull(t: Table, col: Name): Table
    requires col in t.cols
  {
    t.(cols := t.cols[col := t.cols[col].(notNull := true)])
  }

  /** The second IF of the loop is entered: the column is declared NOT NULL and is still nullable. */
  predicate Promotable(db: Database, s: Spec) {
    s.column.notNull && s.tbl in db && s.col in db[s.tbl].cols && !db[s.tbl].cols[s.col].notNull
  }

  function Promote(db: Database, s: Spec): Database {
    if Promotable(db, s) && NullCount(db[s.tbl].rows, s.col) == 0 then
      db[s.tbl := SetNotNull(db[s.tbl], s.col)]
    else
      db
  }

  function ReconcileOne(db: Database, s: Spec): Database {
    Promote(AddMissing(db, s), s)
  }

  function Reconciled(db: Database, specs: seq<Spec>): Database
    decreases |specs|
  {
    if specs == [] then db else Reconciled(ReconcileOne(db, specs[0]), specs[1..])
  }

  /** The columns the run warns about. */
  function Warnings(db: Database, specs: seq<Spec>): seq<Spec>
    decreases |specs|
  {
    if specs == [] then []
    else
      var added := AddMissing(db, specs[0]);
      (if Promotable(added, specs[0]) && NullCount(added[specs[0].tbl].rows, specs[0].col) != 0 then [specs[0]] else [])
      + Warnings(Promote(added, specs[0]), specs[1..])
  }

  // ---------- nothing that exists is touched ----------

  /** `b` is `a` with columns added and NOT NULL flags raised: every old cell is as it was. */
  ghost predicate KeepsCells(a: Table, b: Table) {
    && a.cols.Keys <= b.cols.Keys
    && (forall c :: c in a.cols ==>
          && b.cols[c].typ == a.cols[c].typ && b.cols[c].fill == a.cols[c].fill
          && (a.cols[c].notNull ==> b.cols[c].notNull))
    && |a.rows| == |b.rows|
    && (forall i, c :: 0 <= i < |a.rows| && c in a.rows[i] ==> c in b.rows[i] && b.rows[i][c] == a.rows[i][c])
  }

  ghost predicate KeepsAll(a: Database, b: Database) {
    a.Keys == b.Keys && forall t :: t in a ==> KeepsCells(a[t], b[t])
  }

  lemma AddKeeps(t: Table, col: Name, column: Column)
    requires WellFormedTable(t) && col !in t.cols && !column.notNull
    ensures WellFormedTable(WithColumn(t, col, column)) && KeepsCells(t, WithColumn(t, col, column))
  {
    var u := WithColumn(t, col, column);
    forall i, c | 0 <= i < |u.rows| && c in u.cols && u.cols[c].notNull && c in u.rows[i]
      ensures u.rows[i][c] != Null
    {
      assert c in t.cols && c in t.rows[i];
    }
  }

  lemma RaiseKeeps(t: Table, col: Name)
    requires WellFormedTable(t) && col in t.cols && !HasNull(t, col)
    ensures WellFormedTable(SetNotNull(t, col)) && KeepsCells(t, SetNotNull(t, col))
  {
  }

  lemma StepKeeps(db: Database, s: Spec)
    requires WellFormed(db)
    ensures WellFormed(ReconcileOne(db, s)) && KeepsAll(db, ReconcileOne(db, s))
  {
    var mid := AddMissing(db, s);
    if s.tbl in db {
      if s.col !in db[s.tbl].cols {
        AddKeeps(db[s.tbl], s.col, s.column.(notNull := false));
      }
      assert WellFormed(mid) && KeepsAll(db, mid);
      NullCountIsExact(mid[s.tbl], s.col);
      if !HasNull(mid[s.tbl], s.col) {
        RaiseKeeps(mid[s.tbl], s.col);
      }
      KeepsTransitive(db, mid, ReconcileOne(db, s));
    }
  }

  lemma KeepsTransitive(a: Database, b: Database, c: Database)
    requires KeepsAll(a, b) && KeepsAll(b, c)
    ensures KeepsAll(a, c)
  {
    forall t | t in a
      ensures KeepsCells(a[t], c[t])
    {
      assert KeepsCells(a[t], b[t]) && KeepsCells(b[t], c[t]);
    }
  }

  /** The loop adds columns and raises flags; it changes no existing cell and never leaves a
      NULL in a NOT NULL column. */
  lemma {:induction false} ReconcileKeeps(db: Database, specs: seq<Spec>)
    requires WellFormed(db)
    ensures WellFormed(Reconciled(db, specs)) && KeepsAll(db, Reconciled(db, specs))
    decreases |specs|
  {
    if specs != [] {
      var next := ReconcileOne(db, specs[0]);
      StepKeeps(db, specs[0]);
      ReconcileKeeps(next, specs[1..]);
      KeepsTransitive(db, next, Reconciled(next, specs[1..]));
    }
  }

  // ---------- what the loop reaches ----------

  /** The declared column is there, and NOT NULL when declared so, unless a row forbids it. */
  ghost predicate Settled(db: Database, s: Spec) {
    s.tbl in db ==>
      && s.col in db[s.tbl].cols
      && (s.column.notNull ==> db[s.tbl].cols[s.col].notNull || HasNull(db[s.tbl], s.col))
  }

  lemma StepSettles(db: Database, s: Spec)
    requires WellFormed(db)
    ensures Settled(ReconcileOne(db, s), s)
  {
    if s.tbl in db {
      NullCountIsExact(AddMissing(db, s)[s.tbl], s.col);
    }
  }

  lemma {:induction false} ReconcileSettles(db: Database, specs: seq<Spec>)
    requires WellFormed(db)
    ensures forall s :: s in specs ==> Settled(Reconciled(db, specs), s)
    decreases |specs|
  {
    if specs != [] {
      var next := ReconcileOne(db, specs[0]);
      StepKeeps(db, specs[0]);
      StepSettles(db, specs[0]);
      ReconcileKeeps(next, specs[1..]);
      ReconcileSettles(next, specs[1..]);
      assert forall s :: s in specs ==> s == specs[0] || s in specs[1..];
    }
  }

  lemma {:induction false} SettledIsFixed(db: Database, specs: seq<Spec>)
    requires forall s :: s in specs ==> Settled(db, s)
    ensures Reconciled(db, specs) == db
    decreases |specs|
  {
    if specs != [] {
      var s := specs[0];
      assert s in specs && AddMissing(db, s) == db;
      if Promotable(db, s) {
        NullCountIsExact(db[s.tbl], s.col);
      }
      SettledIsFixed(db, specs[1..]);
    }
  }

  lemma ReconcileIdempotent(db: Database, specs: seq<Spec>)
    requires WellFormed(db)
    ensures Reconciled(Reconciled(db, specs), specs) == Reconciled(db, specs)
  {
    ReconcileSettles(db, specs);
    SettledIsFixed(Reconciled(db, specs), specs);
  }

  /** The declaration a column is added under. */
  ghost predicate Declares(specs: seq<Spec>, t: Name, c: Name) {
    exists s :: s in specs && s.tbl == t && s.col == c
  }

  ghost predicate DeclaresNotNull(specs: seq<Spec>, t: Name, c: Name) {
    exists s :: s in specs && s.tbl == t && s.col == c && s.column.notNull
  }

  /** One turn of the loop, seen from one column. */
  lemma StepColumn(db: Database, s: Spec, t: Name, c: Name)
    requires WellFormed(db) && t in db
    ensures var next := ReconcileOne(db, s);
            && t in next
            && (c in next[t].cols <==> c in db[t].cols || (s.tbl == t && s.col == c))
            && (c in next[t].cols ==>
                  (next[t].cols[c].notNull <==>
                     || (c in db[t].cols && db[t].cols[c].notNull)
                     || (s.tbl == t && s.col == c && s.column.notNull && !HasNull(next[t], c))))
  {
    if s.tbl == t {
      NullCountIsExact(AddMissing(db, s)[t], s.col);
      var before, after := AddMissing(db, s)[t], ReconcileOne(db, s)[t];
      assert before.rows == after.rows;
      assert HasNull(before, c) <==> HasNull(after, c);
    }
  }

  /** The loop's result column by column: a table gains exactly its declared columns, and a column
      ends NOT NULL exactly when it already was, or is declared so and no row is NULL in it. */
  lemma {:induction false} ReconcileIsExact(db: Database, specs: seq<Spec>, t: Name, c: Name)
    requires WellFormed(db) && t in db
    ensures var out := Reconciled(db, specs);
            && t in out
            && (c in out[t].cols <==> c in db[t].cols || Declares(specs, t, c))
            && (c in out[t].cols ==>
                  (out[t].cols[c].notNull <==>
                     || (c in db[t].cols && db[t].cols[c].notNull)
                     || (DeclaresNotNull(specs, t, c) && !HasNull(out[t], c))))
    decreases |specs|
  {
    if specs != [] {
      var next, out := ReconcileOne(db, specs[0]), Reconciled(db, specs);
      StepKeeps(db, specs[0]);
      StepColumn(db, specs[0], t, c);
      ReconcileKeeps(next, specs[1..]);
      ReconcileIsExact(next, specs[1..], t, c);
      assert KeepsCells(next[t], out[t]) && WellFormedTable(next[t]) && WellFormedTable(out[t]);
    }
  }

  /** A column that was not there gets the type and, in every row, the default of a declaration of it. */
  lemma {:induction false} AddedColumnIsDeclared(db: Database, specs: seq<Spec>, t: Name, c: Name) returns (s: Spec)
    requires WellFormed(db) && t in db && c !in db[t].cols && Declares(specs, t, c)
    ensures s in specs && s.tbl == t && s.col == c
    ensures var out := Reconciled(db, specs);
            && t in out && c in out[t].cols
            && out[t].cols[c].typ == s.column.typ && out[t].cols[c].fill == s.column.fill
            && forall i :: 0 <= i < |out[t].rows| ==> c in out[t].rows[i] && out[t].rows[i][c] == s.column.fill
    decreases |specs|
  {
    var next, out := ReconcileOne(db, specs[0]), Reconciled(db, specs);
    StepKeeps(db, specs[0]);
    StepColumn(db, specs[0], t, c);
    if specs[0].tbl == t && specs[0].col == c {
      s := specs[0];
      ReconcileKeeps(next, specs[1..]);
      assert KeepsCells(next[t], out[t]);
      forall i | 0 <= i < |out[t].rows|
        ensures c in out[t].rows[i] && out[t].rows[i][c] == s.column.fill
      {
        assert next[t].rows[i][c] == s.column.fill;
      }
    } else {
      s := AddedColumnIsDeclared(next, specs[1..], t, c);
    }
  }

  /** The run warns about exactly the declared NOT NULL columns it leaves nullable. */
  lemma {:induction false} WarningsAreExact(db: Database, specs: seq<Spec>, s: Spec)
    requires WellFormed(db)
    ensures s in Warnings(db, specs) <==>
              && s in specs && s.column.notNull && s.tbl in db
              && var out := Reconciled(db, specs); s.tbl in out && s.col in out[s.tbl].cols && !out[s.tbl].cols[s.col].notNull
    decreases |specs|
  {
    if specs != [] {
      var next, out := ReconcileOne(db, specs[0]), Reconciled(db, specs);
      StepKeeps(db, specs[0]);
      ReconcileKeeps(next, specs[1..]);
      WarningsAreExact(next, specs[1..], s);
      if s == specs[0] && s.tbl in db {
        NullCountIsExact(AddMissing(db, s)[s.tbl], s.col);
        StepSettles(db, s);
        var a, b := next[s.tbl], out[s.tbl];
        assert KeepsCells(a, b) && WellFormedTable(a) && WellFormedTable(b);
      }
    }
  }
}
