/**
  What a pass of guarded renames does to the rows, for any list of renames and
  any database: names move, cells never do.
 */
module RowFlow {
  import opened Catalog

  predicate Injective(m: map<Name, Name>) {
    forall x, y :: x in m && y in m && m[x] == m[y] ==> x == y
  }

  ghost predicate Onto(m: map<Name, Name>, names: set<Name>) {
    forall n :: n in names ==> exists o :: o in m && m[o] == n
  }

  /** Each entry of `a` is in `b` under its new name. */
  ghost predicate EntriesMoved<V>(a: map<Name, V>, b: map<Name, V>, names: map<Name, Name>) {
    forall c :: c in a ==> c in names && names[c] in b && b[names[c]] == a[c]
  }

  /** Table `b` is table `a` with its columns renamed one to one along `names`. */
  ghost predicate SameTable(a: Table, b: Table, names: map<Name, Name>) {
    && names.Keys == a.cols.Keys && Injective(names) && Onto(names, b.cols.Keys)
    && EntriesMoved(a.cols, b.cols, names)
    && |a.rows| == |b.rows|
    && (forall i :: 0 <= i < |a.rows| ==> EntriesMoved(a.rows[i], b.rows[i], names))
  }

  ghost predicate Renamed(a: Table, b: Table) {
    exists names :: SameTable(a, b, names)
  }

  /** Database `b` is `a` with its tables renamed one to one along `tables`, and the columns of each
      table along some one-to-one renaming: no table, column, row or cell is lost, merged or changed. */
  ghost predicate Carried(a: Database, b: Database, tables: map<Name, Name>) {
    && tables.Keys == a.Keys && Injective(tables) && Onto(tables, b.Keys)
    && (forall t :: t in tables ==> tables[t] in b && Renamed(a[t], b[tables[t]]))
  }

  function MovedIn(keys: set<Name>, from: Name, to: Name): map<Name, Name> {
    map n | n in keys :: Moved(from, to, n)
  }

  lemma MovedInOnto<V>(m: map<Name, V>, from: Name, to: Name)
    requires from in m && to !in m
    ensures Onto(MovedIn(m.Keys, from, to), Rekey(m, from, to).Keys)
  {
    var names := MovedIn(m.Keys, from, to);
    forall n | n in Rekey(m, from, to)
      ensures exists o :: o in names && names[o] == n
    {
      var o := if n == to then from else n;
      assert o in names && names[o] == n;
    }
  }

  lemma RekeyMoves<V>(m: map<Name, V>, from: Name, to: Name)
    requires from in m && to !in m
    ensures EntriesMoved(m, Rekey(m, from, to), MovedIn(m.Keys, from, to))
    ensures Rekey(m, from, to).Keys == m.Keys - {from} + {to}
  {
  }

  lemma RenameColumnMoves(t: Table, from: Name, to: Name)
    requires WellFormedTable(t) && from in t.cols && to !in t.cols
    ensures SameTable(t, RenameColumn(t, from, to), MovedIn(t.cols.Keys, from, to))
  {
    MovedInOnto(t.cols, from, to);
    RekeyMoves(t.cols, from, to);
    forall i | 0 <= i < |t.rows|
      ensures EntriesMoved(t.rows[i], RenameColumn(t, from, to).rows[i], MovedIn(t.cols.Keys, from, to))
    {
      assert t.rows[i].Keys == t.cols.Keys;
      RekeyMoves(t.rows[i], from, to);
    }
  }

  lemma SameTableRefl(t: Table)
    requires WellFormedTable(t)
    ensures Renamed(t, t)
  {
    var names := map c | c in t.cols :: c;
    assert forall c :: c in t.cols ==> c in names && names[c] == c;
    assert SameTable(t, t, names);
  }

  lemma ComposeNames(m: map<Name, Name>, n: map<Name, Name>, keys: set<Name>) returns (both: map<Name, Name>)
    requires forall x :: x in m ==> m[x] in n
    requires Injective(m) && Injective(n) && Onto(m, n.Keys) && Onto(n, keys)
    ensures both.Keys == m.Keys && Injective(both) && Onto(both, keys)
    ensures forall x :: x in m ==> both[x] == n[m[x]]
  {
    both := map x | x in m :: n[m[x]];
    forall z | z in keys
      ensures exists x :: x in both && both[x] == z
    {
      var y :| y in n && n[y] == z;
      var x :| x in m && m[x] == y;
      assert both[x] == z;
    }
    forall x, y | x in both && y in both && both[x] == both[y]
      ensures x == y
    {
      assert m[x] == m[y];
    }
  }

  lemma SameTableCompose(a: Table, b: Table, c: Table, m: map<Name, Name>, n: map<Name, Name>)
    requires SameTable(a, b, m) && SameTable(b, c, n)
    ensures Renamed(a, c)
  {
    assert forall x :: x in m ==> m[x] in n;
    var both := ComposeNames(m, n, c.cols.Keys);
    EntriesCompose(a.cols, b.cols, c.cols, m, n, both);
    forall i | 0 <= i < |a.rows|
      ensures EntriesMoved(a.rows[i], c.rows[i], both)
    {
      EntriesCompose(a.rows[i], b.rows[i], c.rows[i], m, n, both);
    }
    assert SameTable(a, c, both);
  }

  lemma EntriesCompose<V>(a: map<Name, V>, b: map<Name, V>, c: map<Name, V>, m: map<Name, Name>, n: map<Name, Name>, both: map<Name, Name>)
    requires EntriesMoved(a, b, m) && EntriesMoved(b, c, n)
    requires both.Keys == m.Keys && forall x :: x in m ==> m[x] in n && both[x] == n[m[x]]
    ensures EntriesMoved(a, c, both)
  {
  }

  lemma IdentityCarries(db: Database) returns (tables: map<Name, Name>)
    requires WellFormed(db)
    ensures Carried(db, db, tables)
  {
    tables := map t | t in db :: t;
    assert forall t :: t in db ==> t in tables && tables[t] == t;
    forall t | t in db { SameTableRefl(db[t]); }
  }

  lemma TableRenameCarries(db: Database, src: Name, dst: Name)
    requires WellFormed(db) && src in db && dst !in db
    ensures Carried(db, Rekey(db, src, dst), MovedIn(db.Keys, src, dst))
  {
    MovedInOnto(db, src, dst);
    RekeyMoves(db, src, dst);
    forall t | t in db { SameTableRefl(db[t]); }
  }

  lemma ReplacedTableCarries(db: Database, tbl: Name, u: Table) returns (tables: map<Name, Name>)
    requires WellFormed(db) && tbl in db && Renamed(db[tbl], u)
    ensures Carried(db, db[tbl := u], tables)
  {
    tables := map t | t in db :: t;
    assert forall t :: t in db ==> t in tables && tables[t] == t;
    var after := db[tbl := u];
    forall t | t in db
      ensures Renamed(db[t], after[t])
    {
      if t != tbl { SameTableRefl(db[t]); }
    }
  }

  lemma StepCarries(db: Database, op: Rename) returns (tables: map<Name, Name>)
    requires WellFormed(db)
    ensures Carried(db, Apply(db, op), tables)
  {
    if !Fires(db, op) {
      assert Apply(db, op) == db;
      tables := IdentityCarries(db);
    } else if op.TableRename? {
      TableRenameCarries(db, op.src, op.dst);
      tables := MovedIn(db.Keys, op.src, op.dst);
    } else {
      RenameColumnMoves(db[op.tbl], op.from, op.to);
      tables := ReplacedTableCarries(db, op.tbl, RenameColumn(db[op.tbl], op.from, op.to));
    }
  }

  lemma CarriedCompose(a: Database, b: Database, c: Database, m: map<Name, Name>, n: map<Name, Name>)
    returns (tables: map<Name, Name>)
    requires Carried(a, b, m) && Carried(b, c, n)
    ensures Carried(a, c, tables)
  {
    tables := ComposeNames(m, n, c.Keys);
    forall t | t in a
      ensures Renamed(a[t], c[tables[t]])
    {
      var p :| SameTable(a[t], b[m[t]], p);
      var q :| SameTable(b[m[t]], c[tables[t]], q);
      SameTableCompose(a[t], b[m[t]], c[tables[t]], p, q);
    }
  }

  /** Replaying any renames against any database moves names one to one and keeps every cell. */
  lemma {:induction false} ReplayCarries(db: Database, ops: seq<Rename>) returns (tables: map<Name, Name>)
    requires WellFormed(db)
    ensures Carried(db, Replay(db, ops), tables)
    decreases |ops|
  {
    if ops == [] {
      tables := IdentityCarries(db);
    } else {
      var next := Apply(db, ops[0]);
      StepKeepsWellFormed(db, ops[0]);
      var m := StepCarries(db, ops[0]);
      var n := ReplayCarries(next, ops[1..]);
      tables := CarriedCompose(db, next, Replay(db, ops), m, n);
    }
  }
}
