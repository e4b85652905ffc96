/**
  What a pass of guarded renames does to the keys, indexes and foreign keys of a
  database, for any list of renames: each of them is still there, about the same
  tables and columns under their new names, and there are no others.
 */
module ConstraintFlow {
  import opened Catalog
  import opened RowFlow
  import opened Storage

  type Names = map<Name, Name>

  /** The new name, for a name that has one. */
  function Via(names: Names, n: Name): Name {
    if n in names then names[n] else n
  }

  function ColumnsVia(cols: map<Name, Names>, t: Name): Names {
    if t in cols then cols[t] else map[]
  }

  function KeyVia(k: Key, names: Names): Key {
    Key(set c | c in k.cols :: Via(names, c), set x | x in k.scope :: x.(col := Via(names, x.col)))
  }

  function LinkVia(l: Link, tables: Names, cols: map<Name, Names>): Link {
    Link(Via(tables, l.child), Via(tables, l.parent),
         seq(|l.pairs|, i requires 0 <= i < |l.pairs| =>
           (Via(ColumnsVia(cols, l.child), l.pairs[i].0), Via(ColumnsVia(cols, l.parent), l.pairs[i].1))))
  }

  function IndexVia(x: Indexed, tables: Names, cols: map<Name, Names>): Indexed {
    Indexed(Via(tables, x.on), KeyVia(x.key, ColumnsVia(cols, x.on)), x.unique)
  }

  /** `b` is `a` with its tables renamed one to one along `tables` and the columns of each along `cols`: rows and
      cells are the same. */
  ghost predicate MovedAlong(a: Database, b: Database, tables: Names, cols: map<Name, Names>) {
    && tables.Keys == a.Keys == cols.Keys && Injective(tables) && Onto(tables, b.Keys)
    && forall t :: t in a ==> tables[t] in b && SameTable(a[t], b[tables[t]], cols[t])
  }

  ghost predicate KeysMoved(a: map<Name, set<Key>>, b: map<Name, set<Key>>, tables: Names, cols: map<Name, Names>) {
    && b.Keys == (set t | t in a :: Via(tables, t))
    && forall t :: t in a ==> b[Via(tables, t)] == set k | k in a[t] :: KeyVia(k, ColumnsVia(cols, t))
  }

  ghost predicate IndexesMoved(a: map<Name, Indexed>, b: map<Name, Indexed>, tables: Names, cols: map<Name, Names>) {
    b == map n | n in a :: IndexVia(a[n], tables, cols)
  }

  ghost predicate LinksMoved(a: set<Link>, b: set<Link>, tables: Names, cols: map<Name, Names>) {
    b == set l | l in a :: LinkVia(l, tables, cols)
  }

  /** Every key, index and foreign key of `o` is one of `s` under the new names, and every one of `s` is there. */
  ghost predicate ConstraintsMoved(s: State, o: State, tables: Names, cols: map<Name, Names>) {
    && KeysMoved(s.keys, o.keys, tables, cols)
    && IndexesMoved(s.indexes, o.indexes, tables, cols)
    && LinksMoved(s.links, o.links, tables, cols)
  }

  // ---------- one rename ----------

  function Identity(names: set<Name>): Names {
    map n | n in names :: n
  }

  lemma KeyViaIdentity(k: Key, names: set<Name>)
    ensures KeyVia(k, Identity(names)) == k
  {
    forall x | x in k.scope ensures x.(col := Via(Identity(names), x.col)) == x {
    }
    assert KeyVia(k, Identity(names)).cols == k.cols;
    assert KeyVia(k, Identity(names)).scope == k.scope;
  }

  lemma KeyViaMoved(k: Key, names: set<Name>, from: Name, to: Name)
    requires Mentions(k) <= names
    ensures KeyVia(k, MovedIn(names, from, to)) == KeyMoved(k, from, to)
  {
    var m := MovedIn(names, from, to);
    forall c | c in k.cols ensures Via(m, c) == Moved(from, to, c) {
      assert c in Mentions(k);
    }
    forall x | x in k.scope ensures x.(col := Via(m, x.col)) == TestMoved(x, from, to) {
      assert x.col in Mentions(k);
    }
    assert KeyVia(k, m).cols == KeyMoved(k, from, to).cols;
    assert KeyVia(k, m).scope == KeyMoved(k, from, to).scope;
  }

  function Identities(db: Database): map<Name, Names> {
    map t | t in db :: Identity(db[t].cols.Keys)
  }

  lemma SameAlongIdentity(t: Table)
    requires WellFormedTable(t)
    ensures SameTable(t, t, Identity(t.cols.Keys))
  {
    var names := Identity(t.cols.Keys);
    assert forall c :: c in t.cols ==> c in names && names[c] == c;
  }

  lemma RowsAlongTable(db: Database, src: Name, dst: Name)
    requires WellFormed(db) && src in db && dst !in db
    ensures MovedAlong(db, Rekey(db, src, dst), MovedIn(db.Keys, src, dst), Identities(db))
  {
    var o, tables := Rekey(db, src, dst), MovedIn(db.Keys, src, dst);
    MovedInOnto(db, src, dst);
    RekeyMoves(db, src, dst);
    forall t | t in db ensures SameTable(db[t], o[tables[t]], Identities(db)[t]) {
      SameAlongIdentity(db[t]);
    }
  }

  lemma KeysAlongTable(s: State, src: Name, dst: Name)
    requires s.keys.Keys == s.tables.Keys && src in s.tables && dst !in s.tables
    ensures KeysMoved(s.keys, Rekey(s.keys, src, dst), MovedIn(s.tables.Keys, src, dst), Identities(s.tables))
  {
    var o, tables := Rekey(s.keys, src, dst), MovedIn(s.tables.Keys, src, dst);
    RekeyMoves(s.keys, src, dst);
    KeysStay(s, Identities(s.tables));
    forall n
      ensures n in o <==> n in (set t | t in s.keys :: Via(tables, t))
    {
      if n in o { assert n == Via(tables, if n == dst then src else n); }
    }
  }

  lemma IndexesAlongTable(s: State, src: Name, dst: Name)
    requires (forall n :: n in s.indexes ==> IndexAnchored(s.tables, s.indexes[n])) && src in s.tables && dst !in s.tables
    ensures IndexesMoved(s.indexes, ApplyTo(s, TableRename(src, dst)).indexes, MovedIn(s.tables.Keys, src, dst), Identities(s.tables))
  {
    forall n | n in s.indexes
      ensures s.indexes[n].(on := Moved(src, dst, s.indexes[n].on)) == IndexVia(s.indexes[n], MovedIn(s.tables.Keys, src, dst), Identities(s.tables))
    {
      KeyViaIdentity(s.indexes[n].key, s.tables[s.indexes[n].on].cols.Keys);
    }
  }

  lemma LinksAlongTable(s: State, src: Name, dst: Name)
    requires (forall l :: l in s.links ==> LinkFits(s.tables, l)) && src in s.tables && dst !in s.tables
    ensures LinksMoved(s.links, ApplyTo(s, TableRename(src, dst)).links, MovedIn(s.tables.Keys, src, dst), Identities(s.tables))
  {
    forall l | l in s.links ensures TableMovedIn(l, src, dst) == LinkVia(l, MovedIn(s.tables.Keys, src, dst), Identities(s.tables)) {
      LinkAlongTables(s.tables, l, src, dst);
    }
  }

  lemma TableMoves(s: State, src: Name, dst: Name)
    requires Lawful(s) && src in s.tables && dst !in s.tables
    ensures var o := ApplyTo(s, TableRename(src, dst));
            var tables := MovedIn(s.tables.Keys, src, dst);
            MovedAlong(s.tables, o.tables, tables, Identities(s.tables)) && ConstraintsMoved(s, o, tables, Identities(s.tables))
  {
    RowsAlongTable(s.tables, src, dst);
    KeysAlongTable(s, src, dst);
    IndexesAlongTable(s, src, dst);
    LinksAlongTable(s, src, dst);
  }

  lemma KeysStay(s: State, cols: map<Name, Names>)
    requires s.keys.Keys == s.tables.Keys && cols == Identities(s.tables)
    ensures forall t :: t in s.keys ==> s.keys[t] == set k | k in s.keys[t] :: KeyVia(k, ColumnsVia(cols, t))
  {
    forall t | t in s.keys
      ensures s.keys[t] == set k | k in s.keys[t] :: KeyVia(k, ColumnsVia(cols, t))
    {
      forall k | k in s.keys[t] ensures KeyVia(k, ColumnsVia(cols, t)) == k {
        KeyViaIdentity(k, s.tables[t].cols.Keys);
      }
    }
  }

  lemma LinkAlongTables(db: Database, l: Link, src: Name, dst: Name)
    requires LinkFits(db, l)
    ensures TableMovedIn(l, src, dst) == LinkVia(l, MovedIn(db.Keys, src, dst), Identities(db))
  {
    var m := LinkVia(l, MovedIn(db.Keys, src, dst), Identities(db));
    assert forall i :: 0 <= i < |l.pairs| ==> m.pairs[i] == l.pairs[i];
    assert m.pairs == l.pairs;
  }

  /** The column maps of a column rename. */
  function ColumnMaps(db: Database, tbl: Name, from: Name, to: Name): map<Name, Names> {
    map t | t in db :: if t == tbl then MovedIn(db[t].cols.Keys, from, to) else Identity(db[t].cols.Keys)
  }

  /** The keys of every table and the columns they mention. */
  predicate KeysFit(db: Database, keys: map<Name, set<Key>>) {
    keys.Keys == db.Keys && forall t, k :: t in db && k in keys[t] ==> Mentions(k) <= db[t].cols.Keys
  }

  lemma ColumnMoves(s: State, tbl: Name, from: Name, to: Name)
    requires Lawful(s) && Fires(s.tables, ColumnRename(tbl, from, to))
    ensures var o := ApplyTo(s, ColumnRename(tbl, from, to));
            var tables, cols := Identity(s.tables.Keys), ColumnMaps(s.tables, tbl, from, to);
            MovedAlong(s.tables, o.tables, tables, cols) && ConstraintsMoved(s, o, tables, cols)
  {
    RowsAlongColumn(s.tables, tbl, from, to);
    LawfulFits(s);
    AllKeysAlongColumn(s, tbl, from, to);
    OthersAlongColumn(s, tbl, from, to);
  }

  lemma LawfulFits(s: State)
    requires Lawful(s)
    ensures KeysFit(s.tables, s.keys)
    ensures (forall n :: n in s.indexes ==> IndexAnchored(s.tables, s.indexes[n])) && forall l :: l in s.links ==> LinkFits(s.tables, l)
  {
    forall t, k | t in s.tables && k in s.keys[t]
      ensures Mentions(k) <= s.tables[t].cols.Keys
    {
      assert k in KeysOn(s, t);
    }
  }

  lemma AllKeysAlongColumn(s: State, tbl: Name, from: Name, to: Name)
    requires KeysFit(s.tables, s.keys) && Fires(s.tables, ColumnRename(tbl, from, to))
    ensures KeysMoved(s.keys, ApplyTo(s, ColumnRename(tbl, from, to)).keys, Identity(s.tables.Keys), ColumnMaps(s.tables, tbl, from, to))
  {
    ViaIdentity(s.keys.Keys);
    forall t | t in s.keys
      ensures ApplyTo(s, ColumnRename(tbl, from, to)).keys[t] ==
              set k | k in s.keys[t] :: KeyVia(k, ColumnsVia(ColumnMaps(s.tables, tbl, from, to), t))
    {
      KeysAlongColumn(s, tbl, from, to, t);
    }
  }

  lemma ViaIdentity(names: set<Name>)
    ensures (set t | t in names :: Via(Identity(names), t)) == names
    ensures forall t :: Via(Identity(names), t) == t
  {
    assert forall t :: t in names ==> Via(Identity(names), t) == t;
  }

  lemma OthersAlongColumn(s: State, tbl: Name, from: Name, to: Name)
    requires (forall n :: n in s.indexes ==> IndexAnchored(s.tables, s.indexes[n])) && forall l :: l in s.links ==> LinkFits(s.tables, l)
    requires Fires(s.tables, ColumnRename(tbl, from, to))
    ensures var o, tables, cols := ApplyTo(s, ColumnRename(tbl, from, to)), Identity(s.tables.Keys), ColumnMaps(s.tables, tbl, from, to);
            IndexesMoved(s.indexes, o.indexes, tables, cols) && LinksMoved(s.links, o.links, tables, cols)
  {
    var tables, cols := Identity(s.tables.Keys), ColumnMaps(s.tables, tbl, from, to);
    forall n | n in s.indexes ensures IndexMoved(s.indexes[n], tbl, from, to) == IndexVia(s.indexes[n], tables, cols) {
      IndexAlongColumn(s.tables, s.indexes[n], tbl, from, to);
    }
    forall l | l in s.links ensures LinkMoved(l, tbl, from, to) == LinkVia(l, tables, cols) {
      LinkAlongColumn(s.tables, l, tbl, from, to);
    }
  }

  lemma RowsAlongColumn(db: Database, tbl: Name, from: Name, to: Name)
    requires WellFormed(db) && Fires(db, ColumnRename(tbl, from, to))
    ensures MovedAlong(db, Apply(db, ColumnRename(tbl, from, to)), Identity(db.Keys), ColumnMaps(db, tbl, from, to))
  {
    var o := Apply(db, ColumnRename(tbl, from, to));
    assert forall t :: t in db ==> t in Identity(db.Keys) && Identity(db.Keys)[t] == t;
    forall t | t in db
      ensures SameTable(db[t], o[t], ColumnMaps(db, tbl, from, to)[t])
    {
      if t == tbl {
        RenameColumnMoves(db[t], from, to);
      } else {
        SameAlongIdentity(db[t]);
      }
    }
  }

  lemma KeysAlongColumn(s: State, tbl: Name, from: Name, to: Name, t: Name)
    requires KeysFit(s.tables, s.keys) && Fires(s.tables, ColumnRename(tbl, from, to)) && t in s.keys
    ensures ApplyTo(s, ColumnRename(tbl, from, to)).keys[t] ==
            set k | k in s.keys[t] :: KeyVia(k, ColumnsVia(ColumnMaps(s.tables, tbl, from, to), t))
  {
    forall k | k in s.keys[t]
      ensures KeyVia(k, ColumnsVia(ColumnMaps(s.tables, tbl, from, to), t)) == if t == tbl then KeyMoved(k, from, to) else k
    {
      KeyAlongColumn(s.tables, k, t, tbl, from, to);
    }
  }

  lemma KeyAlongColumn(db: Database, k: Key, t: Name, tbl: Name, from: Name, to: Name)
    requires t in db && Mentions(k) <= db[t].cols.Keys
    ensures KeyVia(k, ColumnsVia(ColumnMaps(db, tbl, from, to), t)) == if t == tbl then KeyMoved(k, from, to) else k
  {
    if t == tbl {
      KeyViaMoved(k, db[t].cols.Keys, from, to);
    } else {
      KeyViaIdentity(k, db[t].cols.Keys);
    }
  }

  lemma IndexAlongColumn(db: Database, x: Indexed, tbl: Name, from: Name, to: Name)
    requires IndexAnchored(db, x)
    ensures IndexMoved(x, tbl, from, to) == IndexVia(x, Identity(db.Keys), ColumnMaps(db, tbl, from, to))
  {
    KeyAlongColumn(db, x.key, x.on, tbl, from, to);
  }

  lemma LinkAlongColumn(db: Database, l: Link, tbl: Name, from: Name, to: Name)
    requires LinkFits(db, l)
    ensures LinkMoved(l, tbl, from, to) == LinkVia(l, Identity(db.Keys), ColumnMaps(db, tbl, from, to))
  {
    var a, b := LinkMoved(l, tbl, from, to), LinkVia(l, Identity(db.Keys), ColumnMaps(db, tbl, from, to));
    forall i | 0 <= i < |l.pairs|
      ensures a.pairs[i] == b.pairs[i]
    {
      assert l.pairs[i] in l.pairs;
    }
    assert a.pairs == b.pairs;
  }

  // ---------- one after the other ----------

  function Then(m: Names, n: Names): Names {
    map x | x in m :: Via(n, m[x])
  }

  function ColumnsThen(tables: Names, m: map<Name, Names>, n: map<Name, Names>): map<Name, Names> {
    map t | t in m :: Then(m[t], ColumnsVia(n, Via(tables, t)))
  }

  lemma KeyViaThen(k: Key, m: Names, n: Names)
    requires Mentions(k) <= m.Keys
    ensures KeyVia(KeyVia(k, m), n) == KeyVia(k, Then(m, n))
  {
    var once, both := KeyVia(k, m), KeyVia(k, Then(m, n));
    forall c | c in k.cols ensures Via(n, Via(m, c)) == Via(Then(m, n), c) {
      assert c in Mentions(k);
    }
    forall x | x in k.scope
      ensures x.(col := Via(m, x.col)) in once.scope && x.(col := Via(m, x.col)).(col := Via(n, Via(m, x.col))) == x.(col := Via(Then(m, n), x.col))
    {
      assert x.col in Mentions(k);
    }
    assert KeyVia(once, n).cols == both.cols;
    assert KeyVia(once, n).scope == both.scope;
  }

  lemma LinkViaThen(db: Database, l: Link, m: Names, n: Names, mc: map<Name, Names>, nc: map<Name, Names>)
    requires LinkFits(db, l) && m.Keys == db.Keys == mc.Keys && forall t :: t in db ==> mc[t].Keys == db[t].cols.Keys
    ensures LinkVia(LinkVia(l, m, mc), n, nc) == LinkVia(l, Then(m, n), ColumnsThen(m, mc, nc))
  {
    var a, b := LinkVia(LinkVia(l, m, mc), n, nc), LinkVia(l, Then(m, n), ColumnsThen(m, mc, nc));
    forall i | 0 <= i < |l.pairs|
      ensures a.pairs[i] == b.pairs[i]
    {
      assert l.pairs[i] in l.pairs;
    }
    assert a.pairs == b.pairs;
  }

  lemma IndexViaThen(db: Database, x: Indexed, m: Names, n: Names, mc: map<Name, Names>, nc: map<Name, Names>)
    requires IndexAnchored(db, x) && m.Keys == db.Keys == mc.Keys && forall t :: t in db ==> mc[t].Keys == db[t].cols.Keys
    ensures IndexVia(IndexVia(x, m, mc), n, nc) == IndexVia(x, Then(m, n), ColumnsThen(m, mc, nc))
  {
    KeyViaThen(x.key, mc[x.on], ColumnsVia(nc, m[x.on]));
  }

  lemma TableAlongThen(a: Table, b: Table, c: Table, m: Names, n: Names)
    requires SameTable(a, b, m) && SameTable(b, c, n)
    ensures SameTable(a, c, Then(m, n))
  {
    assert forall x :: x in m ==> m[x] in n;
    var both := ComposeNames(m, n, c.cols.Keys);
    assert both == Then(m, n);
    EntriesCompose(a.cols, b.cols, c.cols, m, n, both);
    forall i | 0 <= i < |a.rows|
      ensures EntriesMoved(a.rows[i], c.rows[i], both)
    {
      EntriesCompose(a.rows[i], b.rows[i], c.rows[i], m, n, both);
    }
  }

  lemma MovesThen(a: Database, b: Database, c: Database, m: Names, n: Names, mc: map<Name, Names>, nc: map<Name, Names>)
    requires MovedAlong(a, b, m, mc) && MovedAlong(b, c, n, nc)
    ensures MovedAlong(a, c, Then(m, n), ColumnsThen(m, mc, nc))
  {
    NamesThen(m, n, c.Keys);
    forall t | t in a
      ensures SameTable(a[t], c[Then(m, n)[t]], ColumnsThen(m, mc, nc)[t])
    {
      TableAlongThen(a[t], b[m[t]], c[n[m[t]]], mc[t], nc[m[t]]);
    }
  }

  lemma NamesThen(m: Names, n: Names, last: set<Name>)
    requires Injective(m) && Injective(n) && Onto(m, n.Keys) && Onto(n, last) && forall t :: t in m ==> m[t] in n
    ensures Then(m, n).Keys == m.Keys && Injective(Then(m, n)) && Onto(Then(m, n), last)
    ensures forall t :: t in m ==> Then(m, n)[t] == n[m[t]]
  {
    var both := ComposeNames(m, n, last);
    assert both == Then(m, n);
  }

  lemma KeysThen(k: set<Key>, t: Name, m: Names, n: Names, mc: map<Name, Names>, nc: map<Name, Names>)
    requires m.Keys == mc.Keys && t in m && forall x :: x in k ==> Mentions(x) <= mc[t].Keys
    ensures (set y | y in (set x | x in k :: KeyVia(x, ColumnsVia(mc, t))) :: KeyVia(y, ColumnsVia(nc, m[t]))) ==
            set x | x in k :: KeyVia(x, ColumnsVia(ColumnsThen(m, mc, nc), t))
  {
    forall x | x in k
      ensures KeyVia(KeyVia(x, mc[t]), ColumnsVia(nc, m[t])) == KeyVia(x, ColumnsVia(ColumnsThen(m, mc, nc), t))
    {
      KeyViaThen(x, mc[t], ColumnsVia(nc, m[t]));
    }
  }

  /** Each table has its new name, and each of its columns. */
  predicate NamesCover(db: Database, tables: Names, cols: map<Name, Names>) {
    tables.Keys == db.Keys == cols.Keys && forall t :: t in db ==> cols[t].Keys == db[t].cols.Keys
  }

  lemma KeysMoveThen(db: Database, a: map<Name, set<Key>>, b: map<Name, set<Key>>, c: map<Name, set<Key>>,
                     m: Names, n: Names, mc: map<Name, Names>, nc: map<Name, Names>)
    requires KeysFit(db, a) && NamesCover(db, m, mc) && KeysMoved(a, b, m, mc) && KeysMoved(b, c, n, nc)
    ensures KeysMoved(a, c, Then(m, n), ColumnsThen(m, mc, nc))
  {
    forall t | t in a
      ensures c[Via(Then(m, n), t)] == set k | k in a[t] :: KeyVia(k, ColumnsVia(ColumnsThen(m, mc, nc), t))
    {
      assert Via(m, t) in b && Via(Then(m, n), t) == Via(n, Via(m, t));
      KeysThen(a[t], t, m, n, mc, nc);
    }
    KeyTablesThen(a.Keys, m, n);
  }

  lemma KeyTablesThen(names: set<Name>, m: Names, n: Names)
    requires names == m.Keys
    ensures (set y | y in (set t | t in names :: Via(m, t)) :: Via(n, y)) == set t | t in names :: Via(Then(m, n), t)
  {
    assert forall t :: t in names ==> Via(n, Via(m, t)) == Via(Then(m, n), t);
  }

  lemma IndexesMoveThen(db: Database, a: map<Name, Indexed>, b: map<Name, Indexed>, c: map<Name, Indexed>,
                        m: Names, n: Names, mc: map<Name, Names>, nc: map<Name, Names>)
    requires (forall i :: i in a ==> IndexAnchored(db, a[i])) && NamesCover(db, m, mc)
    requires IndexesMoved(a, b, m, mc) && IndexesMoved(b, c, n, nc)
    ensures IndexesMoved(a, c, Then(m, n), ColumnsThen(m, mc, nc))
  {
    forall i | i in a ensures c[i] == IndexVia(a[i], Then(m, n), ColumnsThen(m, mc, nc)) {
      IndexViaThen(db, a[i], m, n, mc, nc);
    }
  }

  lemma LinksMoveThen(db: Database, a: set<Link>, b: set<Link>, c: set<Link>, m: Names, n: Names, mc: map<Name, Names>, nc: map<Name, Names>)
    requires (forall l :: l in a ==> LinkFits(db, l)) && NamesCover(db, m, mc) && LinksMoved(a, b, m, mc) && LinksMoved(b, c, n, nc)
    ensures LinksMoved(a, c, Then(m, n), ColumnsThen(m, mc, nc))
  {
    forall l | l in a
      ensures LinkVia(LinkVia(l, m, mc), n, nc) == LinkVia(l, Then(m, n), ColumnsThen(m, mc, nc))
    {
      LinkViaThen(db, l, m, n, mc, nc);
    }
  }

  lemma MovedCovers(db: Database, o: Database, tables: Names, cols: map<Name, Names>)
    requires MovedAlong(db, o, tables, cols)
    ensures NamesCover(db, tables, cols)
  {
    forall t | t in db ensures cols[t].Keys == db[t].cols.Keys {
      assert SameTable(db[t], o[tables[t]], cols[t]);
    }
  }

  lemma ConstraintsThen(s: State, x: State, o: State, m: Names, n: Names, mc: map<Name, Names>, nc: map<Name, Names>)
    requires Lawful(s) && MovedAlong(s.tables, x.tables, m, mc) && ConstraintsMoved(s, x, m, mc) && ConstraintsMoved(x, o, n, nc)
    ensures ConstraintsMoved(s, o, Then(m, n), ColumnsThen(m, mc, nc))
  {
    LawfulFits(s);
    MovedCovers(s.tables, x.tables, m, mc);
    KeysMoveThen(s.tables, s.keys, x.keys, o.keys, m, n, mc, nc);
    IndexesMoveThen(s.tables, s.indexes, x.indexes, o.indexes, m, n, mc, nc);
    LinksMoveThen(s.tables, s.links, x.links, o.links, m, n, mc, nc);
  }

  lemma NothingMoves(s: State)
    requires Lawful(s)
    ensures MovedAlong(s.tables, s.tables, Identity(s.tables.Keys), Identities(s.tables))
    ensures ConstraintsMoved(s, s, Identity(s.tables.Keys), Identities(s.tables))
  {
    RowsStay(s.tables);
    ViaIdentity(s.keys.Keys);
    KeysStay(s, Identities(s.tables));
    OthersStay(s);
  }

  lemma RowsStay(db: Database)
    requires WellFormed(db)
    ensures MovedAlong(db, db, Identity(db.Keys), Identities(db))
  {
    assert forall t :: t in db ==> t in Identity(db.Keys) && Identity(db.Keys)[t] == t;
    forall t | t in db ensures SameTable(db[t], db[t], Identities(db)[t]) {
      SameAlongIdentity(db[t]);
    }
  }

  lemma OthersStay(s: State)
    requires (forall n :: n in s.indexes ==> IndexAnchored(s.tables, s.indexes[n])) && forall l :: l in s.links ==> LinkFits(s.tables, l)
    ensures IndexesMoved(s.indexes, s.indexes, Identity(s.tables.Keys), Identities(s.tables))
    ensures LinksMoved(s.links, s.links, Identity(s.tables.Keys), Identities(s.tables))
  {
    var tables, cols := Identity(s.tables.Keys), Identities(s.tables);
    forall n | n in s.indexes ensures IndexVia(s.indexes[n], tables, cols) == s.indexes[n] {
      KeyViaIdentity(s.indexes[n].key, s.tables[s.indexes[n].on].cols.Keys);
    }
    forall l | l in s.links ensures LinkVia(l, tables, cols) == l {
      var m := LinkVia(l, tables, cols);
      assert forall i :: 0 <= i < |l.pairs| ==> m.pairs[i] == l.pairs[i];
      assert m.pairs == l.pairs;
    }
  }

  lemma StepMoves(s: State, op: Rename) returns (tables: Names, cols: map<Name, Names>)
    requires Lawful(s)
    ensures MovedAlong(s.tables, ApplyTo(s, op).tables, tables, cols) && ConstraintsMoved(s, ApplyTo(s, op), tables, cols)
  {
    if !Fires(s.tables, op) {
      NothingMoves(s);
      tables, cols := Identity(s.tables.Keys), Identities(s.tables);
    } else if op.TableRename? {
      TableMoves(s, op.src, op.dst);
      tables, cols := MovedIn(s.tables.Keys, op.src, op.dst), Identities(s.tables);
    } else {
      ColumnMoves(s, op.tbl, op.from, op.to);
      tables, cols := Identity(s.tables.Keys), ColumnMaps(s.tables, op.tbl, op.from, op.to);
    }
  }

  lemma StepKeepsLawful(s: State, op: Rename)
    requires Lawful(s)
    ensures Lawful(ApplyTo(s, op))
  {
    assert [op][1..] == [] && ReplayOn(s, [op]) == ReplayOn(ApplyTo(s, op), []);
    ReplayKeepsLawful(s, [op]);
  }

  /** Replaying any renames moves tables and columns one to one, with their rows, and every key, index and
      foreign key along with them; none is lost and none is added. */
  lemma {:induction false} ReplayMovesConstraints(s: State, ops: seq<Rename>) returns (tables: Names, cols: map<Name, Names>)
    requires Lawful(s)
    ensures MovedAlong(s.tables, Replay(s.tables, ops), tables, cols) && ConstraintsMoved(s, ReplayOn(s, ops), tables, cols)
    decreases |ops|
  {
    ReplayOnTables(s, ops);
    if ops == [] {
      NothingMoves(s);
      tables, cols := Identity(s.tables.Keys), Identities(s.tables);
    } else {
      var x, o := ApplyTo(s, ops[0]), ReplayOn(s, ops);
      var m, mc := StepMoves(s, ops[0]);
      StepKeepsLawful(s, ops[0]);
      ReplayOnTables(x, ops[1..]);
      var n, nc := ReplayMovesConstraints(x, ops[1..]);
      MovesThen(s.tables, x.tables, o.tables, m, n, mc, nc);
      ConstraintsThen(s, x, o, m, n, mc, nc);
      tables, cols := Then(m, n), ColumnsThen(m, mc, nc);
    }
  }
}
