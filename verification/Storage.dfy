/**
  What PostgreSQL enforces besides NOT NULL: keys, unique indexes and foreign
  keys; and what a guarded rename, a change of rows and an INSERT ... ON CONFLICT
  DO NOTHING do to a database that keeps them.
 */
module Storage {
  import opened Catalog

  /** A conjunct of an index predicate: column = literal, column <> literal, IS NULL, IS NOT NULL. */
  datatype Test =
    | Is(col: Name, text: string)
    | IsNot(col: Name, text: string)
    | Absent(col: Name)
    | Present(col: Name)

  /** Two rows in scope may not agree on all columns, unless one of them is NULL. */
  datatype Key = Key(cols: set<Name>, scope: set<Test>)

  datatype Indexed = Indexed(on: Name, key: Key, unique: bool)

  /** A foreign key: pairs of a column of the child and the column of the parent it references. */
  datatype Link = Link(child: Name, parent: Name, pairs: seq<(Name, Name)>)

  /** Tables, the keys declared in CREATE TABLE, the named indexes, and the foreign keys. */
  datatype State = State(tables: Database, keys: map<Name, set<Key>>, indexes: map<Name, Indexed>, links: set<Link>)

  /** What a statement leaves, or that it is refused. */
  datatype Outcome = Reached(state: State) | Aborted

  function Cell(row: Row, c: Name): Value {
    if c in row then row[c] else Null
  }

  predicate Passes(x: Test, row: Row) {
    match x
    case Is(col, text) => Cell(row, col) == Literal(text)
    case IsNot(col, text) => Cell(row, col) != Null && Cell(row, col) != Literal(text)
    case Absent(col) => Cell(row, col) == Null
    case Present(col) => Cell(row, col) != Null
  }

  predicate InScope(k: Key, row: Row) {
    forall x :: x in k.scope ==> Passes(x, row)
  }

  predicate SameKey(k: Key, a: Row, b: Row) {
    InScope(k, a) && InScope(k, b) && forall c :: c in k.cols ==> Cell(a, c) == Cell(b, c) != Null
  }

  predicate Repeats(rows: seq<Row>, k: Key) {
    exists i, j :: 0 <= i < j < |rows| && SameKey(k, rows[i], rows[j])
  }

  function Mentions(k: Key): set<Name> {
    k.cols + set x | x in k.scope :: x.col
  }

  function ColumnsIn(tables: Database, t: Name): set<Name> {
    if t in tables then tables[t].cols.Keys else {}
  }

  function RowsIn(tables: Database, t: Name): seq<Row> {
    if t in tables then tables[t].rows else []
  }

  /** Every key that rows of the table have to keep. */
  function KeysOn(s: State, t: Name): set<Key> {
    (if t in s.keys then s.keys[t] else {})
    + set n | n in s.indexes && s.indexes[n].on == t && s.indexes[n].unique :: s.indexes[n].key
  }

  // ---------- foreign keys ----------

  predicate Refers(row: Row, l: Link) {
    forall p :: p in l.pairs ==> Cell(row, p.0) != Null
  }

  predicate IsParent(row: Row, parent: Row, l: Link) {
    forall p :: p in l.pairs ==> Cell(row, p.0) == Cell(parent, p.1)
  }

  predicate HasParentIn(row: Row, parents: seq<Row>, l: Link) {
    exists j :: 0 <= j < |parents| && IsParent(row, parents[j], l)
  }

  predicate LinkHolds(tables: Database, l: Link) {
    forall i :: 0 <= i < |RowsIn(tables, l.child)| && Refers(RowsIn(tables, l.child)[i], l) ==>
      HasParentIn(RowsIn(tables, l.child)[i], RowsIn(tables, l.parent), l)
  }

  // ---------- as SQL has it ----------

  /** An index predicate: NULL is neither equal nor unequal to anything. */
  lemma TestsAreSql(row: Row, c: Name, text: string)
    ensures Passes(Is(c, text), row) <==> c in row && row[c] == Literal(text)
    ensures Passes(IsNot(c, text), row) <==> c in row && exists other :: other != text && row[c] == Literal(other)
    ensures Passes(Absent(c), row) <==> (c in row ==> row[c] == Null)
    ensures Passes(Present(c), row) <==> c in row && exists any :: row[c] == Literal(any)
  {
    if c in row && row[c].Literal? {
      assert row[c] == Literal(row[c].text);
    }
  }

  ghost predicate SameText(a: Row, b: Row, c: Name) {
    c in a && c in b && exists text :: a[c] == Literal(text) && b[c] == Literal(text)
  }

  lemma SameTextIs(a: Row, b: Row, c: Name)
    ensures SameText(a, b, c) <==> Cell(a, c) == Cell(b, c) != Null
  {
    if Cell(a, c) == Cell(b, c) != Null {
      assert a[c] == Literal(a[c].text);
    }
  }

  /** Two rows clash exactly when both pass every test and hold the same text in every column of the key: NULLs never
      clash. */
  lemma KeysAreSql(k: Key, a: Row, b: Row)
    ensures SameKey(k, a, b) <==>
            (forall x :: x in k.scope ==> Passes(x, a) && Passes(x, b)) && forall c :: c in k.cols ==> SameText(a, b, c)
  {
    forall c ensures SameText(a, b, c) <==> Cell(a, c) == Cell(b, c) != Null {
      SameTextIs(a, b, c);
    }
  }

  /** A foreign key asks nothing of a row that is NULL in one of its columns, and of any other a parent row with the
      same values. */
  ghost predicate LinkedAsSql(row: Row, parents: seq<Row>, l: Link) {
    (forall i :: 0 <= i < |l.pairs| ==> Cell(row, l.pairs[i].0) != Null) ==>
      exists j :: 0 <= j < |parents| && SameValues(row, parents[j], l)
  }

  ghost predicate SameValues(row: Row, parent: Row, l: Link) {
    forall i :: 0 <= i < |l.pairs| ==> Cell(row, l.pairs[i].0) == Cell(parent, l.pairs[i].1)
  }

  lemma LinkOfRowIsSql(row: Row, parents: seq<Row>, l: Link)
    ensures (Refers(row, l) ==> HasParentIn(row, parents, l)) <==> LinkedAsSql(row, parents, l)
  {
    assert Refers(row, l) <==> forall i :: 0 <= i < |l.pairs| ==> Cell(row, l.pairs[i].0) != Null by {
      assert forall i :: 0 <= i < |l.pairs| ==> l.pairs[i] in l.pairs;
    }
    forall j | 0 <= j < |parents| ensures IsParent(row, parents[j], l) <==> SameValues(row, parents[j], l) {
      assert forall i :: 0 <= i < |l.pairs| ==> l.pairs[i] in l.pairs;
    }
  }

  lemma LinksAreSql(tables: Database, l: Link)
    ensures LinkHolds(tables, l) <==>
            forall i :: 0 <= i < |RowsIn(tables, l.child)| ==> LinkedAsSql(RowsIn(tables, l.child)[i], RowsIn(tables, l.parent), l)
  {
    forall i | 0 <= i < |RowsIn(tables, l.child)|
      ensures (Refers(RowsIn(tables, l.child)[i], l) ==> HasParentIn(RowsIn(tables, l.child)[i], RowsIn(tables, l.parent), l)) <==>
              LinkedAsSql(RowsIn(tables, l.child)[i], RowsIn(tables, l.parent), l)
    {
      LinkOfRowIsSql(RowsIn(tables, l.child)[i], RowsIn(tables, l.parent), l);
    }
  }

  // ---------- the invariant ----------

  predicate LinkFits(tables: Database, l: Link) {
    && l.child in tables && l.parent in tables
    && forall p :: p in l.pairs ==> p.0 in tables[l.child].cols && p.1 in tables[l.parent].cols
  }

  predicate IndexAnchored(tables: Database, x: Indexed) {
    x.on in tables && Mentions(x.key) <= tables[x.on].cols.Keys
  }

  /** Keys and indexes belong to tables and columns that exist. */
  ghost predicate Anchored(s: State) {
    && s.keys.Keys == s.tables.Keys
    && (forall t, k :: t in s.tables && k in KeysOn(s, t) ==> Mentions(k) <= s.tables[t].cols.Keys)
    && (forall n :: n in s.indexes ==> IndexAnchored(s.tables, s.indexes[n]))
    && (forall l :: l in s.links ==> LinkFits(s.tables, l))
  }

  ghost predicate KeysHold(s: State) {
    forall t, k :: t in s.tables && k in KeysOn(s, t) ==> !Repeats(s.tables[t].rows, k)
  }

  ghost predicate LinksHold(s: State) {
    forall l :: l in s.links ==> LinkHolds(s.tables, l)
  }

  /** What PostgreSQL guarantees of a database between two statements. */
  ghost predicate Lawful(s: State) {
    WellFormed(s.tables) && Anchored(s) && KeysHold(s) && LinksHold(s)
  }

  // ---------- guarded renames carry keys, indexes and foreign keys along ----------

  function TestMoved(x: Test, from: Name, to: Name): Test {
    x.(col := Moved(from, to, x.col))
  }

  function KeyMoved(k: Key, from: Name, to: Name): Key {
    Key(set c | c in k.cols :: Moved(from, to, c), set x | x in k.scope :: TestMoved(x, from, to))
  }

  function PairMoved(p: (Name, Name), l: Link, tbl: Name, from: Name, to: Name): (Name, Name) {
    (if l.child == tbl then Moved(from, to, p.0) else p.0, if l.parent == tbl then Moved(from, to, p.1) else p.1)
  }

  function LinkMoved(l: Link, tbl: Name, from: Name, to: Name): Link {
    l.(pairs := seq(|l.pairs|, i requires 0 <= i < |l.pairs| => PairMoved(l.pairs[i], l, tbl, from, to)))
  }

  function TableMovedIn(l: Link, src: Name, dst: Name): Link {
    l.(child := Moved(src, dst, l.child), parent := Moved(src, dst, l.parent))
  }

  function IndexMoved(x: Indexed, tbl: Name, from: Name, to: Name): Indexed {
    if x.on == tbl then x.(key := KeyMoved(x.key, from, to)) else x
  }

  function ApplyTo(s: State, op: Rename): State {
    if !Fires(s.tables, op) then s
    else match op
      case TableRename(src, dst) =>
        State(Apply(s.tables, op),
              Rekey(s.keys, src, dst),
              map n | n in s.indexes :: s.indexes[n].(on := Moved(src, dst, s.indexes[n].on)),
              set l | l in s.links :: TableMovedIn(l, src, dst))
      case ColumnRename(tbl, from, to) =>
        State(Apply(s.tables, op),
              map t | t in s.keys :: if t == tbl then set k | k in s.keys[t] :: KeyMoved(k, from, to) else s.keys[t],
              map n | n in s.indexes :: IndexMoved(s.indexes[n], tbl, from, to),
              set l | l in s.links :: LinkMoved(l, tbl, from, to))
  }

  function ReplayOn(s: State, ops: seq<Rename>): State
    decreases |ops|
  {
    if ops == [] then s else ReplayOn(ApplyTo(s, ops[0]), ops[1..])
  }

  lemma ApplyToTables(s: State, op: Rename)
    ensures ApplyTo(s, op).tables == Apply(s.tables, op)
  {
    if !Fires(s.tables, op) {
      assert Apply(s.tables, op) == s.tables;
    }
  }

  lemma {:induction false} ReplayOnTables(s: State, ops: seq<Rename>)
    ensures ReplayOn(s, ops).tables == Replay(s.tables, ops)
    decreases |ops|
  {
    if ops != [] {
      ApplyToTables(s, ops[0]);
      ReplayOnTables(ApplyTo(s, ops[0]), ops[1..]);
    }
  }

  lemma {:induction false} ReplayOnNothingFires(s: State, ops: seq<Rename>)
    requires forall op :: op in ops ==> !Fires(s.tables, op)
    ensures ReplayOn(s, ops) == s
    decreases |ops|
  {
    if ops != [] {
      assert ops[0] in ops;
      ReplayOnNothingFires(s, ops[1..]);
    }
  }

  lemma SameKeysOn(s: State, o: State, before: Name, t: Name)
    requires (if t in o.keys then o.keys[t] else {}) == (if before in s.keys then s.keys[before] else {})
    requires o.indexes.Keys == s.indexes.Keys
    requires forall n :: n in s.indexes ==>
               o.indexes[n].unique == s.indexes[n].unique && (o.indexes[n].on == t <==> s.indexes[n].on == before)
               && (o.indexes[n].on == t ==> o.indexes[n].key == s.indexes[n].key)
    ensures KeysOn(o, t) == KeysOn(s, before)
  {
  }

  lemma TableRenameKeysOn(s: State, src: Name, dst: Name, t: Name)
    requires Anchored(s) && src in s.tables && dst !in s.tables
    ensures KeysOn(ApplyTo(s, TableRename(src, dst)), t) ==
            if t == src then {} else if t == dst then KeysOn(s, src) else KeysOn(s, t)
  {
    var o := ApplyTo(s, TableRename(src, dst));
    var before := if t == dst then src else t;
    forall n | n in s.indexes
      ensures t != src ==> (o.indexes[n].on == t <==> s.indexes[n].on == before)
      ensures o.indexes[n].on != src
    {
    }
    if t != src {
      SameKeysOn(s, o, before, t);
    }
  }

  lemma TableRenameMovesKeys(s: State, src: Name, dst: Name)
    requires Anchored(s) && src in s.tables && dst !in s.tables
    ensures forall t :: KeysOn(ApplyTo(s, TableRename(src, dst)), t) ==
                        if t == src then {} else if t == dst then KeysOn(s, src) else KeysOn(s, t)
  {
    forall t
      ensures KeysOn(ApplyTo(s, TableRename(src, dst)), t) == if t == src then {} else if t == dst then KeysOn(s, src) else KeysOn(s, t)
    {
      TableRenameKeysOn(s, src, dst, t);
    }
  }

  lemma TableRenameKeepsKeys(s: State, src: Name, dst: Name)
    requires Lawful(s) && src in s.tables && dst !in s.tables
    ensures KeysHold(ApplyTo(s, TableRename(src, dst)))
  {
    TableRenameMovesKeys(s, src, dst);
  }

  lemma TableRenameKeepsMentions(s: State, src: Name, dst: Name)
    requires Lawful(s) && src in s.tables && dst !in s.tables
    ensures var o := ApplyTo(s, TableRename(src, dst));
            forall t, k :: t in o.tables && k in KeysOn(o, t) ==> Mentions(k) <= o.tables[t].cols.Keys
  {
    TableRenameMovesKeys(s, src, dst);
  }

  lemma TableRenameKeepsLinks(s: State, src: Name, dst: Name, l: Link)
    requires LinkFits(s.tables, l) && LinkHolds(s.tables, l) && src in s.tables && dst !in s.tables
    ensures var after := Apply(s.tables, TableRename(src, dst));
            LinkFits(after, TableMovedIn(l, src, dst)) && LinkHolds(after, TableMovedIn(l, src, dst))
  {
    var after, m := Apply(s.tables, TableRename(src, dst)), TableMovedIn(l, src, dst);
    assert RowsIn(after, m.child) == RowsIn(s.tables, l.child) && RowsIn(after, m.parent) == RowsIn(s.tables, l.parent);
  }

  lemma TableRenameKeepsIndex(tables: Database, src: Name, dst: Name, x: Indexed)
    requires IndexAnchored(tables, x) && src in tables && dst !in tables
    ensures IndexAnchored(Apply(tables, TableRename(src, dst)), x.(on := Moved(src, dst, x.on)))
  {
  }

  lemma TableRenameKeepsLawful(s: State, src: Name, dst: Name)
    requires Lawful(s) && src in s.tables && dst !in s.tables
    ensures Lawful(ApplyTo(s, TableRename(src, dst)))
  {
    var o := ApplyTo(s, TableRename(src, dst));
    StepKeepsWellFormed(s.tables, TableRename(src, dst));
    TableRenameKeepsKeys(s, src, dst);
    TableRenameKeepsMentions(s, src, dst);
    forall n | n in o.indexes
      ensures IndexAnchored(o.tables, o.indexes[n])
    {
      TableRenameKeepsIndex(s.tables, src, dst, s.indexes[n]);
    }
    forall l | l in o.links
      ensures LinkFits(o.tables, l) && LinkHolds(o.tables, l)
    {
      var before :| before in s.links && l == TableMovedIn(before, src, dst);
      TableRenameKeepsLinks(s, src, dst, before);
    }
  }

  // ---------- a renamed column ----------

  lemma CellMoved(row: Row, from: Name, to: Name, c: Name)
    requires from in row && to !in row && c != to
    ensures Cell(Rekey(row, from, to), Moved(from, to, c)) == Cell(row, c)
  {
  }

  lemma SameKeyMoved(k: Key, a: Row, b: Row, from: Name, to: Name)
    requires from in a && to !in a && from in b && to !in b && to !in Mentions(k)
    requires SameKey(KeyMoved(k, from, to), Rekey(a, from, to), Rekey(b, from, to))
    ensures SameKey(k, a, b)
  {
    var m := KeyMoved(k, from, to);
    forall x | x in k.scope
      ensures Passes(x, a) && Passes(x, b)
    {
      assert x.col in Mentions(k);
      CellMoved(a, from, to, x.col);
      CellMoved(b, from, to, x.col);
      assert TestMoved(x, from, to) in m.scope;
    }
    forall c | c in k.cols
      ensures Cell(a, c) == Cell(b, c) != Null
    {
      CellMoved(a, from, to, c);
      CellMoved(b, from, to, c);
      assert Moved(from, to, c) in m.cols;
    }
  }

  lemma KeyMovedHolds(t: Table, k: Key, from: Name, to: Name)
    requires WellFormedTable(t) && from in t.cols && to !in t.cols && Mentions(k) <= t.cols.Keys && !Repeats(t.rows, k)
    ensures !Repeats(RenameColumn(t, from, to).rows, KeyMoved(k, from, to))
    ensures Mentions(KeyMoved(k, from, to)) <= RenameColumn(t, from, to).cols.Keys
  {
    var rows := RenameColumn(t, from, to).rows;
    forall i, j | 0 <= i < j < |rows|
      ensures !SameKey(KeyMoved(k, from, to), rows[i], rows[j])
    {
      assert t.rows[i].Keys == t.cols.Keys && t.rows[j].Keys == t.cols.Keys;
      if SameKey(KeyMoved(k, from, to), rows[i], rows[j]) {
        SameKeyMoved(k, t.rows[i], t.rows[j], from, to);
      }
    }
    MentionsMoved(t, k, from, to);
  }

  lemma MentionsMoved(t: Table, k: Key, from: Name, to: Name)
    requires from in t.cols && to !in t.cols && Mentions(k) <= t.cols.Keys
    ensures Mentions(KeyMoved(k, from, to)) <= RenameColumn(t, from, to).cols.Keys
  {
    forall c | c in Mentions(KeyMoved(k, from, to))
      ensures c in RenameColumn(t, from, to).cols
    {
      var before := if c == to then from else c;
      assert c == to || before in Mentions(k);
    }
  }

  /** Each key of a table comes from one it had before. */
  lemma KeyBefore(s: State, tbl: Name, from: Name, to: Name, t: Name, k: Key) returns (before: Key)
    requires Anchored(s) && Fires(s.tables, ColumnRename(tbl, from, to))
    requires k in KeysOn(ApplyTo(s, ColumnRename(tbl, from, to)), t)
    ensures before in KeysOn(s, t) && k == if t == tbl then KeyMoved(before, from, to) else before
  {
    var o := ApplyTo(s, ColumnRename(tbl, from, to));
    if t in o.keys && k in o.keys[t] {
      if t == tbl {
        before :| before in s.keys[t] && k == KeyMoved(before, from, to);
      } else {
        before := k;
      }
    } else {
      var n :| n in o.indexes && o.indexes[n].on == t && o.indexes[n].unique && o.indexes[n].key == k;
      before := s.indexes[n].key;
      assert o.indexes[n] == IndexMoved(s.indexes[n], tbl, from, to);
    }
  }

  /** A row of table `t` after the rename of a column of `tbl`. */
  function RowMoved(row: Row, t: Name, tbl: Name, from: Name, to: Name): Row {
    if t == tbl then Rekey(row, from, to) else row
  }

  lemma RowsMoved(tables: Database, t: Name, tbl: Name, from: Name, to: Name)
    requires Fires(tables, ColumnRename(tbl, from, to))
    ensures var rows := RowsIn(Apply(tables, ColumnRename(tbl, from, to)), t);
            && |rows| == |RowsIn(tables, t)|
            && forall i :: 0 <= i < |rows| ==> rows[i] == RowMoved(RowsIn(tables, t)[i], t, tbl, from, to)
  {
  }

  lemma LinkCells(tables: Database, l: Link, row: Row, parent: Row, tbl: Name, from: Name, to: Name)
    requires WellFormed(tables) && LinkFits(tables, l) && Fires(tables, ColumnRename(tbl, from, to))
    requires row.Keys == tables[l.child].cols.Keys && parent.Keys == tables[l.parent].cols.Keys
    ensures var m := LinkMoved(l, tbl, from, to);
            && (Refers(RowMoved(row, l.child, tbl, from, to), m) <==> Refers(row, l))
            && (IsParent(RowMoved(row, l.child, tbl, from, to), RowMoved(parent, l.parent, tbl, from, to), m) <==> IsParent(row, parent, l))
  {
    var m := LinkMoved(l, tbl, from, to);
    forall i | 0 <= i < |l.pairs|
      ensures Cell(RowMoved(row, l.child, tbl, from, to), m.pairs[i].0) == Cell(row, l.pairs[i].0)
      ensures Cell(RowMoved(parent, l.parent, tbl, from, to), m.pairs[i].1) == Cell(parent, l.pairs[i].1)
    {
      assert l.pairs[i] in l.pairs;
      if l.child == tbl { CellMoved(row, from, to, l.pairs[i].0); }
      if l.parent == tbl { CellMoved(parent, from, to, l.pairs[i].1); }
    }
    assert Refers(RowMoved(row, l.child, tbl, from, to), m) <==>
           forall i :: 0 <= i < |l.pairs| ==> Cell(RowMoved(row, l.child, tbl, from, to), m.pairs[i].0) != Null;
    assert Refers(row, l) <==> forall i :: 0 <= i < |l.pairs| ==> Cell(row, l.pairs[i].0) != Null;
    assert IsParent(row, parent, l) <==> forall i :: 0 <= i < |l.pairs| ==> Cell(row, l.pairs[i].0) == Cell(parent, l.pairs[i].1);
  }

  lemma LinkMovedHolds(tables: Database, l: Link, tbl: Name, from: Name, to: Name)
    requires WellFormed(tables) && LinkFits(tables, l) && LinkHolds(tables, l) && Fires(tables, ColumnRename(tbl, from, to))
    ensures LinkHolds(Apply(tables, ColumnRename(tbl, from, to)), LinkMoved(l, tbl, from, to))
    ensures LinkFits(Apply(tables, ColumnRename(tbl, from, to)), LinkMoved(l, tbl, from, to))
  {
    var m, after := LinkMoved(l, tbl, from, to), Apply(tables, ColumnRename(tbl, from, to));
    RowsMoved(tables, l.child, tbl, from, to);
    RowsMoved(tables, l.parent, tbl, from, to);
    var rows, parents := RowsIn(tables, l.child), RowsIn(tables, l.parent);
    forall i, j | 0 <= i < |rows| && 0 <= j < |parents|
      ensures IsParent(RowsIn(after, l.child)[i], RowsIn(after, l.parent)[j], m) <==> IsParent(rows[i], parents[j], l)
    {
      LinkCells(tables, l, rows[i], parents[j], tbl, from, to);
    }
    forall i | 0 <= i < |rows| && Refers(RowsIn(after, l.child)[i], m)
      ensures HasParentIn(RowsIn(after, l.child)[i], RowsIn(after, l.parent), m)
    {
      RefersMoved(tables, l, rows[i], tbl, from, to);
      assert HasParentIn(rows[i], parents, l);
      var j :| 0 <= j < |parents| && IsParent(rows[i], parents[j], l);
      assert IsParent(RowsIn(after, l.child)[i], RowsIn(after, l.parent)[j], m);
    }
    forall p | p in m.pairs
      ensures p.0 in after[l.child].cols && p.1 in after[l.parent].cols
    {
      var i :| 0 <= i < |m.pairs| && m.pairs[i] == p;
      assert l.pairs[i] in l.pairs;
    }
  }

  lemma RefersMoved(tables: Database, l: Link, row: Row, tbl: Name, from: Name, to: Name)
    requires WellFormed(tables) && LinkFits(tables, l) && Fires(tables, ColumnRename(tbl, from, to))
    requires row.Keys == tables[l.child].cols.Keys
    ensures Refers(RowMoved(row, l.child, tbl, from, to), LinkMoved(l, tbl, from, to)) <==> Refers(row, l)
  {
    LinkCells(tables, l, row, map c | c in tables[l.parent].cols :: Null, tbl, from, to);
  }

  lemma ColumnRenameKeepsKey(s: State, tbl: Name, from: Name, to: Name, t: Name, k: Key)
    requires Lawful(s) && Fires(s.tables, ColumnRename(tbl, from, to)) && t in s.tables
    requires k in KeysOn(ApplyTo(s, ColumnRename(tbl, from, to)), t)
    ensures var after := Apply(s.tables, ColumnRename(tbl, from, to))[t];
            Mentions(k) <= after.cols.Keys && !Repeats(after.rows, k)
  {
    var before := KeyBefore(s, tbl, from, to, t, k);
    if t == tbl {
      KeyMovedHolds(s.tables[t], before, from, to);
    }
  }

  lemma ColumnRenameKeepsKeys(s: State, op: Rename)
    requires Lawful(s) && op.ColumnRename? && Fires(s.tables, op)
    ensures KeysHold(ApplyTo(s, op))
    ensures forall t, k :: t in s.tables && k in KeysOn(ApplyTo(s, op), t) ==> Mentions(k) <= Apply(s.tables, op)[t].cols.Keys
  {
    var o := ApplyTo(s, op);
    assert o.tables == Apply(s.tables, op) && o.tables.Keys == s.tables.Keys;
    forall t, k | t in o.tables && k in KeysOn(o, t)
      ensures !Repeats(o.tables[t].rows, k)
    {
      ColumnRenameKeepsKey(s, op.tbl, op.from, op.to, t, k);
    }
    forall t, k | t in o.tables && k in KeysOn(o, t)
      ensures Mentions(k) <= o.tables[t].cols.Keys
    {
      ColumnRenameKeepsKey(s, op.tbl, op.from, op.to, t, k);
    }
  }

  lemma ColumnRenameKeepsIndex(tables: Database, tbl: Name, from: Name, to: Name, x: Indexed)
    requires IndexAnchored(tables, x) && Fires(tables, ColumnRename(tbl, from, to))
    ensures IndexAnchored(Apply(tables, ColumnRename(tbl, from, to)), IndexMoved(x, tbl, from, to))
  {
    if x.on == tbl {
      MentionsMoved(tables[tbl], x.key, from, to);
    }
  }

  lemma ColumnRenameKeepsLawful(s: State, tbl: Name, from: Name, to: Name)
    requires Lawful(s) && Fires(s.tables, ColumnRename(tbl, from, to))
    ensures Lawful(ApplyTo(s, ColumnRename(tbl, from, to)))
  {
    var op := ColumnRename(tbl, from, to);
    var o := ApplyTo(s, op);
    StepKeepsWellFormed(s.tables, op);
    ColumnRenameKeepsKeys(s, op);
    forall n | n in o.indexes
      ensures IndexAnchored(o.tables, o.indexes[n])
    {
      ColumnRenameKeepsIndex(s.tables, tbl, from, to, s.indexes[n]);
    }
    forall l | l in o.links
      ensures LinkFits(o.tables, l) && LinkHolds(o.tables, l)
    {
      var before :| before in s.links && l == LinkMoved(before, tbl, from, to);
      LinkMovedHolds(s.tables, before, tbl, from, to);
    }
  }

  /** Guarded renames keep every key, unique index and foreign key. */
  lemma {:induction false} ReplayKeepsLawful(s: State, ops: seq<Rename>)
    requires Lawful(s)
    ensures Lawful(ReplayOn(s, ops))
    decreases |ops|
  {
    if ops != [] {
      var op := ops[0];
      if Fires(s.tables, op) {
        match op {
          case TableRename(src, dst) => TableRenameKeepsLawful(s, src, dst);
          case ColumnRename(tbl, from, to) => ColumnRenameKeepsLawful(s, tbl, from, to);
        }
      }
      ReplayKeepsLawful(ApplyTo(s, op), ops[1..]);
    }
  }

  // ---------- new rows ----------

  /** The table may hold these rows instead of its own. */
  predicate Storable(s: State, t: Name, rows: seq<Row>)
    requires t in s.tables
  {
    var tables := s.tables[t := s.tables[t].(rows := rows)];
    && WellFormedTable(tables[t])
    && (forall k :: k in KeysOn(s, t) ==> !Repeats(rows, k))
    && (forall l :: l in s.links && (l.child == t || l.parent == t) ==> LinkHolds(tables, l))
  }

  function WithRows(s: State, t: Name, rows: seq<Row>): State
    requires t in s.tables
  {
    s.(tables := s.tables[t := s.tables[t].(rows := rows)])
  }

  function Put(s: State, t: Name, rows: seq<Row>): Outcome
    requires t in s.tables
  {
    if Storable(s, t, rows) then Reached(WithRows(s, t, rows)) else Aborted
  }

  lemma PutKeepsLawful(s: State, t: Name, rows: seq<Row>)
    requires Lawful(s) && t in s.tables && Storable(s, t, rows)
    ensures Lawful(WithRows(s, t, rows))
  {
    var o := WithRows(s, t, rows);
    forall u ensures KeysOn(o, u) == KeysOn(s, u) {
    }
    forall l | l in o.links
      ensures LinkHolds(o.tables, l)
    {
      if l.child != t && l.parent != t {
        assert RowsIn(o.tables, l.child) == RowsIn(s.tables, l.child) && RowsIn(o.tables, l.parent) == RowsIn(s.tables, l.parent);
        assert LinkHolds(s.tables, l);
      }
    }
  }

  /** A table may always keep the rows it has. */
  lemma OwnRowsAreStorable(s: State, t: Name)
    requires Lawful(s) && t in s.tables
    ensures Storable(s, t, s.tables[t].rows) && WithRows(s, t, s.tables[t].rows) == s
  {
    assert s.tables[t := s.tables[t].(rows := s.tables[t].rows)] == s.tables;
  }

  // ---------- INSERT ... ON CONFLICT DO NOTHING ----------

  predicate Conflicts(keys: set<Key>, rows: seq<Row>, row: Row) {
    exists k, i :: k in keys && 0 <= i < |rows| && SameKey(k, rows[i], row)
  }

  /** The rows of the table after the insert, which skips a row that conflicts. */
  function Admit(keys: set<Key>, rows: seq<Row>, added: seq<Row>): seq<Row>
    decreases |added|
  {
    if added == [] then rows
    else Admit(keys, if Conflicts(keys, rows, added[0]) then rows else rows + [added[0]], added[1..])
  }

  /** Some key applies to the row: it would conflict with itself. */
  predicate Keyed(keys: set<Key>, row: Row) {
    exists k :: k in keys && SameKey(k, row, row)
  }

  /** The rows that were there stay in front, and the others are rows of the insert. */
  lemma {:induction false} AdmitAppends(keys: set<Key>, rows: seq<Row>, added: seq<Row>)
    ensures rows <= Admit(keys, rows, added)
    ensures forall i :: |rows| <= i < |Admit(keys, rows, added)| ==> Admit(keys, rows, added)[i] in added
    decreases |added|
  {
    if added != [] {
      AdmitAppends(keys, if Conflicts(keys, rows, added[0]) then rows else rows + [added[0]], added[1..]);
      assert added[0] in added && forall r :: r in added[1..] ==> r in added;
    }
  }

  lemma {:induction false} AdmitKeepsKeys(keys: set<Key>, rows: seq<Row>, added: seq<Row>)
    requires forall k :: k in keys ==> !Repeats(rows, k)
    ensures forall k :: k in keys ==> !Repeats(Admit(keys, rows, added), k)
    decreases |added|
  {
    if added != [] {
      if !Conflicts(keys, rows, added[0]) {
        forall k | k in keys
          ensures !Repeats(rows + [added[0]], k)
        {
          forall i, j | 0 <= i < j < |rows| + 1
            ensures !SameKey(k, (rows + [added[0]])[i], (rows + [added[0]])[j])
          {
          }
        }
      }
      AdmitKeepsKeys(keys, if Conflicts(keys, rows, added[0]) then rows else rows + [added[0]], added[1..]);
    }
  }

  /** An insert adds nothing exactly when each of its rows conflicts with a row that is there. */
  lemma {:induction false} AdmitsNothingIff(keys: set<Key>, rows: seq<Row>, added: seq<Row>)
    ensures Admit(keys, rows, added) == rows <==> forall r :: r in added ==> Conflicts(keys, rows, r)
    decreases |added|
  {
    if added != [] {
      assert added == [added[0]] + added[1..];
      if Conflicts(keys, rows, added[0]) {
        AdmitsNothingIff(keys, rows, added[1..]);
      } else {
        AdmitAppends(keys, rows + [added[0]], added[1..]);
      }
    }
  }

  lemma ConflictsStay(keys: set<Key>, rows: seq<Row>, more: seq<Row>, r: Row)
    requires Conflicts(keys, rows, r) && rows <= more
    ensures Conflicts(keys, more, r)
  {
    var k, i :| k in keys && 0 <= i < |rows| && SameKey(k, rows[i], r);
    assert SameKey(k, more[i], r);
  }

  lemma {:induction false} AdmittedConflicts(keys: set<Key>, rows: seq<Row>, added: seq<Row>, r: Row)
    requires r in added && Keyed(keys, r)
    ensures Conflicts(keys, Admit(keys, rows, added), r)
    decreases |added|
  {
    var next := if Conflicts(keys, rows, added[0]) then rows else rows + [added[0]];
    if r == added[0] {
      var k :| k in keys && SameKey(k, r, r);
      if !Conflicts(keys, rows, r) {
        assert next[|rows|] == r && SameKey(k, next[|rows|], r);
      }
      assert Conflicts(keys, next, r);
      AdmitAppends(keys, next, added[1..]);
      ConflictsStay(keys, next, Admit(keys, next, added[1..]), r);
    } else {
      AdmittedConflicts(keys, next, added[1..], r);
    }
  }

  /** Repeating an insert adds nothing exactly when some key applies to each of its rows. */
  lemma InsertAgainIff(keys: set<Key>, rows: seq<Row>, added: seq<Row>)
    ensures var once := Admit(keys, rows, added);
            Admit(keys, once, added) == once <==> forall r :: r in added ==> Keyed(keys, r)
  {
    var once := Admit(keys, rows, added);
    AdmitsNothingIff(keys, once, added);
    forall r | r in added
      ensures Conflicts(keys, once, r) <==> Keyed(keys, r)
    {
      if Keyed(keys, r) {
        AdmittedConflicts(keys, rows, added, r);
      }
      if Conflicts(keys, once, r) {
        var k, i :| k in keys && 0 <= i < |once| && SameKey(k, once[i], r);
        assert SameKey(k, r, r);
      }
    }
  }
}
