/**
  The statements that `render` of scripts/generate-pg-migration.py emits, and what
  each does to a database or why PostgreSQL refuses it.  The script is one
  transaction: a refused statement undoes it all.
 */
module Emission {
  import opened Catalog
  import opened Reconcile
  import opened Storage
  import opened Repairs
  import opened TableOrder
  import opened Seeds

  datatype Statement =
    | DropIndex(name: Name)
    | Evolution(tableRenames: seq<Rename>, columnRenames: seq<Rename>)
    | Reconciliation(specs: seq<Spec>)
    | Repair(update: Update)                   // a DO block, guarded on its table
    | Create(table: TableDef, cols: Columns, keys: set<Key>, links: set<Link>)
    | BuildIndex(name: Name, index: Indexed)
    | Trigger(name: Name, on: Name)
    | Seed(insert: Insert)
    | RowSecurity(tables: seq<Name>)

  // ---------- what a statement does ----------

  /** CREATE TABLE finds a key for the foreign key: one over exactly the referenced columns. */
  predicate Referencable(s: State, keys: set<Key>, l: Link) {
    exists k :: k in (if l.parent == l.child then keys else KeysOn(s, l.parent)) && IsTarget(k, l)
  }

  predicate IsTarget(k: Key, l: Link) {
    k.scope == {} && k.cols == set p | p in l.pairs :: p.1
  }

  /** The key has no predicate, and its columns are exactly the referenced ones. */
  lemma TargetIff(k: Key, l: Link)
    ensures IsTarget(k, l) <==>
            && (forall x :: x !in k.scope)
            && (forall p :: p in l.pairs ==> p.1 in k.cols)
            && forall c :: c in k.cols ==> exists p :: p in l.pairs && p.1 == c
  {
    var targets := set p | p in l.pairs :: p.1;
    assert k.cols == targets <==> k.cols <= targets && targets <= k.cols;
  }

  function RunCreate(s: State, t: Name, cols: Columns, keys: set<Key>, links: set<Link>): Outcome {
    if t in s.tables then Reached(s)
    else if forall l :: l in links ==> Referencable(s, keys, l) then
      Reached(State(s.tables[t := Table(cols, [])], s.keys[t := keys], s.indexes, s.links + links))
    else Aborted
  }

  /** CREATE INDEX IF NOT EXISTS: its columns are looked up first, then its name, and then the rows. */
  function RunIndex(s: State, name: Name, x: Indexed): Outcome {
    if !(x.on in s.tables && Mentions(x.key) <= s.tables[x.on].cols.Keys) then Aborted
    else if name in s.indexes then Reached(s)
    else if x.unique && Repeats(s.tables[x.on].rows, x.key) then Aborted
    else Reached(s.(indexes := s.indexes[name := x]))
  }

  predicate Secures(s: State, t: Name) {
    t in s.tables && "tenant_id" in s.tables[t].cols
  }

  function RunStatement(s: State, stmt: Statement): Outcome {
    match stmt
    case DropIndex(name) => Reached(s.(indexes := s.indexes - {name}))
    case Evolution(tables, columns) => Reached(ReplayOn(ReplayOn(s, tables), columns))
    case Reconciliation(specs) => Reached(s.(tables := Reconciled(s.tables, specs)))
    case Repair(update) => RunUpdate(s, update)
    case Create(t, cols, keys, links) => RunCreate(s, t.name, cols, keys, links)
    case BuildIndex(name, index) => RunIndex(s, name, index)
    case Trigger(_, on) => if on in s.tables then Reached(s) else Aborted
    case Seed(insert) => RunInsert(s, insert)
    case RowSecurity(tables) => if forall t :: t in tables ==> Secures(s, t) then Reached(s) else Aborted
  }

  function ExecAll(s: State, script: seq<Statement>): Outcome
    decreases |script|
  {
    if script == [] then Reached(s)
    else
      var next := RunStatement(s, script[0]);
      if next.Aborted? then Aborted else ExecAll(next.state, script[1..])
  }

  function Then(o: Outcome, script: seq<Statement>): Outcome {
    if o.Reached? then ExecAll(o.state, script) else Aborted
  }

  lemma {:induction false} ExecAppend(s: State, a: seq<Statement>, b: seq<Statement>)
    ensures ExecAll(s, a + b) == Then(ExecAll(s, a), b)
    decreases |a|
  {
    if a == [] {
      assert a + b == b;
    } else {
      assert (a + b)[0] == a[0] && (a + b)[1..] == a[1..] + b;
      if RunStatement(s, a[0]).Reached? {
        ExecAppend(RunStatement(s, a[0]).state, a[1..], b);
      }
    }
  }

  lemma ExecOne(s: State, stmt: Statement)
    ensures ExecAll(s, [stmt]) == RunStatement(s, stmt)
  {
    assert [stmt][1..] == [];
    if RunStatement(s, stmt).Reached? {
      assert ExecAll(RunStatement(s, stmt).state, []) == Reached(RunStatement(s, stmt).state);
    }
  }

  // ---------- every statement keeps the database lawful ----------

  /** The keys and foreign keys of a CREATE TABLE are about its own columns. */
  predicate SelfContained(t: Name, cols: Columns, keys: set<Key>, links: set<Link>) {
    && (forall k :: k in keys ==> Mentions(k) <= cols.Keys)
    && (forall l :: l in links ==> l.child == t && forall p :: p in l.pairs ==> p.0 in cols)
  }

  predicate Sensible(stmt: Statement) {
    stmt.Create? ==> SelfContained(stmt.table.name, stmt.cols, stmt.keys, stmt.links)
  }

  lemma DropKeepsLawful(s: State, name: Name)
    requires Lawful(s)
    ensures Lawful(s.(indexes := s.indexes - {name}))
  {
    var o := s.(indexes := s.indexes - {name});
    forall t ensures KeysOn(o, t) <= KeysOn(s, t) {
    }
  }

  lemma KeyAfterReconciliation(a: Table, b: Table, k: Key)
    requires KeepsCells(a, b) && WellFormedTable(a) && Mentions(k) <= a.cols.Keys && !Repeats(a.rows, k)
    ensures !Repeats(b.rows, k)
  {
    forall i, j | 0 <= i < j < |b.rows|
      ensures SameKey(k, b.rows[i], b.rows[j]) ==> SameKey(k, a.rows[i], a.rows[j])
    {
      SameCells(a, b, i);
      SameCells(a, b, j);
      forall x | x in k.scope ensures Passes(x, a.rows[i]) == Passes(x, b.rows[i]) && Passes(x, a.rows[j]) == Passes(x, b.rows[j]) {
        assert x.col in Mentions(k);
      }
      assert forall c :: c in k.cols ==> c in Mentions(k);
    }
  }

  lemma SameCells(a: Table, b: Table, i: nat)
    requires KeepsCells(a, b) && WellFormedTable(a) && i < |a.rows|
    ensures forall c :: c in a.cols ==> Cell(a.rows[i], c) == Cell(b.rows[i], c)
  {
  }

  lemma LinkAfterReconciliation(a: Database, b: Database, l: Link)
    requires KeepsAll(a, b) && WellFormed(a) && LinkFits(a, l) && LinkHolds(a, l)
    ensures LinkFits(b, l) && LinkHolds(b, l)
  {
    var rows, parents := a[l.child].rows, a[l.parent].rows;
    assert KeepsCells(a[l.child], b[l.child]) && KeepsCells(a[l.parent], b[l.parent]);
    forall i | 0 <= i < |rows| && Refers(b[l.child].rows[i], l)
      ensures HasParentIn(b[l.child].rows[i], b[l.parent].rows, l)
    {
      SameCells(a[l.child], b[l.child], i);
      assert Refers(rows[i], l);
      assert RowsIn(a, l.child)[i] == rows[i] && HasParentIn(rows[i], parents, l);
      var j :| 0 <= j < |parents| && IsParent(rows[i], parents[j], l);
      SameCells(a[l.parent], b[l.parent], j);
      assert IsParent(b[l.child].rows[i], b[l.parent].rows[j], l);
    }
  }

  lemma ReconciliationKeepsLawful(s: State, specs: seq<Spec>)
    requires Lawful(s)
    ensures Lawful(s.(tables := Reconciled(s.tables, specs)))
  {
    var o := s.(tables := Reconciled(s.tables, specs));
    ReconcileKeeps(s.tables, specs);
    forall t ensures KeysOn(o, t) == KeysOn(s, t) {
    }
    forall t, k | t in o.tables && k in KeysOn(o, t)
      ensures !Repeats(o.tables[t].rows, k)
    {
      KeyAfterReconciliation(s.tables[t], o.tables[t], k);
    }
    forall l | l in o.links
      ensures LinkFits(o.tables, l) && LinkHolds(o.tables, l)
    {
      LinkAfterReconciliation(s.tables, o.tables, l);
    }
  }

  lemma UpdateKeepsLawful(s: State, u: Update)
    requires Lawful(s) && RunUpdate(s, u).Reached?
    ensures Lawful(RunUpdate(s, u).state)
  {
    if TableOf(u) in s.tables {
      PutKeepsLawful(s, TableOf(u), NewRows(u, s.tables));
    }
  }

  lemma CreateKeepsLawful(s: State, t: Name, cols: Columns, keys: set<Key>, links: set<Link>)
    requires Lawful(s) && SelfContained(t, cols, keys, links) && RunCreate(s, t, cols, keys, links).Reached?
    ensures Lawful(RunCreate(s, t, cols, keys, links).state)
  {
    var o := RunCreate(s, t, cols, keys, links).state;
    if t !in s.tables {
      forall u ensures KeysOn(o, u) == if u == t then keys else KeysOn(s, u) {
        assert u == t ==> forall n :: n in s.indexes ==> s.indexes[n].on != t;
      }
      forall l | l in o.links
        ensures LinkFits(o.tables, l) && LinkHolds(o.tables, l)
      {
        NewTableLink(s, t, cols, keys, links, l);
      }
    }
  }

  lemma NewTableLink(s: State, t: Name, cols: Columns, keys: set<Key>, links: set<Link>, l: Link)
    requires Lawful(s) && t !in s.tables && SelfContained(t, cols, keys, links) && l in s.links + links
    requires forall m :: m in links ==> Referencable(s, keys, m)
    ensures LinkFits(s.tables[t := Table(cols, [])], l) && LinkHolds(s.tables[t := Table(cols, [])], l)
  {
    var after := s.tables[t := Table(cols, [])];
    if l in s.links {
      assert LinkHolds(s.tables, l) && RowsIn(after, l.child) == RowsIn(s.tables, l.child);
    } else {
      var k :| k in (if l.parent == l.child then keys else KeysOn(s, l.parent)) && IsTarget(k, l);
      assert RowsIn(after, l.child) == [];
      if l.parent != l.child {
        assert l.parent in s.tables;
      }
      assert Mentions(k) <= after[l.parent].cols.Keys;
      forall p | p in l.pairs ensures p.1 in k.cols {
      }
    }
  }

  lemma IndexKeepsLawful(s: State, name: Name, x: Indexed)
    requires Lawful(s) && RunIndex(s, name, x).Reached?
    ensures Lawful(RunIndex(s, name, x).state)
  {
    var o := RunIndex(s, name, x).state;
    if name !in s.indexes {
      forall t, k | k in KeysOn(o, t)
        ensures k in KeysOn(s, t) || (t == x.on && k == x.key && x.unique)
      {
      }
    }
  }

  lemma InsertKeepsLawful(s: State, insert: Insert)
    requires Lawful(s) && RunInsert(s, insert).Reached?
    ensures Lawful(RunInsert(s, insert).state)
  {
    PutKeepsLawful(s, insert.into, RowsAfter(s, insert));
  }

  /** NOT NULL, keys, unique indexes and foreign keys hold after every statement if they held before it. */
  lemma ExecKeepsLawful(s: State, stmt: Statement)
    requires Lawful(s) && Sensible(stmt) && RunStatement(s, stmt).Reached?
    ensures Lawful(RunStatement(s, stmt).state)
  {
    match stmt {
      case DropIndex(name) => DropKeepsLawful(s, name);
      case Evolution(tables, columns) =>
        ReplayKeepsLawful(s, tables);
        ReplayKeepsLawful(ReplayOn(s, tables), columns);
      case Reconciliation(specs) => ReconciliationKeepsLawful(s, specs);
      case Repair(update) => UpdateKeepsLawful(s, update);
      case Create(t, cols, keys, links) => CreateKeepsLawful(s, t.name, cols, keys, links);
      case BuildIndex(name, index) => IndexKeepsLawful(s, name, index);
      case Trigger(_, _) =>
      case Seed(insert) => InsertKeepsLawful(s, insert);
      case RowSecurity(_) =>
    }
  }

  lemma {:induction false} ScriptKeepsLawful(s: State, script: seq<Statement>)
    requires Lawful(s) && (forall stmt :: stmt in script ==> Sensible(stmt)) && ExecAll(s, script).Reached?
    ensures Lawful(ExecAll(s, script).state)
    decreases |script|
  {
    if script != [] {
      assert script[0] in script;
      ExecKeepsLawful(s, script[0]);
      ScriptKeepsLawful(RunStatement(s, script[0]).state, script[1..]);
    }
  }
}
