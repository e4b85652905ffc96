/**
  The table section of the script: each CREATE TABLE IF NOT EXISTS followed by its
  table's unique indexes.  Run against any lawful database it goes through exactly
  when each missing table finds the keys it references and each missing unique
  index meets no repeated key; then the missing tables and indexes are there.
 */
module Ddl {
  import opened Catalog
  import opened Storage
  import opened Graph
  import opened TableOrder
  import opened Seeds
  import opened Emission

  /** What the dump declares: columns, keys and foreign keys by table, and the indexes by name, listed in
      the order of their names. */
  datatype Declared = Declared(cols: map<Name, Columns>, keys: map<Name, set<Key>>, links: map<Name, set<Link>>,
                               indexes: map<Name, Indexed>, order: seq<Name>)

  function ColumnsFor(d: Declared, t: Name): Columns {
    if t in d.cols then d.cols[t] else map[]
  }

  function KeysFor(d: Declared, t: Name): set<Key> {
    if t in d.keys then d.keys[t] else {}
  }

  function LinksFor(d: Declared, t: Name): set<Link> {
    if t in d.links then d.links[t] else {}
  }

  function IndexOf(d: Declared, n: Name): Indexed {
    if n in d.indexes then d.indexes[n] else Indexed("", Key({}, {}), false)
  }

  predicate UniqueOn(d: Declared, n: Name, t: Name) {
    n in d.indexes && d.indexes[n].unique && d.indexes[n].on == t
  }

  /** The unique indexes of a table, by name. */
  function UniquesIn(d: Declared, order: seq<Name>, t: Name): seq<Name> {
    if order == [] then []
    else (if UniqueOn(d, order[0], t) then [order[0]] else []) + UniquesIn(d, order[1..], t)
  }

  // ---------- what is emitted ----------

  function IndexStatements(d: Declared, names: seq<Name>): seq<Statement> {
    seq(|names|, i requires 0 <= i < |names| => BuildIndex(names[i], IndexOf(d, names[i])))
  }

  function CreateStatement(d: Declared, t: TableDef): Statement {
    Create(t, ColumnsFor(d, t.name), KeysFor(d, t.name), LinksFor(d, t.name))
  }

  lemma {:induction false} UniquesInAre(d: Declared, order: seq<Name>, t: Name)
    ensures forall n :: n in UniquesIn(d, order, t) <==> n in order && UniqueOn(d, n, t)
  {
    if order != [] {
      UniquesInAre(d, order[1..], t);
      assert order == [order[0]] + order[1..];
    }
  }

  function TableStatements(d: Declared, t: TableDef): seq<Statement> {
    [CreateStatement(d, t)] + IndexStatements(d, UniquesIn(d, d.order, t.name))
  }

  /** Each table followed by its unique indexes. */
  function TableSection(d: Declared, ordered: seq<TableDef>): seq<Statement> {
    if ordered == [] then [] else TableStatements(d, ordered[0]) + TableSection(d, ordered[1..])
  }

  // ---------- what a dump guarantees ----------

  /** Keys, foreign keys and indexes are about declared columns; the references of a table are the parents of
      its foreign keys. */
  ghost predicate Coherent(d: Declared, tables: seq<TableDef>) {
    && d.cols.Keys == Elems(Names(tables))
    && (forall t :: t in d.cols ==> SelfContained(t, ColumnsFor(d, t), KeysFor(d, t), LinksFor(d, t)))
    && (forall i :: 0 <= i < |tables| ==> tables[i].refs == set l | l in LinksFor(d, tables[i].name) :: l.parent)
    && (forall n :: n in d.indexes ==> d.indexes[n].on in d.cols && Mentions(d.indexes[n].key) <= ColumnsFor(d, d.indexes[n].on).Keys)
    && (forall n :: n in d.order <==> n in d.indexes)
  }

  /** The tables that are there have all their declared columns. */
  ghost predicate HasDeclared(s: State, d: Declared) {
    forall t :: t in s.tables ==> ColumnsFor(d, t).Keys <= s.tables[t].cols.Keys
  }

  // ---------- the database once the tables are there ----------

  function NewLinks(s: State, d: Declared, names: set<Name>): set<Link> {
    set t, l | t in names && t !in s.tables && l in LinksFor(d, t) :: l
  }

  function CompletedTables(s: State, d: Declared, names: set<Name>): Database {
    map t | t in s.tables.Keys + names :: if t in s.tables then s.tables[t] else Table(ColumnsFor(d, t), [])
  }

  function CompletedKeys(s: State, d: Declared, names: set<Name>): map<Name, set<Key>> {
    map t | t in s.keys.Keys + names :: if t in s.keys then s.keys[t] else KeysFor(d, t)
  }

  function UniquesOf(d: Declared, t: Name): set<Name> {
    set n | n in d.indexes && UniqueOn(d, n, t)
  }

  function UniquesAmong(d: Declared, names: set<Name>): set<Name> {
    set n | n in d.indexes && d.indexes[n].unique && d.indexes[n].on in names
  }

  function MoreIndexes(indexes: map<Name, Indexed>, d: Declared, names: set<Name>): map<Name, Indexed> {
    map n | n in indexes.Keys + names :: if n in indexes then indexes[n] else IndexOf(d, n)
  }

  function Completed(s: State, d: Declared, names: set<Name>): State {
    State(CompletedTables(s, d, names),
          CompletedKeys(s, d, names),
          MoreIndexes(s.indexes, d, UniquesAmong(d, names)),
          s.links + NewLinks(s, d, names))
  }

  /** The foreign key of a missing table finds a key over the columns it references. */
  predicate KeyAvailable(s: State, d: Declared, l: Link) {
    exists k :: k in (if l.parent == l.child then KeysFor(d, l.child) else KeysOn(Completed(s, d, {l.parent}), l.parent)) && IsTarget(k, l)
  }

  /** No two rows of an existing table have the key of a missing unique index. */
  predicate IndexFits(s: State, d: Declared, n: Name) {
    n in s.indexes || IndexOf(d, n).on !in s.tables || !Repeats(s.tables[IndexOf(d, n).on].rows, IndexOf(d, n).key)
  }

  ghost predicate TableFits(s: State, d: Declared, t: Name) {
    && (t !in s.tables ==> forall l :: l in LinksFor(d, t) ==> KeyAvailable(s, d, l))
    && (forall n :: UniqueOn(d, n, t) ==> IndexFits(s, d, n))
  }

  // ---------- one table ----------

  function WithIndexes(s: State, d: Declared, names: set<Name>): State {
    s.(indexes := MoreIndexes(s.indexes, d, names))
  }

  /** The index is declared, and its table has its columns. */
  ghost predicate Buildable(s: State, d: Declared, n: Name) {
    n in d.indexes && IndexOf(d, n).on in s.tables && Mentions(IndexOf(d, n).key) <= s.tables[IndexOf(d, n).on].cols.Keys
  }

  lemma MoreIndexesStep(indexes: map<Name, Indexed>, d: Declared, n: Name, rest: set<Name>)
    ensures MoreIndexes(if n in indexes then indexes else indexes[n := IndexOf(d, n)], d, rest) == MoreIndexes(indexes, d, {n} + rest)
  {
  }

  ghost predicate AllIndexesFit(s: State, d: Declared, names: seq<Name>) {
    forall n :: n in names && IndexOf(d, n).unique ==> IndexFits(s, d, n)
  }

  lemma FitsStep(s: State, d: Declared, names: seq<Name>)
    requires names != [] && forall n :: n in names ==> Buildable(s, d, n)
    ensures var next := RunIndex(s, names[0], IndexOf(d, names[0]));
            && (next.Reached? <==> (IndexOf(d, names[0]).unique ==> IndexFits(s, d, names[0])))
            && (next.Reached? ==>
                  && (forall n :: n in names[1..] ==> Buildable(next.state, d, n))
                  && (AllIndexesFit(s, d, names) <==> AllIndexesFit(next.state, d, names[1..])))
  {
    var n, rest := names[0], names[1..];
    assert names == [n] + rest && n in names && Buildable(s, d, n);
    var next := RunIndex(s, n, IndexOf(d, n));
    if next.Reached? {
      forall m | m in rest && IndexOf(d, m).unique
        ensures IndexFits(next.state, d, m) <==> IndexFits(s, d, m)
      {
        assert m == n ==> IndexFits(s, d, n) && n in next.state.indexes;
      }
      assert forall m :: m in names <==> m == n || m in rest;
    }
  }

  lemma {:induction false} IndexesRunIff(s: State, d: Declared, names: seq<Name>)
    requires forall n :: n in names ==> Buildable(s, d, n)
    ensures ExecAll(s, IndexStatements(d, names)) ==
            if AllIndexesFit(s, d, names) then Reached(WithIndexes(s, d, Elems(names))) else Aborted
    decreases |names|
  {
    if names == [] {
      assert MoreIndexes(s.indexes, d, {}) == s.indexes && Elems(names) == {};
    } else {
      var n, rest := names[0], names[1..];
      FitsStep(s, d, names);
      assert n in names && IndexStatements(d, names)[1..] == IndexStatements(d, rest);
      var next := RunIndex(s, n, IndexOf(d, n));
      if next.Reached? {
        IndexesRunIff(next.state, d, rest);
        MoreIndexesStep(s.indexes, d, n, Elems(rest));
        assert Elems(names) == {n} + Elems(rest);
      } else {
        assert !AllIndexesFit(s, d, names);
      }
    }
  }

  function UniqueKeys(indexes: map<Name, Indexed>, t: Name): set<Key> {
    set n | n in indexes && indexes[n].on == t && indexes[n].unique :: indexes[n].key
  }

  lemma UniqueKeysAmong(indexes: map<Name, Indexed>, d: Declared, names: set<Name>, t: Name)
    requires t in names
    ensures UniqueKeys(MoreIndexes(indexes, d, UniquesAmong(d, names)), t) == UniqueKeys(MoreIndexes(indexes, d, UniquesAmong(d, {t})), t)
  {
    var a, b := MoreIndexes(indexes, d, UniquesAmong(d, names)), MoreIndexes(indexes, d, UniquesAmong(d, {t}));
    forall n
      ensures (n in a && a[n].on == t) <==> (n in b && b[n].on == t)
      ensures n in a && n in b ==> a[n] == b[n]
    {
    }
  }

  /** Whatever else has been completed, the keys of a completed table are the same. */
  lemma CompletedKeysOn(s: State, d: Declared, names: set<Name>, t: Name)
    requires t in names
    ensures KeysOn(Completed(s, d, names), t) == KeysOn(Completed(s, d, {t}), t)
  {
    var a, b := Completed(s, d, names), Completed(s, d, {t});
    UniqueKeysAmong(s.indexes, d, names, t);
    assert a.keys[t] == b.keys[t];
    assert KeysOn(a, t) == a.keys[t] + UniqueKeys(a.indexes, t);
    assert KeysOn(b, t) == b.keys[t] + UniqueKeys(b.indexes, t);
  }

  lemma LinksReferencable(s: State, d: Declared, done: set<Name>, t: TableDef, tables: seq<TableDef>)
    requires Anchored(s) && Coherent(d, tables) && t in tables && t.refs - {t.name} <= done
    ensures forall l :: l in LinksFor(d, t.name) ==> (Referencable(Completed(s, d, done), KeysFor(d, t.name), l) <==> KeyAvailable(s, d, l))
  {
    forall l | l in LinksFor(d, t.name)
      ensures Referencable(Completed(s, d, done), KeysFor(d, t.name), l) <==> KeyAvailable(s, d, l)
    {
      assert t.name in d.cols && l.child == t.name && l.parent in t.refs by {
        var i :| 0 <= i < |tables| && tables[i] == t;
        assert Names(tables)[i] == t.name;
      }
      if l.parent != l.child {
        CompletedKeysOn(s, d, done, l.parent);
      }
    }
  }

  /** CREATE TABLE on its own. */
  lemma CreateRunsIff(s: State, d: Declared, done: set<Name>, t: TableDef, tables: seq<TableDef>)
    requires Lawful(s) && Coherent(d, tables) && t in tables && t.refs - {t.name} <= done && t.name !in done
    ensures var x := Completed(s, d, done);
            RunStatement(x, CreateStatement(d, t)) ==
            if t.name !in s.tables && exists l :: l in LinksFor(d, t.name) && !KeyAvailable(s, d, l) then Aborted
            else Reached(WithTable(x, s, d, t.name))
  {
    LinksReferencable(s, d, done, t, tables);
    var x := Completed(s, d, done);
    assert t.name in x.tables <==> t.name in s.tables;
  }

  /** `x` with the table, unless the database `s` that the section started from has it. */
  function WithTable(x: State, s: State, d: Declared, t: Name): State {
    if t in s.tables then x
    else State(x.tables[t := Table(ColumnsFor(d, t), [])], x.keys[t := KeysFor(d, t)], x.indexes, x.links + LinksFor(d, t))
  }

  lemma LinksNext(s: State, d: Declared, done: set<Name>, t: Name)
    ensures NewLinks(s, d, done + {t}) == NewLinks(s, d, done) + if t in s.tables then {} else LinksFor(d, t)
  {
  }

  lemma TablesNext(s: State, d: Declared, done: set<Name>, t: Name)
    requires t !in done
    ensures CompletedTables(s, d, done + {t}) ==
            if t in s.tables then CompletedTables(s, d, done) else CompletedTables(s, d, done)[t := Table(ColumnsFor(d, t), [])]
  {
  }

  lemma KeysNext(s: State, d: Declared, done: set<Name>, t: Name)
    requires t !in done
    ensures CompletedKeys(s, d, done + {t}) ==
            if t in s.keys then CompletedKeys(s, d, done) else CompletedKeys(s, d, done)[t := KeysFor(d, t)]
  {
  }

  lemma UniquesNext(indexes: map<Name, Indexed>, d: Declared, done: set<Name>, t: Name)
    ensures MoreIndexes(MoreIndexes(indexes, d, UniquesAmong(d, done)), d, UniquesOf(d, t)) == MoreIndexes(indexes, d, UniquesAmong(d, done + {t}))
  {
    assert UniquesAmong(d, done + {t}) == UniquesAmong(d, done) + UniquesOf(d, t);
  }

  lemma CompletedNext(s: State, d: Declared, done: set<Name>, t: Name)
    requires Anchored(s) && t !in done
    ensures WithIndexes(WithTable(Completed(s, d, done), s, d, t), d, UniquesOf(d, t)) == Completed(s, d, done + {t})
  {
    TablesNext(s, d, done, t);
    KeysNext(s, d, done, t);
    LinksNext(s, d, done, t);
    UniquesNext(s.indexes, d, done, t);
  }

  lemma TableRunsIff(s: State, d: Declared, done: set<Name>, t: TableDef, tables: seq<TableDef>)
    requires Lawful(s) && Coherent(d, tables) && HasDeclared(s, d)
    requires t in tables && t.refs - {t.name} <= done && t.name !in done
    ensures ExecAll(Completed(s, d, done), TableStatements(d, t)) ==
            if TableFits(s, d, t.name) then Reached(Completed(s, d, done + {t.name})) else Aborted
  {
    var x, names := Completed(s, d, done), UniquesIn(d, d.order, t.name);
    UniquesInAre(d, d.order, t.name);
    CreateRunsIff(s, d, done, t, tables);
    assert TableStatements(d, t)[1..] == IndexStatements(d, names) && TableStatements(d, t)[0] == CreateStatement(d, t);
    UniquesAfterCreate(s, d, done, t, tables);
    UniquesRunIff(WithTable(x, s, d, t.name), s, d, t.name);
    CompletedNext(s, d, done, t.name);
  }

  /** The unique indexes of a table that is there by now. */
  lemma UniquesRunIff(y: State, s: State, d: Declared, t: Name)
    requires forall n :: n in d.order <==> n in d.indexes
    requires forall n :: UniqueOn(d, n, t) ==> Buildable(y, d, n) && (IndexFits(y, d, n) <==> IndexFits(s, d, n))
    ensures ExecAll(y, IndexStatements(d, UniquesIn(d, d.order, t))) ==
            if forall n :: UniqueOn(d, n, t) ==> IndexFits(s, d, n) then Reached(WithIndexes(y, d, UniquesOf(d, t))) else Aborted
  {
    var names := UniquesIn(d, d.order, t);
    UniquesInAre(d, d.order, t);
    IndexesRunIff(y, d, names);
    assert Elems(names) == UniquesOf(d, t);
    assert AllIndexesFit(y, d, names) <==> forall n :: UniqueOn(d, n, t) ==> IndexFits(s, d, n);
  }

  lemma UniquesAfterCreate(s: State, d: Declared, done: set<Name>, t: TableDef, tables: seq<TableDef>)
    requires Coherent(d, tables) && HasDeclared(s, d) && t in tables && t.name !in done
    ensures var y := WithTable(Completed(s, d, done), s, d, t.name);
            forall n :: UniqueOn(d, n, t.name) ==> Buildable(y, d, n) && (IndexFits(y, d, n) <==> IndexFits(s, d, n))
  {
    var y := WithTable(Completed(s, d, done), s, d, t.name);
    assert t.name in y.tables && ColumnsFor(d, t.name).Keys <= y.tables[t.name].cols.Keys;
    forall n | UniqueOn(d, n, t.name)
      ensures Buildable(y, d, n) && (IndexFits(y, d, n) <==> IndexFits(s, d, n))
    {
      assert t.name !in s.tables ==> y.tables[t.name].rows == [];
    }
  }

  // ---------- the whole section ----------

  ghost predicate RefsMet(done: set<Node>, rest: seq<TableDef>)
    decreases |rest|
  {
    rest == [] || (rest[0].refs - {rest[0].name} <= done && RefsMet(done + {rest[0].name}, rest[1..]))
  }

  // ---------- references and cycles ----------

  /** Every reference is to a table of the schema. */
  ghost predicate AllKnown(tables: seq<TableDef>) {
    forall i :: 0 <= i < |tables| ==> tables[i].refs <= Elems(Names(tables))
  }

  lemma {:induction false} RefsMetIsOrder(ordered: seq<TableDef>, p: nat)
    requires p <= |ordered|
    ensures RefsMet(Elems(Names(ordered[..p])), ordered[p..]) <==>
              forall i :: p <= i < |ordered| ==> ordered[i].refs - {ordered[i].name} <= Elems(Names(ordered[..i]))
    decreases |ordered| - p
  {
    if p < |ordered| {
      RefsMetIsOrder(ordered, p + 1);
      assert ordered[p..][1..] == ordered[p + 1..] && ordered[p..][0] == ordered[p];
      assert Names(ordered[..p + 1]) == Names(ordered[..p]) + [ordered[p].name];
      assert Elems(Names(ordered[..p + 1])) == Elems(Names(ordered[..p])) + {ordered[p].name};
    }
  }

  /** The order meets every reference exactly when all are known and there is no cycle. */
  lemma OrderMeetsRefsIff(tables: seq<TableDef>, ordered: seq<TableDef>)
    requires NoDup(Names(tables)) && Sorted(tables, ordered)
    ensures RefsMet({}, ordered) <==> Acyclic(DepsOf(tables)) && AllKnown(tables)
  {
    RefsMetIsOrder(ordered, 0);
    assert ordered[..0] == [] && ordered[0..] == ordered && Elems(Names(ordered[..0])) == {};
    if AllKnown(tables) {
      forall i | 0 <= i < |ordered|
        ensures ordered[i].name in DepsOf(tables)
        ensures DepsOf(tables)[ordered[i].name] == ordered[i].refs - {ordered[i].name}
        ensures Names(ordered)[..i] == Names(ordered[..i])
      {
        OrderedIsTable(tables, ordered, i);
        DepsOfTable(tables, ordered[i]);
      }
    } else {
      UnknownIsUnmet(tables, ordered);
    }
  }

  lemma OrderedIsTable(tables: seq<TableDef>, ordered: seq<TableDef>, i: nat)
    requires multiset(ordered) == multiset(tables) && i < |ordered|
    ensures ordered[i] in tables
  {
    assert ordered[i] in multiset(ordered);
  }

  lemma UnknownIsUnmet(tables: seq<TableDef>, ordered: seq<TableDef>)
    requires Sorted(tables, ordered) && !AllKnown(tables)
    ensures exists i :: 0 <= i < |ordered| && !(ordered[i].refs - {ordered[i].name} <= Elems(Names(ordered[..i])))
  {
    var k :| 0 <= k < |tables| && !(tables[k].refs <= Elems(Names(tables)));
    var t := tables[k];
    var r :| r in t.refs && r !in Elems(Names(tables));
    assert t in multiset(ordered);
    var i :| 0 <= i < |ordered| && ordered[i] == t;
    assert Names(ordered)[i] == t.name;
    forall n | n in Names(ordered[..i])
      ensures n in Elems(Names(ordered))
    {
      var j :| 0 <= j < i && Names(ordered[..i])[j] == n;
      assert Names(ordered)[j] == n;
    }
    assert r in ordered[i].refs - {ordered[i].name} && r !in Elems(Names(ordered[..i]));
  }

  lemma DepsOfTable(tables: seq<TableDef>, t: TableDef)
    requires NoDup(Names(tables)) && t in tables && t.refs <= Elems(Names(tables))
    ensures t.name in DepsOf(tables) && DepsOf(tables)[t.name] == t.refs - {t.name}
  {
    DepsFromIsExact(tables, Elems(Names(tables)));
    var k :| 0 <= k < |tables| && tables[k] == t;
    assert t.refs * Elems(Names(tables)) == t.refs;
  }

  // ---------- any lawful database ----------

  ghost predicate AllFit(s: State, d: Declared, ordered: seq<TableDef>) {
    forall i :: 0 <= i < |ordered| ==> TableFits(s, d, ordered[i].name)
  }

  /** What the section needs of the database it starts from, and of the tables still to come. */
  ghost predicate Ordered(s: State, d: Declared, done: set<Name>, ordered: seq<TableDef>, tables: seq<TableDef>) {
    && Lawful(s) && Coherent(d, tables) && HasDeclared(s, d)
    && RefsMet(done, ordered) && (forall t :: t in ordered ==> t in tables)
    && NoDup(Names(ordered)) && done !! Elems(Names(ordered))
  }

  lemma OrderedRest(s: State, d: Declared, done: set<Name>, ordered: seq<TableDef>, tables: seq<TableDef>)
    requires Ordered(s, d, done, ordered, tables) && ordered != []
    ensures ordered[0] in tables && ordered[0].name !in done && ordered[0].refs - {ordered[0].name} <= done
    ensures Ordered(s, d, done + {ordered[0].name}, ordered[1..], tables)
    ensures done + Elems(Names(ordered)) == (done + {ordered[0].name}) + Elems(Names(ordered[1..]))
  {
    NamesCons(ordered);
    assert ordered[0] in ordered && forall u :: u in ordered[1..] ==> u in ordered;
  }

  lemma {:induction false} SectionRunsFrom(s: State, d: Declared, done: set<Name>, ordered: seq<TableDef>, tables: seq<TableDef>)
    requires Ordered(s, d, done, ordered, tables)
    ensures ExecAll(Completed(s, d, done), TableSection(d, ordered)) ==
            if AllFit(s, d, ordered) then Reached(Completed(s, d, done + Elems(Names(ordered)))) else Aborted
    decreases |ordered|
  {
    if ordered == [] {
      assert done + Elems(Names(ordered)) == done;
    } else {
      var t, rest := ordered[0], ordered[1..];
      OrderedRest(s, d, done, ordered, tables);
      TableRunsIff(s, d, done, t, tables);
      ExecAppend(Completed(s, d, done), TableStatements(d, t), TableSection(d, rest));
      SectionRunsFrom(s, d, done + {t.name}, rest, tables);
      AllFitCons(s, d, ordered);
    }
  }

  lemma AllFitCons(s: State, d: Declared, ordered: seq<TableDef>)
    requires ordered != []
    ensures AllFit(s, d, ordered) <==> TableFits(s, d, ordered[0].name) && AllFit(s, d, ordered[1..])
  {
    if TableFits(s, d, ordered[0].name) && AllFit(s, d, ordered[1..]) {
      forall i | 0 <= i < |ordered|
        ensures TableFits(s, d, ordered[i].name)
      {
        assert i > 0 ==> ordered[i] == ordered[1..][i - 1];
      }
    }
  }

  lemma NamesCons(ordered: seq<TableDef>)
    requires ordered != [] && NoDup(Names(ordered))
    ensures NoDup(Names(ordered[1..])) && ordered[0].name !in Elems(Names(ordered[1..]))
    ensures Elems(Names(ordered)) == {ordered[0].name} + Elems(Names(ordered[1..]))
  {
    assert Names(ordered) == [ordered[0].name] + Names(ordered[1..]);
    assert forall i :: 0 <= i < |ordered[1..]| ==> Names(ordered[1..])[i] == Names(ordered)[i + 1];
    forall i | 0 <= i < |ordered[1..]|
      ensures Names(ordered[1..])[i] != ordered[0].name
    {
      assert Names(ordered)[0] != Names(ordered)[i + 1];
    }
  }

  lemma NothingCompleted(s: State, d: Declared)
    ensures Completed(s, d, {}) == s
  {
    var o := Completed(s, d, {});
    assert o.tables == s.tables && o.keys == s.keys && o.indexes == s.indexes && o.links == s.links;
  }

  lemma StartIsOrdered(s: State, d: Declared, tables: seq<TableDef>, ordered: seq<TableDef>)
    requires Lawful(s) && Coherent(d, tables) && HasDeclared(s, d)
    requires Sorted(tables, ordered) && RefsMet({}, ordered)
    ensures Ordered(s, d, {}, ordered, tables) && {} + Elems(Names(ordered)) == d.cols.Keys
  {
    forall t | t in ordered ensures t in tables { assert t in multiset(ordered); }
  }

  /** On any lawful database with the declared columns, the section goes through exactly when each missing
      table finds the keys that its foreign keys reference and no missing unique index meets two rows with
      one key. */
  lemma SectionRunsIff(s: State, d: Declared, tables: seq<TableDef>, ordered: seq<TableDef>)
    requires Lawful(s) && Coherent(d, tables) && HasDeclared(s, d) && NoDup(Names(tables))
    requires Sorted(tables, ordered) && RefsMet({}, ordered)
    ensures ExecAll(s, TableSection(d, ordered)) ==
            if SectionFits(s, d) then Reached(Completed(s, d, d.cols.Keys)) else Aborted
  {
    NothingCompleted(s, d);
    StartIsOrdered(s, d, tables, ordered);
    SectionRunsFrom(s, d, {}, ordered, tables);
    FitsByName(s, d, tables, ordered);
  }

  ghost predicate SectionFits(s: State, d: Declared) {
    && (forall t, l :: t in d.cols && t !in s.tables && l in LinksFor(d, t) ==> KeyAvailable(s, d, l))
    && (forall n :: n in d.indexes && d.indexes[n].unique ==> IndexFits(s, d, n))
  }

  lemma FitsByName(s: State, d: Declared, tables: seq<TableDef>, ordered: seq<TableDef>)
    requires Coherent(d, tables) && Elems(Names(ordered)) == d.cols.Keys
    ensures AllFit(s, d, ordered) <==> SectionFits(s, d)
  {
    if AllFit(s, d, ordered) {
      forall t | t in d.cols
        ensures TableFits(s, d, t)
      {
        var i :| 0 <= i < |ordered| && Names(ordered)[i] == t;
      }
      forall n | n in d.indexes && d.indexes[n].unique
        ensures IndexFits(s, d, n)
      {
        assert UniqueOn(d, n, d.indexes[n].on);
      }
    }
    if SectionFits(s, d) {
      forall i | 0 <= i < |ordered|
        ensures TableFits(s, d, ordered[i].name)
      {
        assert Names(ordered)[i] in Elems(Names(ordered));
      }
    }
  }
}
