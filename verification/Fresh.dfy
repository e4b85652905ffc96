/**
  The script on a fresh database: it goes through exactly when every reference is to
  a key of a table of the schema and the references have no cycle; then the database
  holds exactly the rows of the dump.
 */
module Fresh {
  import opened Catalog
  import opened Reconcile
  import opened Storage
  import opened Repairs
  import opened Graph
  import opened TableOrder
  import opened Seeds
  import opened Emission
  import opened Ddl
  import opened Rendering
  import opened Upgrade
  import opened Again

  const EMPTY := State(map[], map[], map[], {})

  /** Every foreign key references a key that the dump declares. */
  ghost predicate TargetsDeclared(d: Declared) {
    forall t, l :: t in d.cols && l in LinksFor(d, t) ==> KeyAvailable(EMPTY, d, l)
  }

  lemma EmptyIsLawful()
    ensures Lawful(EMPTY)
  {
  }

  lemma {:induction false} NothingToUpdate(updates: seq<Update>)
    ensures UpdatesFit(EMPTY, updates) && AllUpdated(EMPTY.tables, updates) == map[]
  {
    if updates != [] {
      RunUpdateIs(EMPTY, updates[0]);
      NothingToUpdate(updates[1..]);
    }
  }

  lemma PreIsSilent(p: Plan)
    ensures Evolved(EMPTY, p) == EMPTY && Readied(EMPTY, p) == EMPTY && Repaired(EMPTY, p) == EMPTY
    ensures UpdatesFit(Readied(EMPTY, p), p.repairs)
  {
    NoneObsolete(EMPTY, p.obsolete);
    ReplayOnNothingFires(EMPTY, p.tableRenames);
    ReplayOnNothingFires(EMPTY, p.columnRenames);
    SettledIsFixed(EMPTY.tables, p.specs);
    NothingToUpdate(p.repairs);
  }

  // ---------- the tables ----------

  lemma ReferencesAreThere(d: Declared, done: set<Name>, t: TableDef, tables: seq<TableDef>)
    requires Coherent(d, tables) && t in tables && t.name !in done
    requires RunStatement(Completed(EMPTY, d, done), CreateStatement(d, t)).Reached?
    ensures t.refs - {t.name} <= done
  {
    var x := Completed(EMPTY, d, done);
    assert t.name in d.cols by {
      var i :| 0 <= i < |tables| && tables[i] == t;
      assert Names(tables)[i] == t.name;
    }
    forall r | r in t.refs - {t.name}
      ensures r in done
    {
      var l :| l in LinksFor(d, t.name) && l.parent == r;
      assert l.child == t.name && Referencable(x, KeysFor(d, t.name), l);
      var k :| k in KeysOn(x, r) && IsTarget(k, l);
      KeyedIsDone(d, done, r, k);
    }
  }

  lemma KeyedIsDone(d: Declared, done: set<Name>, r: Name, k: Key)
    requires k in KeysOn(Completed(EMPTY, d, done), r)
    ensures r in done
  {
    var x := Completed(EMPTY, d, done);
    assert x.keys.Keys == done;
    assert forall n :: n in x.indexes ==> n in UniquesAmong(d, done) && x.indexes[n] == IndexOf(d, n);
    assert forall n :: n in x.indexes ==> x.indexes[n].on in done;
  }

  lemma {:induction false} RunningSectionIsOrdered(d: Declared, done: set<Name>, ordered: seq<TableDef>, tables: seq<TableDef>)
    requires Coherent(d, tables) && (forall t :: t in ordered ==> t in tables) && NoDup(Names(ordered)) && done !! Elems(Names(ordered))
    requires ExecAll(Completed(EMPTY, d, done), TableSection(d, ordered)).Reached?
    ensures RefsMet(done, ordered)
    decreases |ordered|
  {
    if ordered != [] {
      var t, rest := ordered[0], ordered[1..];
      NamesCons(ordered);
      assert t in ordered && forall u :: u in rest ==> u in ordered;
      ExecAppend(Completed(EMPTY, d, done), TableStatements(d, t), TableSection(d, rest));
      assert TableStatements(d, t)[0] == CreateStatement(d, t);
      ReferencesAreThere(d, done, t, tables);
      TableRunsIff(EMPTY, d, done, t, tables);
      RunningSectionIsOrdered(d, done + {t.name}, rest, tables);
    }
  }

  lemma FreshSectionFits(d: Declared)
    ensures SectionFits(EMPTY, d) <==> TargetsDeclared(d)
  {
  }

  /** The table section runs on a fresh database exactly when every reference is to a key of a table of the
      schema and the references between different tables have no cycle. */
  lemma FreshSectionRunsIff(d: Declared, tables: seq<TableDef>, ordered: seq<TableDef>)
    requires Coherent(d, tables) && NoDup(Names(tables)) && Sorted(tables, ordered)
    ensures ExecAll(EMPTY, TableSection(d, ordered)) ==
            if Acyclic(DepsOf(tables)) && AllKnown(tables) && TargetsDeclared(d) then Reached(Completed(EMPTY, d, d.cols.Keys)) else Aborted
  {
    OrderMeetsRefsIff(tables, ordered);
    NothingCompleted(EMPTY, d);
    FreshSectionFits(d);
    if RefsMet({}, ordered) {
      SectionRunsIff(EMPTY, d, tables, ordered);
    } else if ExecAll(EMPTY, TableSection(d, ordered)).Reached? {
      forall t | t in ordered ensures t in tables { assert t in multiset(ordered); }
      RunningSectionIsOrdered(d, {}, ordered, tables);
    }
  }

  // ---------- the seeds ----------

  /** What the dump holds, in the state that the script has prepared: the SQLite database itself. */
  function Dump(p: Plan, source: Data): State {
    Loaded(Indexes(EMPTY, p), source, p.d.cols.Keys)
  }

  lemma EmptyRows(p: Plan)
    ensures forall t :: RowsIn(Equipped(EMPTY, p).tables, t) == []
    ensures Equipped(EMPTY, p) == Completed(EMPTY, p.d, p.d.cols.Keys) && Equipped(EMPTY, p).tables.Keys == p.d.cols.Keys
  {
    PreIsSilent(p);
  }

  lemma EmptyIsIdle(tables: Database, updates: seq<Update>)
    requires forall t :: RowsIn(tables, t) == []
    ensures AllIdle(updates, tables)
  {
    forall u | u in updates ensures Idle(u, tables) {
      assert RowsIn(tables, TableOf(u)) == [] && |NewRows(u, tables)| == 0;
    }
  }

  lemma BackfillsDeclared(p: Plan, tables: seq<TableDef>)
    requires Dumped(p, tables)
    ensures forall u, n :: u in p.backfills && n in Needs(u) ==> n.1 in ColumnsFor(p.d, n.0)
  {
    assert forall u :: u in p.backfills ==> u in p.repairs + p.backfills;
  }

  lemma NothingToBackfill(p: Plan, tables: seq<TableDef>, ordered: seq<TableDef>)
    requires Generated(p, tables, ordered) && Lawful(Equipped(EMPTY, p))
    ensures UpdatesFit(Equipped(EMPTY, p), p.backfills)
    ensures Indexes(EMPTY, p).tables == Equipped(EMPTY, p).tables
  {
    EmptyRows(p);
    EmptyIsLawful();
    EquippedHasTables(EMPTY, p, tables, ordered);
    EmptyIsIdle(Equipped(EMPTY, p).tables, p.backfills);
    BackfillsDeclared(p, tables);
    IdleRuns(Equipped(EMPTY, p), p.backfills, p.d);
  }

  lemma UnloadedIs(s: State, source: Data)
    requires forall t :: RowsIn(s.tables, t) == []
    ensures Loaded(s, source, {}) == s
  {
    forall t | t in s.tables
      ensures Loaded(s, source, {}).tables[t] == s.tables[t]
    {
      assert RowsIn(s.tables, t) == [];
    }
    assert Loaded(s, source, {}).tables == s.tables;
  }

  lemma EmptyIsUnloaded(p: Plan, tables: seq<TableDef>, ordered: seq<TableDef>, source: Data)
    requires Generated(p, tables, ordered) && Lawful(Equipped(EMPTY, p))
    ensures Loaded(Indexes(EMPTY, p), source, {}) == Indexes(EMPTY, p)
  {
    EmptyRows(p);
    NothingToBackfill(p, tables, ordered);
    UnloadedIs(Indexes(EMPTY, p), source);
  }

  lemma OrderFeeds(d: Declared, tables: seq<TableDef>, ordered: seq<TableDef>, links: set<Link>, i: nat)
    requires Coherent(d, tables) && i < |ordered| && ordered[i] in tables && links == NewLinks(EMPTY, d, d.cols.Keys)
    requires ordered[i].refs - {ordered[i].name} <= Elems(Names(ordered[..i]))
    ensures Fed(links, Names(ordered)[i], Elems(Names(ordered)[..i + 1]))
  {
    var names := Names(ordered);
    assert Names(ordered[..i]) == names[..i] && names[..i + 1] == names[..i] + [names[i]];
    assert Elems(names[..i + 1]) == Elems(names[..i]) + {names[i]};
    forall l | l in links && l.child == names[i]
      ensures l.parent in Elems(names[..i + 1])
    {
      DeclaredLink(d, tables, ordered[i], l);
      assert l.parent in ordered[i].refs;
    }
  }

  lemma DeclaredLink(d: Declared, tables: seq<TableDef>, t: TableDef, l: Link)
    requires Coherent(d, tables) && t in tables && l in NewLinks(EMPTY, d, d.cols.Keys) && l.child == t.name
    ensures l.parent in t.refs
  {
    var u :| u in d.cols && l in LinksFor(d, u);
    assert u == t.name;
  }

  lemma LinksAreDeclared(d: Declared, tables: seq<TableDef>, ordered: seq<TableDef>)
    requires Coherent(d, tables) && multiset(ordered) == multiset(tables) && RefsMet({}, ordered)
    ensures FedInOrder(NewLinks(EMPTY, d, d.cols.Keys), Names(ordered), |ordered|)
  {
    RefsMetIsOrder(ordered, 0);
    assert ordered[..0] == [] && ordered[0..] == ordered && Elems(Names(ordered[..0])) == {};
    forall i | 0 <= i < |ordered|
      ensures Fed(NewLinks(EMPTY, d, d.cols.Keys), Names(ordered)[i], Elems(Names(ordered)[..i + 1]))
    {
      OrderedIsTable(tables, ordered, i);
      OrderFeeds(d, tables, ordered, NewLinks(EMPTY, d, d.cols.Keys), i);
    }
  }

  lemma LinksOfEmpty(p: Plan)
    ensures Indexes(EMPTY, p).links == NewLinks(EMPTY, p.d, p.d.cols.Keys)
  {
    EmptyRows(p);
    assert EMPTY.links + NewLinks(EMPTY, p.d, p.d.cols.Keys) == NewLinks(EMPTY, p.d, p.d.cols.Keys);
  }

  lemma SeedsLoadAll(p: Plan, tables: seq<TableDef>, ordered: seq<TableDef>, source: Data)
    requires Generated(p, tables, ordered) && Lawful(Equipped(EMPTY, p)) && Lawful(Dump(p, source))
    requires p.seeds == SeedsFor(source, Names(ordered))
    ensures RunInserts(Indexes(EMPTY, p), p.seeds) == Reached(Dump(p, source))
  {
    var i, names := Indexes(EMPTY, p), Names(ordered);
    EmptyRows(p);
    NothingToBackfill(p, tables, ordered);
    EmptyIsUnloaded(p, tables, ordered, source);
    LinksOfEmpty(p);
    LinksAreDeclared(p.d, tables, ordered);
    LoadAll(i, source, names);
  }

  lemma LoadAll(s: State, source: Data, names: seq<Name>)
    requires NoDup(names) && Elems(names) == s.tables.Keys && FedInOrder(s.links, names, |names|)
    requires Lawful(Loaded(s, source, s.tables.Keys)) && Loaded(s, source, {}) == s
    ensures RunInserts(s, SeedsFor(source, names)) == Reached(Loaded(s, source, s.tables.Keys))
  {
    assert names[..|names|] == names;
    SeedsLoad(s, source, names, |names|);
  }

  lemma EquippedIsLawful(p: Plan, tables: seq<TableDef>, ordered: seq<TableDef>)
    requires Generated(p, tables, ordered) && TargetsDeclared(p.d)
    ensures Lawful(Equipped(EMPTY, p))
  {
    EmptyIsLawful();
    EmptyRows(p);
    FreshSectionFits(p.d);
    SectionRunsIff(EMPTY, p.d, tables, ordered);
    forall t | t in ordered ensures t in tables { assert t in multiset(ordered); }
    forall stmt | stmt in TableSection(p.d, ordered)
      ensures Sensible(stmt)
    {
      SectionIsSensible(p.d, ordered, tables, stmt);
    }
    ScriptKeepsLawful(EMPTY, TableSection(p.d, ordered));
  }

  /** A fresh database takes the whole script exactly when every reference is to a key of a known table and
      there is no cycle; it then holds exactly the rows of the dump, whose own keys and foreign keys hold. */
  lemma FreshScriptRunsIff(p: Plan, tables: seq<TableDef>, ordered: seq<TableDef>, source: Data)
    requires Dumped(p, tables) && Sorted(tables, ordered) && p.seeds == SeedsFor(source, Names(ordered)) && Lawful(Dump(p, source))
    ensures ExecAll(EMPTY, ScriptOf(p, ordered)) ==
            if Acyclic(DepsOf(tables)) && AllKnown(tables) && TargetsDeclared(p.d) then Reached(Dump(p, source)) else Aborted
  {
    EmptyIsLawful();
    PreIsSilent(p);
    PreRunsIff(EMPTY, p);
    ExecAppend(EMPTY, Pre(p), TableSection(p.d, ordered) + Post(p));
    ExecAppend(EMPTY, TableSection(p.d, ordered), Post(p));
    FreshSectionRunsIff(p.d, tables, ordered);
    if Acyclic(DepsOf(tables)) && AllKnown(tables) && TargetsDeclared(p.d) {
      OrderMeetsRefsIff(tables, ordered);
      EquippedIsLawful(p, tables, ordered);
      NothingToBackfill(p, tables, ordered);
      SeedsLoadAll(p, tables, ordered, source);
      FreshSectionFits(p.d);
      ScriptRunsIff(EMPTY, p, tables, ordered);
    }
  }
}
