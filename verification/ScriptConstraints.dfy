/**
  What the whole script does to keys, indexes and foreign keys: those that were
  there stay, under the new names, but for the obsolete indexes; those that are
  declared of missing tables are added, and the missing indexes; nothing else is.
 */
module ScriptConstraints {
  import opened Catalog
  import opened ConstraintFlow
  import opened Storage
  import opened TableOrder
  import opened Seeds
  import opened Emission
  import opened Ddl
  import opened Rendering
  import opened Upgrade
  import opened Again
  import opened Fresh

  lemma {:induction false} ReplayOnAppend(s: State, a: seq<Rename>, b: seq<Rename>)
    ensures ReplayOn(s, a + b) == ReplayOn(ReplayOn(s, a), b)
    decreases |a|
  {
    if a == [] {
      assert a + b == b;
    } else {
      assert (a + b)[0] == a[0] && (a + b)[1..] == a[1..] + b;
      ReplayOnAppend(ApplyTo(s, a[0]), a[1..], b);
    }
  }

  /** The indexes that are not obsolete. */
  function StillWanted(indexes: map<Name, Indexed>, obsolete: seq<Name>): map<Name, Indexed> {
    map n | n in indexes && n !in obsolete :: indexes[n]
  }

  /** After the evolution block. */
  lemma EvolvedConstraints(s: State, p: Plan) returns (tables: Names, cols: map<Name, Names>)
    requires Lawful(s)
    ensures MovedAlong(s.tables, Evolved(s, p).tables, tables, cols)
    ensures KeysMoved(s.keys, Evolved(s, p).keys, tables, cols) && LinksMoved(s.links, Evolved(s, p).links, tables, cols)
    ensures IndexesMoved(StillWanted(s.indexes, p.obsolete), Evolved(s, p).indexes, tables, cols)
  {
    var w, ops := WithoutIndexes(s, p.obsolete), p.tableRenames + p.columnRenames;
    WithoutIndexesLawful(s, p.obsolete);
    ReplayOnAppend(w, p.tableRenames, p.columnRenames);
    ReplayOnTables(w, ops);
    tables, cols := ReplayMovesConstraints(w, ops);
    assert w.indexes == StillWanted(s.indexes, p.obsolete);
  }

  /** The constraints of `o` are those of the evolved database `e`, with the declared ones of the tables and indexes
      that `e` lacks. */
  ghost predicate Extended(e: State, o: State, d: Declared) {
    && o.keys.Keys == e.tables.Keys + d.cols.Keys
    && (forall t :: t in o.keys ==>
          o.keys[t] == if t in e.keys then e.keys[t] else if t in d.keys then d.keys[t] else {})
    && o.indexes.Keys == e.indexes.Keys + d.indexes.Keys
    && (forall n :: n in o.indexes ==> o.indexes[n] == if n in e.indexes then e.indexes[n] else IndexOf(d, n))
    && (forall l :: l in o.links <==> l in e.links || exists t :: t in d.cols && t !in e.tables && t in d.links && l in d.links[t])
  }

  lemma NewLinksAre(s: State, d: Declared, l: Link)
    ensures l in NewLinks(s, d, d.cols.Keys) <==> exists t :: t in d.cols && t !in s.tables && t in d.links && l in d.links[t]
  {
    if l in NewLinks(s, d, d.cols.Keys) {
      var t :| t in d.cols && t !in s.tables && l in LinksFor(d, t);
      assert t in d.links;
    }
    if t :| t in d.cols && t !in s.tables && t in d.links && l in d.links[t] {
      assert l in LinksFor(d, t);
    }
  }

  lemma IndexesExtended(indexes: map<Name, Indexed>, d: Declared)
    requires forall n :: n in d.order <==> n in d.indexes
    requires forall n :: n in d.indexes ==> d.indexes[n].on in d.cols
    ensures var all := MoreIndexes(MoreIndexes(indexes, d, UniquesAmong(d, d.cols.Keys)), d, Graph.Elems(PlainIn(d, d.order)));
            && all.Keys == indexes.Keys + d.indexes.Keys
            && forall n :: n in all ==> all[n] == if n in indexes then indexes[n] else IndexOf(d, n)
  {
    MoreIndexNames(indexes, d);
  }

  lemma StagesExtend(s: State, p: Plan, tables: seq<TableDef>, ordered: seq<TableDef>)
    requires Lawful(s) && Generated(p, tables, ordered)
    ensures Extended(Evolved(s, p), Indexes(s, p), p.d)
  {
    ReadiedIsLawful(s, p);
    SameTables(s, p);
    CompletedExtends(Evolved(s, p), Repaired(s, p), Indexes(s, p), p.d, tables);
  }

  lemma CompletedExtends(e: State, r: State, x: State, d: Declared, tables: seq<TableDef>)
    requires e.keys.Keys == e.tables.Keys == r.tables.Keys && r.keys == e.keys && r.indexes == e.indexes && r.links == e.links
    requires Coherent(d, tables) && x.keys == CompletedKeys(r, d, d.cols.Keys) && x.links == r.links + NewLinks(r, d, d.cols.Keys)
    requires x.indexes == MoreIndexes(MoreIndexes(r.indexes, d, UniquesAmong(d, d.cols.Keys)), d, Graph.Elems(PlainIn(d, d.order)))
    ensures Extended(e, x, d)
  {
    IndexesExtended(e.indexes, d);
    LinksExtended(e, r, x, d);
  }

  lemma LinksExtended(e: State, r: State, x: State, d: Declared)
    requires e.tables.Keys == r.tables.Keys && r.links == e.links && x.links == r.links + NewLinks(r, d, d.cols.Keys)
    ensures forall l :: l in x.links <==> l in e.links || exists t :: t in d.cols && t !in e.tables && t in d.links && l in d.links[t]
  {
    forall l
      ensures l in x.links <==> l in e.links || exists t :: t in d.cols && t !in e.tables && t in d.links && l in d.links[t]
    {
      NewLinksAre(r, d, l);
    }
  }

  lemma SameTables(s: State, p: Plan)
    requires Lawful(s)
    ensures Repaired(s, p).tables.Keys == Evolved(s, p).tables.Keys
  {
    ReadiedIsLawful(s, p);
    Reconcile.ReconcileKeeps(Evolved(s, p).tables, p.specs);
    AllUpdatedCatalog(Readied(s, p).tables, p.repairs);
  }

  /** The whole script: every key and foreign key that was there, and every index but the obsolete ones, is there
      under the new names; what else is there is declared, of a table or an index that was missing. */
  lemma ScriptKeepsConstraints(s: State, p: Plan, tables: seq<TableDef>, ordered: seq<TableDef>, once: State)
    returns (names: Names, cols: map<Name, Names>)
    requires Ran(s, p, tables, ordered, once)
    ensures MovedAlong(s.tables, Evolved(s, p).tables, names, cols)
    ensures KeysMoved(s.keys, Evolved(s, p).keys, names, cols) && LinksMoved(s.links, Evolved(s, p).links, names, cols)
    ensures IndexesMoved(StillWanted(s.indexes, p.obsolete), Evolved(s, p).indexes, names, cols)
    ensures Extended(Evolved(s, p), once, p.d)
  {
    names, cols := EvolvedConstraints(s, p);
    RanIs(s, p, tables, ordered, once);
    StagesExtend(s, p, tables, ordered);
  }

  /** A fresh database ends with exactly the declared columns, keys, indexes and foreign keys. */
  lemma FreshConstraints(p: Plan, tables: seq<TableDef>, ordered: seq<TableDef>, source: Data)
    requires Generated(p, tables, ordered)
    ensures var o := Dump(p, source);
            && o.tables.Keys == p.d.cols.Keys && (forall t :: t in p.d.cols ==> o.tables[t].cols == p.d.cols[t])
            && o.keys.Keys == p.d.cols.Keys && (forall t :: t in p.d.cols && t in p.d.keys ==> o.keys[t] == p.d.keys[t])
            && o.indexes == p.d.indexes
            && forall l :: l in o.links <==> exists t :: t in p.d.cols && t in p.d.links && l in p.d.links[t]
  {
    EmptyIsLawful();
    PreIsSilent(p);
    StagesExtend(EMPTY, p, tables, ordered);
    FreshColumns(p, source);
    FromNothing(Indexes(EMPTY, p), p.d);
  }

  lemma FreshColumns(p: Plan, source: Data)
    ensures var o := Dump(p, source); o.tables.Keys == p.d.cols.Keys && forall t :: t in p.d.cols ==> o.tables[t].cols == p.d.cols[t]
  {
    EmptyRows(p);
    AllUpdatedCatalog(Equipped(EMPTY, p).tables, p.backfills);
  }

  lemma FromNothing(o: State, d: Declared)
    requires Extended(EMPTY, o, d)
    ensures o.keys.Keys == d.cols.Keys && (forall t :: t in d.cols && t in d.keys ==> o.keys[t] == d.keys[t])
    ensures o.indexes == d.indexes
    ensures forall l :: l in o.links <==> exists t :: t in d.cols && t in d.links && l in d.links[t]
  {
    assert o.indexes.Keys == d.indexes.Keys;
  }
}
