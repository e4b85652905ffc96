/**
  `render` of scripts/generate-pg-migration.py: the statements of the script and
  their order.
 */
module Rendering {
  import opened Sequences
  import opened Catalog
  import opened Reconcile
  import opened Storage
  import opened Repairs
  import opened Graph
  import opened TableOrder
  import opened Seeds
  import opened Emission
  import opened Ddl

  /** What the script is made from, besides the order of the tables. */
  datatype Plan = Plan(obsolete: seq<Name>, tableRenames: seq<Rename>, columnRenames: seq<Rename>, specs: seq<Spec>,
                       repairs: seq<Update>, d: Declared, backfills: seq<Update>, triggers: seq<(Name, Name)>,
                       seeds: seq<Insert>, secured: seq<Name>)

  function Drops(names: seq<Name>): seq<Statement> {
    seq(|names|, i requires 0 <= i < |names| => DropIndex(names[i]))
  }

  function Blocks(updates: seq<Update>): seq<Statement> {
    seq(|updates|, i requires 0 <= i < |updates| => Repair(updates[i]))
  }

  function Triggers(triggers: seq<(Name, Name)>): seq<Statement> {
    seq(|triggers|, i requires 0 <= i < |triggers| => Trigger(triggers[i].0, triggers[i].1))
  }

  function Inserts(seeds: seq<Insert>): seq<Statement> {
    seq(|seeds|, i requires 0 <= i < |seeds| => Seed(seeds[i]))
  }

  /** The indexes that are not unique, by name. */
  function PlainIn(d: Declared, order: seq<Name>): seq<Name> {
    if order == [] then []
    else (if order[0] in d.indexes && !d.indexes[order[0]].unique then [order[0]] else []) + PlainIn(d, order[1..])
  }

  /** The blocks before the tables, each guarded on what exists. */
  function Pre(p: Plan): seq<Statement> {
    Drops(p.obsolete) + ([Evolution(p.tableRenames, p.columnRenames), Reconciliation(p.specs)] + Blocks(p.repairs))
  }

  function Post(p: Plan): seq<Statement> {
    Blocks(p.backfills)
    + (Triggers(p.triggers) + (IndexStatements(p.d, PlainIn(p.d, p.d.order)) + (Inserts(p.seeds) + [RowSecurity(p.secured)])))
  }

  function ScriptOf(p: Plan, ordered: seq<TableDef>): seq<Statement> {
    Pre(p) + (TableSection(p.d, ordered) + Post(p))
  }

  // ---------- the loops ----------

  function ListOf(lists: map<Name, seq<Name>>, t: Name): seq<Name> {
    if t in lists then lists[t] else []
  }

  ghost predicate Listed(lists: map<Name, seq<Name>>, d: Declared, rest: seq<Name>) {
    forall t :: ListOf(lists, t) + UniquesIn(d, rest, t) == UniquesIn(d, d.order, t)
  }

  lemma ListNext(lists: map<Name, seq<Name>>, d: Declared, rest: seq<Name>)
    requires rest != [] && Listed(lists, d, rest) && rest[0] in d.indexes
    ensures var n := rest[0];
            var t := d.indexes[n].on;
            Listed(if d.indexes[n].unique then lists[t := ListOf(lists, t) + [n]] else lists, d, rest[1..])
  {
    var n := rest[0];
    forall t
      ensures ListOf(lists, t) + UniquesIn(d, rest, t) ==
              (ListOf(lists, t) + if UniqueOn(d, n, t) then [n] else []) + UniquesIn(d, rest[1..], t)
    {
      Regroup(ListOf(lists, t), if UniqueOn(d, n, t) then [n] else [], UniquesIn(d, rest[1..], t));
    }
  }

  lemma PlainNext(plain: seq<Name>, d: Declared, rest: seq<Name>)
    requires rest != [] && rest[0] in d.indexes
    ensures plain + PlainIn(d, rest) == (if d.indexes[rest[0]].unique then plain else plain + [rest[0]]) + PlainIn(d, rest[1..])
  {
    Regroup(plain, [rest[0]], PlainIn(d, rest[1..]));
  }

  /** The loop over the dumped indexes: unique ones go to their table, the others to a list. */
  method SplitIndexes(d: Declared) returns (uniques: map<Name, seq<Name>>, plain: seq<Name>)
    requires forall n :: n in d.order ==> n in d.indexes
    ensures forall t :: ListOf(uniques, t) == UniquesIn(d, d.order, t)
    ensures plain == PlainIn(d, d.order)
  {
    uniques, plain := map[], [];
    assert d.order[0..] == d.order;
    for i := 0 to |d.order|
      invariant Listed(uniques, d, d.order[i..])
      invariant plain + PlainIn(d, d.order[i..]) == PlainIn(d, d.order)
    {
      var n := d.order[i];
      assert d.order[i..][0] == n && d.order[i..][1..] == d.order[i + 1..] && n in d.order;
      ListNext(uniques, d, d.order[i..]);
      PlainNext(plain, d, d.order[i..]);
      if d.indexes[n].unique {
        uniques := uniques[d.indexes[n].on := ListOf(uniques, d.indexes[n].on) + [n]];
      } else {
        plain := plain + [n];
      }
    }
    assert d.order[|d.order|..] == [];
  }

  method RenderIndexes(before: seq<Statement>, d: Declared, names: seq<Name>) returns (out: seq<Statement>)
    ensures out == before + IndexStatements(d, names)
  {
    out := before;
    for k := 0 to |names|
      invariant out == before + IndexStatements(d, names[..k])
    {
      out := out + [BuildIndex(names[k], IndexOf(d, names[k]))];
    }
    assert names[..|names|] == names;
  }

  /** The loop of `render` that emits the tables. */
  method RenderTables(before: seq<Statement>, d: Declared, uniques: map<Name, seq<Name>>, ordered: seq<TableDef>)
    returns (out: seq<Statement>)
    requires forall t :: ListOf(uniques, t) == UniquesIn(d, d.order, t)
    ensures out == before + TableSection(d, ordered)
  {
    out := before;
    for i := 0 to |ordered|
      invariant out + TableSection(d, ordered[i..]) == before + TableSection(d, ordered)
    {
      var t := ordered[i];
      assert ordered[i..][1..] == ordered[i + 1..] && ordered[i..][0] == t;
      Regroup(out, TableStatements(d, t), TableSection(d, ordered[i + 1..]));
      Regroup(out, [CreateStatement(d, t)], IndexStatements(d, UniquesIn(d, d.order, t.name)));
      out := RenderIndexes(out + [CreateStatement(d, t)], d, ListOf(uniques, t.name));
    }
    assert ordered[|ordered|..] == [];
  }

  method RenderPre(p: Plan) returns (out: seq<Statement>)
    ensures out == Pre(p)
  {
    out := [];
    for i := 0 to |p.obsolete|
      invariant out == Drops(p.obsolete[..i])
    {
      out := out + [DropIndex(p.obsolete[i])];
    }
    assert p.obsolete[..|p.obsolete|] == p.obsolete;
    out := out + [Evolution(p.tableRenames, p.columnRenames), Reconciliation(p.specs)];
    var repairs := RenderBlocks(p.repairs);
    Regroup(Drops(p.obsolete), [Evolution(p.tableRenames, p.columnRenames), Reconciliation(p.specs)], Blocks(p.repairs));
    out := out + repairs;
  }

  method RenderBlocks(updates: seq<Update>) returns (out: seq<Statement>)
    ensures out == Blocks(updates)
  {
    out := [];
    for i := 0 to |updates|
      invariant out == Blocks(updates[..i])
    {
      out := out + [Repair(updates[i])];
    }
    assert updates[..|updates|] == updates;
  }

  method RenderPost(p: Plan, plain: seq<Name>) returns (out: seq<Statement>)
    requires plain == PlainIn(p.d, p.d.order)
    ensures out == Post(p)
  {
    var backfills := RenderBlocks(p.backfills);
    var triggers: seq<Statement> := [];
    for i := 0 to |p.triggers|
      invariant triggers == Triggers(p.triggers[..i])
    {
      triggers := triggers + [Trigger(p.triggers[i].0, p.triggers[i].1)];
    }
    assert p.triggers[..|p.triggers|] == p.triggers;
    var indexes := RenderIndexes([], p.d, plain);
    assert indexes == IndexStatements(p.d, plain);
    var seeds: seq<Statement> := [];
    for i := 0 to |p.seeds|
      invariant seeds == Inserts(p.seeds[..i])
    {
      seeds := seeds + [Seed(p.seeds[i])];
    }
    assert p.seeds[..|p.seeds|] == p.seeds;
    out := backfills + (triggers + (indexes + (seeds + [RowSecurity(p.secured)])));
  }

  // ---------- render ----------

  /** The script: the guarded blocks, each table with its unique indexes in the order of `topo_sort`, then
      backfills, triggers, indexes, the seeds in the same order, and row security. */
  method Render(tables: seq<TableDef>, source: Data, q: Plan) returns (out: seq<Statement>, ordered: seq<TableDef>, p: Plan)
    requires NoDup(Names(tables)) && forall n :: n in q.d.order ==> n in q.d.indexes
    ensures Sorted(tables, ordered)
    ensures p == q.(seeds := SeedsFor(source, Names(ordered))) && out == ScriptOf(p, ordered)
  {
    ordered := TopoSort(tables);
    var uniques, plain := SplitIndexes(q.d);
    var seeds := DumpSeeds(source, Names(ordered));
    p := q.(seeds := seeds);
    var pre := RenderPre(p);
    var post := RenderPost(p, plain);
    out := RenderTables(pre, p.d, uniques, ordered);
    Regroup(pre, TableSection(p.d, ordered), post);
    out := out + post;
  }

  // ---------- positions ----------

  /** The CREATE TABLE and every unique index of `r` are among the statements. */
  ghost predicate Emitted(out: seq<Statement>, d: Declared, r: Name) {
    && (exists stmt :: stmt in out && stmt.Create? && stmt.table.name == r)
    && (forall n :: n in d.order && UniqueOn(d, n, r) ==> BuildIndex(n, d.indexes[n]) in out)
  }

  lemma AlsoEmitted(d: Declared, t: TableDef, done: set<Name>, before: seq<Statement>)
    requires forall r :: r in done ==> Emitted(before, d, r)
    ensures forall r :: r in done + {t.name} ==> Emitted(before + TableStatements(d, t), d, r)
  {
    var stmts := TableStatements(d, t);
    var names := UniquesIn(d, d.order, t.name);
    UniquesInAre(d, d.order, t.name);
    assert stmts[0] in before + stmts && stmts[0].Create? && stmts[0].table.name == t.name;
    forall n | n in d.order && UniqueOn(d, n, t.name)
      ensures BuildIndex(n, d.indexes[n]) in before + stmts
    {
      var i :| 0 <= i < |names| && names[i] == n;
      assert stmts[i + 1] == BuildIndex(n, d.indexes[n]);
      assert stmts[i + 1] in stmts;
    }
    forall r | r in done
      ensures Emitted(before + stmts, d, r)
    {
      assert Emitted(before, d, r);
      assert forall stmt :: stmt in before ==> stmt in before + stmts;
    }
  }

  /** A CREATE TABLE of the section comes after those of the other tables it references, and their indexes. */
  lemma {:induction false} FollowsReferences(d: Declared, ordered: seq<TableDef>, done: set<Name>, before: seq<Statement>, i: nat)
    requires RefsMet(done, ordered) && (forall r :: r in done ==> Emitted(before, d, r))
    requires i < |TableSection(d, ordered)| && TableSection(d, ordered)[i].Create?
    ensures var t := TableSection(d, ordered)[i].table;
            forall r :: r in t.refs - {t.name} ==> Emitted(before + TableSection(d, ordered)[..i], d, r)
    decreases |ordered|
  {
    var t, rest := ordered[0], ordered[1..];
    var mine, others := TableStatements(d, t), TableSection(d, rest);
    if i == 0 {
      assert before + TableSection(d, ordered)[..0] == before;
    } else {
      assert forall k :: 0 < k < |mine| ==> !mine[k].Create?;
      AlsoEmitted(d, t, done, before);
      FollowsReferences(d, rest, done + {t.name}, before + mine, i - |mine|);
      assert TableSection(d, ordered)[..i] == mine + others[..i - |mine|];
      Regroup(before, mine, others[..i - |mine|]);
    }
  }

  /** In the whole script, on a schema whose references are known and have no cycle. */
  lemma CreateFollowsItsReferences(p: Plan, tables: seq<TableDef>, ordered: seq<TableDef>, i: nat)
    requires NoDup(Names(tables)) && Sorted(tables, ordered) && RefsMet({}, ordered)
    requires i < |ScriptOf(p, ordered)| && ScriptOf(p, ordered)[i].Create?
    ensures var t := ScriptOf(p, ordered)[i].table;
            forall r :: r in t.refs - {t.name} ==> Emitted(ScriptOf(p, ordered)[..i], p.d, r)
  {
    var pre, section := Pre(p), TableSection(p.d, ordered);
    NoCreateAround(p);
    assert |pre| <= i < |pre| + |section| && ScriptOf(p, ordered)[i] == section[i - |pre|];
    FollowsReferences(p.d, ordered, {}, pre, i - |pre|);
    assert ScriptOf(p, ordered)[..i] == pre + section[..i - |pre|];
  }

  lemma NoCreateAround(p: Plan)
    ensures forall k :: 0 <= k < |Pre(p)| ==> !Pre(p)[k].Create?
    ensures forall k :: 0 <= k < |Post(p)| ==> !Post(p)[k].Create?
  {
    var plain := IndexStatements(p.d, PlainIn(p.d, p.d.order));
    var tail := Inserts(p.seeds) + [RowSecurity(p.secured)];
    assert forall k :: 0 <= k < |tail| ==> !tail[k].Create?;
    assert forall k :: 0 <= k < |plain + tail| ==> !(plain + tail)[k].Create?;
    assert forall k :: 0 <= k < |Triggers(p.triggers) + (plain + tail)| ==> !(Triggers(p.triggers) + (plain + tail))[k].Create?;
  }
}
