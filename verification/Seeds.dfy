/**
  `dump_seeds`: one INSERT ... ON CONFLICT DO NOTHING per non-empty table, in table
  order; when PostgreSQL takes such a statement, and why a fresh database takes all
  of them.
 */
module Seeds {
  import opened Sequences
  import opened Catalog
  import opened Storage
  import opened Graph

  type Columns = map<Name, Column>

  type Data = map<Name, seq<Row>>

  datatype Insert = Insert(into: Name, rows: seq<Row>)

  function RowsOf(d: Data, t: Name): seq<Row> {
    if t in d then d[t] else []
  }

  function SeedsFor(source: Data, ordered: seq<Name>): seq<Insert> {
    if ordered == [] then []
    else (if RowsOf(source, ordered[0]) == [] then [] else [Insert(ordered[0], RowsOf(source, ordered[0]))])
         + SeedsFor(source, ordered[1..])
  }

  lemma SeedsStep(source: Data, ordered: seq<Name>, i: nat)
    requires i < |ordered|
    ensures var rows, rest := RowsOf(source, ordered[i]), SeedsFor(source, ordered[i + 1..]);
            SeedsFor(source, ordered[i..]) == if rows == [] then rest else [Insert(ordered[i], rows)] + rest
  {
    assert ordered[i..][1..] == ordered[i + 1..] && ordered[i..][0] == ordered[i];
  }

  method DumpSeeds(source: Data, ordered: seq<Name>) returns (out: seq<Insert>)
    ensures out == SeedsFor(source, ordered)
  {
    out := [];
    for i := 0 to |ordered|
      invariant out + SeedsFor(source, ordered[i..]) == SeedsFor(source, ordered)
    {
      SeedsStep(source, ordered, i);
      var rows := RowsOf(source, ordered[i]);
      if rows == [] {
        continue;
      }
      Regroup(out, [Insert(ordered[i], rows)], SeedsFor(source, ordered[i + 1..]));
      out := out + [Insert(ordered[i], rows)];
    }
    assert ordered[|ordered|..] == [];
  }

  // ---------- one INSERT ----------

  /** The row as it is stored: a column it leaves out takes its default. */
  function Stored(cols: Columns, row: Row): Row {
    map c | c in cols :: if c in row then row[c] else cols[c].fill
  }

  function StoredAll(cols: Columns, rows: seq<Row>): (all: seq<Row>)
    ensures |all| == |rows|
  {
    seq(|rows|, i requires 0 <= i < |rows| => Stored(cols, rows[i]))
  }

  /** Each cell has a column, and no NOT NULL column is left NULL.  PostgreSQL checks this before it looks
      for a conflict. */
  predicate RowFits(cols: Columns, row: Row) {
    row.Keys <= cols.Keys && forall c :: c in cols && cols[c].notNull ==> Stored(cols, row)[c] != Null
  }

  predicate RowsFit(cols: Columns, rows: seq<Row>) {
    forall i :: 0 <= i < |rows| ==> RowFits(cols, rows[i])
  }

  /** The rows of the table after the insert. */
  function RowsAfter(s: State, insert: Insert): seq<Row>
    requires insert.into in s.tables
  {
    var t := s.tables[insert.into];
    Admit(KeysOn(s, insert.into), t.rows, StoredAll(t.cols, insert.rows))
  }

  function RunInsert(s: State, insert: Insert): Outcome {
    if insert.into !in s.tables || !RowsFit(s.tables[insert.into].cols, insert.rows) then Aborted
    else Put(s, insert.into, RowsAfter(s, insert))
  }

  /** Each foreign key of the table finds its parent for every row that the insert adds. */
  ghost predicate ParentsFound(s: State, insert: Insert)
    requires insert.into in s.tables
  {
    var t := insert.into;
    var after := WithRows(s, t, RowsAfter(s, insert)).tables;
    forall l, i :: l in s.links && l.child == t && |s.tables[t].rows| <= i < |after[t].rows| && Refers(after[t].rows[i], l) ==>
      HasParentIn(after[t].rows[i], RowsIn(after, l.parent), l)
  }

  lemma StoredIsWellFormed(s: State, insert: Insert)
    requires Lawful(s) && insert.into in s.tables && RowsFit(s.tables[insert.into].cols, insert.rows)
    ensures WellFormedTable(s.tables[insert.into].(rows := RowsAfter(s, insert)))
  {
    var t := s.tables[insert.into];
    var added := StoredAll(t.cols, insert.rows);
    AdmitAppends(KeysOn(s, insert.into), t.rows, added);
    var after := RowsAfter(s, insert);
    forall i | 0 <= i < |after|
      ensures after[i].Keys == t.cols.Keys && forall c :: c in t.cols && t.cols[c].notNull ==> after[i][c] != Null
    {
      if i < |t.rows| {
        assert after[i] == t.rows[i];
      } else {
        var j :| 0 <= j < |added| && added[j] == after[i];
        assert RowFits(t.cols, insert.rows[j]);
      }
    }
  }

  /** A foreign key of a table that keeps its rows and gains some. */
  lemma LinkAfterAppend(s: State, t: Name, rows: seq<Row>, l: Link)
    requires Lawful(s) && t in s.tables && s.tables[t].rows <= rows && l in s.links
    ensures var after := WithRows(s, t, rows).tables;
            LinkHolds(after, l) <==>
            (l.child == t ==> forall i :: |s.tables[t].rows| <= i < |rows| && Refers(rows[i], l) ==> HasParentIn(rows[i], RowsIn(after, l.parent), l))
  {
    var after := WithRows(s, t, rows).tables;
    var own := RowsIn(s.tables, l.child);
    OldRowsKeepParents(s, t, rows, l);
    if l.child == t {
      assert RowsIn(after, l.child) == rows;
      forall i | 0 <= i < |rows| && Refers(rows[i], l)
        ensures i < |own| ==> HasParentIn(rows[i], RowsIn(after, l.parent), l)
      {
        assert i < |own| ==> rows[i] == own[i];
      }
    }
  }

  lemma OldRowsKeepParents(s: State, t: Name, rows: seq<Row>, l: Link)
    requires Lawful(s) && t in s.tables && s.tables[t].rows <= rows && l in s.links
    ensures var own := RowsIn(s.tables, l.child);
            forall i :: 0 <= i < |own| && Refers(own[i], l) ==> HasParentIn(own[i], RowsIn(WithRows(s, t, rows).tables, l.parent), l)
  {
    var after := WithRows(s, t, rows).tables;
    assert LinkHolds(s.tables, l);
    var own, parents := RowsIn(s.tables, l.child), RowsIn(s.tables, l.parent);
    forall i | 0 <= i < |own| && Refers(own[i], l)
      ensures HasParentIn(own[i], RowsIn(after, l.parent), l)
    {
      var j :| 0 <= j < |parents| && IsParent(own[i], parents[j], l);
      assert RowsIn(after, l.parent)[j] == parents[j];
    }
  }

  /** The statement is refused exactly when a NOT NULL column refuses one of its rows, or a row that it adds
      references a parent that is not there. */
  lemma InsertRunsIff(s: State, insert: Insert)
    requires Lawful(s) && insert.into in s.tables
    ensures RunInsert(s, insert).Reached? <==> RowsFit(s.tables[insert.into].cols, insert.rows) && ParentsFound(s, insert)
  {
    var t := insert.into;
    if RowsFit(s.tables[t].cols, insert.rows) {
      var after := RowsAfter(s, insert);
      StoredIsWellFormed(s, insert);
      AdmitAppends(KeysOn(s, t), s.tables[t].rows, StoredAll(s.tables[t].cols, insert.rows));
      AdmitKeepsKeys(KeysOn(s, t), s.tables[t].rows, StoredAll(s.tables[t].cols, insert.rows));
      forall l | l in s.links
        ensures LinkHolds(WithRows(s, t, after).tables, l) <==>
                (l.child == t ==> forall i :: |s.tables[t].rows| <= i < |after| && Refers(after[i], l) ==>
                                  HasParentIn(after[i], RowsIn(WithRows(s, t, after).tables, l.parent), l))
      {
        LinkAfterAppend(s, t, after, l);
      }
    }
  }

  // ---------- all of them ----------

  function RunInserts(s: State, seeds: seq<Insert>): Outcome
    decreases |seeds|
  {
    if seeds == [] then Reached(s)
    else
      var next := RunInsert(s, seeds[0]);
      if next.Aborted? then Aborted else RunInserts(next.state, seeds[1..])
  }

  lemma {:induction false} RunInsertsAppend(s: State, a: seq<Insert>, b: seq<Insert>)
    ensures RunInserts(s, a).Reached? ==> RunInserts(s, a + b) == RunInserts(RunInserts(s, a).state, b)
    ensures RunInserts(s, a).Aborted? ==> RunInserts(s, a + b).Aborted?
    decreases |a|
  {
    if a == [] {
      assert a + b == b;
    } else {
      assert (a + b)[0] == a[0] && (a + b)[1..] == a[1..] + b;
      if RunInsert(s, a[0]).Reached? {
        RunInsertsAppend(RunInsert(s, a[0]).state, a[1..], b);
      }
    }
  }

  // ---------- a fresh database ----------

  /** The tables of `done` hold their source rows, the others are empty. */
  function Loaded(s: State, source: Data, done: set<Name>): State {
    s.(tables := map t | t in s.tables :: s.tables[t].(rows := if t in done then RowsOf(source, t) else []))
  }

  lemma LoadedKeys(s: State, source: Data, done: set<Name>, t: Name)
    ensures KeysOn(Loaded(s, source, done), t) == KeysOn(s, t)
  {
  }

  lemma {:induction false} AdmitsAll(keys: set<Key>, rows: seq<Row>, added: seq<Row>)
    requires forall k :: k in keys ==> !Repeats(rows + added, k)
    ensures Admit(keys, rows, added) == rows + added
    decreases |added|
  {
    if added != [] {
      forall k, i | k in keys && 0 <= i < |rows|
        ensures !SameKey(k, rows[i], added[0])
      {
        assert !Repeats(rows + added, k) && (rows + added)[i] == rows[i] && (rows + added)[|rows|] == added[0];
      }
      assert (rows + [added[0]]) + added[1..] == rows + added;
      AdmitsAll(keys, rows + [added[0]], added[1..]);
    }
  }

  /** Each foreign key of the table references a table of `done`. */
  predicate Fed(links: set<Link>, t: Name, done: set<Name>) {
    forall l :: l in links && l.child == t ==> l.parent in done
  }

  lemma LinkWhileLoading(s: State, source: Data, done: set<Name>, l: Link)
    requires LinkHolds(Loaded(s, source, s.tables.Keys).tables, l)
    requires l.child in done ==> l.parent in done
    ensures LinkHolds(Loaded(s, source, done).tables, l)
  {
    var full, part := Loaded(s, source, s.tables.Keys).tables, Loaded(s, source, done).tables;
    if l.child in done && l.child in s.tables {
      assert RowsIn(part, l.child) == RowsIn(full, l.child);
      assert RowsIn(part, l.parent) == RowsIn(full, l.parent);
    } else {
      assert RowsIn(part, l.child) == [];
    }
  }

  /** Source rows are stored as they are. */
  lemma SourceRowsFit(s: State, source: Data, done: set<Name>, t: Name)
    requires Lawful(Loaded(s, source, s.tables.Keys)) && t in s.tables && t !in done
    ensures var rows := RowsOf(source, t);
            && RowsFit(s.tables[t].cols, rows) && RowsAfter(Loaded(s, source, done), Insert(t, rows)) == rows
            && WellFormedTable(s.tables[t].(rows := rows))
            && forall k :: k in KeysOn(s, t) ==> !Repeats(rows, k)
  {
    var full, rows := Loaded(s, source, s.tables.Keys), RowsOf(source, t);
    var cols := s.tables[t].cols;
    LoadedKeys(s, source, done, t);
    LoadedKeys(s, source, s.tables.Keys, t);
    assert WellFormedTable(full.tables[t]) && full.tables[t].rows == rows;
    forall i | 0 <= i < |rows|
      ensures Stored(cols, rows[i]) == rows[i] && RowFits(cols, rows[i])
    {
      assert full.tables[t].rows[i].Keys == cols.Keys;
    }
    assert StoredAll(cols, rows) == rows && [] + rows == rows;
    AdmitsAll(KeysOn(s, t), [], rows);
  }

  lemma OneSeed(s: State, source: Data, done: set<Name>, t: Name)
    requires Lawful(Loaded(s, source, s.tables.Keys)) && t in s.tables && t !in done
    requires Fed(s.links, t, done + {t}) && forall u :: u in done ==> Fed(s.links, u, done)
    ensures RunInsert(Loaded(s, source, done), Insert(t, RowsOf(source, t))) == Reached(Loaded(s, source, done + {t}))
  {
    var x, rows := Loaded(s, source, done), RowsOf(source, t);
    SourceRowsFit(s, source, done, t);
    LoadedKeys(s, source, done, t);
    LoadedNext(s, source, done, t);
    forall l | l in s.links
      ensures LinkHolds(WithRows(x, t, rows).tables, l)
    {
      LinkWhileLoading(s, source, done + {t}, l);
    }
    assert x.tables[t].(rows := rows) == s.tables[t].(rows := rows);
  }

  lemma LoadedNext(s: State, source: Data, done: set<Name>, t: Name)
    requires t in s.tables
    ensures WithRows(Loaded(s, source, done), t, RowsOf(source, t)) == Loaded(s, source, done + {t})
  {
    assert WithRows(Loaded(s, source, done), t, RowsOf(source, t)).tables == Loaded(s, source, done + {t}).tables;
  }

  /** The tables of the order come after what they reference. */
  predicate FedInOrder(links: set<Link>, names: seq<Name>, p: nat)
    requires p <= |names|
  {
    forall i :: 0 <= i < p ==> Fed(links, names[i], Elems(names[..i + 1]))
  }

  /** The statements for the first `p` tables run, and leave exactly these tables filled. */
  lemma {:induction false} SeedsLoad(s: State, source: Data, names: seq<Name>, p: nat)
    requires Lawful(Loaded(s, source, s.tables.Keys)) && NoDup(names) && Elems(names) <= s.tables.Keys
    requires p <= |names| && FedInOrder(s.links, names, p)
    ensures RunInserts(Loaded(s, source, {}), SeedsFor(source, names[..p])) == Reached(Loaded(s, source, Elems(names[..p])))
  {
    if p == 0 {
      assert names[..0] == [] && Elems(names[..0]) == {};
    } else {
      SeedsLoad(s, source, names, p - 1);
      LoadsNext(s, source, names, p - 1);
    }
  }

  lemma LoadsNext(s: State, source: Data, names: seq<Name>, q: nat)
    requires Lawful(Loaded(s, source, s.tables.Keys)) && NoDup(names) && Elems(names) <= s.tables.Keys
    requires q < |names| && FedInOrder(s.links, names, q + 1)
    requires RunInserts(Loaded(s, source, {}), SeedsFor(source, names[..q])) == Reached(Loaded(s, source, Elems(names[..q])))
    ensures RunInserts(Loaded(s, source, {}), SeedsFor(source, names[..q + 1])) == Reached(Loaded(s, source, Elems(names[..q + 1])))
  {
    var t, done := names[q], Elems(names[..q]);
    LastTable(source, names, q);
    FedStays(s.links, names, q);
    assert t in Elems(names);
    if RowsOf(source, t) == [] {
      NothingToLoad(s, source, done, t);
      assert SeedsFor(source, names[..q]) + [] == SeedsFor(source, names[..q]);
    } else {
      OneSeed(s, source, done, t);
      OneInsert(Loaded(s, source, done), Insert(t, RowsOf(source, t)));
      RunInsertsAppend(Loaded(s, source, {}), SeedsFor(source, names[..q]), [Insert(t, RowsOf(source, t))]);
    }
  }

  lemma NothingToLoad(s: State, source: Data, done: set<Name>, t: Name)
    requires RowsOf(source, t) == []
    ensures Loaded(s, source, done + {t}) == Loaded(s, source, done)
  {
    assert Loaded(s, source, done + {t}).tables == Loaded(s, source, done).tables;
  }

  lemma OneInsert(s: State, insert: Insert)
    ensures RunInserts(s, [insert]) == RunInsert(s, insert)
  {
    assert [insert][1..] == [];
    if RunInsert(s, insert).Reached? {
      assert RunInserts(RunInsert(s, insert).state, []) == Reached(RunInsert(s, insert).state);
    }
  }

  lemma LastTable(source: Data, names: seq<Name>, q: nat)
    requires NoDup(names) && q < |names|
    ensures Elems(names[..q + 1]) == Elems(names[..q]) + {names[q]} && names[q] !in Elems(names[..q])
    ensures var rows := RowsOf(source, names[q]);
            SeedsFor(source, names[..q + 1]) == SeedsFor(source, names[..q]) + if rows == [] then [] else [Insert(names[q], rows)]
  {
    assert names[..q + 1] == names[..q] + [names[q]];
    SeedsAppend(source, names[..q], names[q]);
  }

  lemma {:induction false} SeedsAppend(source: Data, names: seq<Name>, t: Name)
    ensures SeedsFor(source, names + [t]) == SeedsFor(source, names) + if RowsOf(source, t) == [] then [] else [Insert(t, RowsOf(source, t))]
  {
    if names == [] {
      assert names + [t] == [t] && [t][1..] == [];
    } else {
      assert (names + [t])[0] == names[0] && (names + [t])[1..] == names[1..] + [t];
      SeedsAppend(source, names[1..], t);
    }
  }

  lemma FedStays(links: set<Link>, names: seq<Name>, q: nat)
    requires q < |names| && FedInOrder(links, names, q + 1)
    ensures Fed(links, names[q], Elems(names[..q]) + {names[q]})
    ensures forall u :: u in Elems(names[..q]) ==> Fed(links, u, Elems(names[..q]))
  {
    assert names[..q + 1] == names[..q] + [names[q]];
    assert Elems(names[..q + 1]) == Elems(names[..q]) + {names[q]};
    forall u | u in Elems(names[..q])
      ensures Fed(links, u, Elems(names[..q]))
    {
      var i :| 0 <= i < q && names[i] == u;
      assert Elems(names[..i + 1]) <= Elems(names[..q]);
    }
  }
}
