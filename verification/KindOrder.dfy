/**
  `render_evolution_ops` emits every table rename before every column rename.
  This module says exactly when that differs from registry order: when a column
  rename that takes effect is followed by a rename of its table.
 */
module KindOrder {
  import opened Catalog
  import opened Migrations
  import opened Tracking
  import opened RenameReplay

  /** The column `f` of the table that is now called `t` is left and taken by no rename ahead. */
  ghost predicate Avoids(ops: seq<Rename>, t: Name, f: Name) {
    ops == []
    || match ops[0]
       case TableRename(src, dst) => Avoids(ops[1..], if src == t then dst else t, f)
       case ColumnRename(tbl, from, to) => (tbl == t ==> from != f && to != f) && Avoids(ops[1..], t, f)
  }

  /** The list brings no name back: a table name that was left is not taken, the table of a column
      rename is not taken, and a column name that was left is neither taken nor left again. */
  ghost predicate NoReturn(ops: seq<Rename>, temps: set<Name>) {
    ops == []
    || (&& NoReturn(ops[1..], temps)
        && match ops[0]
           case TableRename(src, dst) => dst !in temps && (src in temps || Untaken(ops[1..], src, temps))
           case ColumnRename(tbl, from, to) =>
             from != to && tbl !in temps && Untaken(ops[1..], tbl, temps) && Avoids(ops[1..], tbl, from))
  }

  /** A column rename takes effect and a later rename moves its table: the pass looks for the column
      under a table name that is gone. */
  ghost predicate Misplaced(db: Database, ops: seq<Rename>)
    decreases |ops|
  {
    ops != []
    && ((ops[0].ColumnRename? && Fires(db, ops[0]) && exists op :: op in ops[1..] && op.TableRename? && op.src == ops[0].tbl)
        || Misplaced(Apply(db, ops[0]), ops[1..]))
  }

  // ---------- where a table ends up ----------

  function End(ops: seq<Rename>, t: Name): Name {
    if ops == [] then t
    else End(ops[1..], if ops[0].TableRename? && ops[0].src == t then ops[0].dst else t)
  }

  lemma {:induction false} NeverTaken(ops: seq<Rename>, x: Name, n: Name, temps: set<Name>)
    requires NoReturn(ops, temps) && Untaken(ops, n, temps) && x != n && x !in temps
    ensures End(ops, x) != n
  {
    if ops != [] {
      assert ops[0] in ops;
      NeverTaken(ops[1..], if ops[0].TableRename? && ops[0].src == x then ops[0].dst else x, n, temps);
    }
  }

  /** A name that is in use is not where another table ends up. */
  lemma {:induction false} OthersEndElsewhere(db: Database, ops: seq<Rename>, x: Name, n: Name, temps: set<Name>)
    requires NoReturn(ops, temps) && Unblocked(db, ops) && db.Keys !! temps && x in db && n in db && x != n
    ensures End(ops, x) != n
    decreases |ops|
  {
    if ops != [] {
      var op, rest := ops[0], ops[1..];
      var next := if op.TableRename? && op.src == x then op.dst else x;
      if op.TableRename? && op.src == n {
        NeverTaken(rest, next, n, temps);
      } else {
        OthersEndElsewhere(Apply(db, op), rest, next, n, temps);
      }
    }
  }

  /** Replayed in order, the column stays away from its table all the way. */
  lemma {:induction false} ColumnStaysAway(db: Database, ops: seq<Rename>, t: Name, f: Name, temps: set<Name>)
    requires NoReturn(ops, temps) && Unblocked(db, ops) && db.Keys !! temps
    requires t in db && f !in db[t].cols && Avoids(ops, t, f)
    ensures End(ops, t) in Replay(db, ops) && f !in Replay(db, ops)[End(ops, t)].cols
    decreases |ops|
  {
    if ops != [] {
      var op := ops[0];
      ColumnStaysAway(Apply(db, op), ops[1..], if op.TableRename? && op.src == t then op.dst else t, f, temps);
    }
  }

  /** No rename of the list would move the column in the table's final place. */
  lemma {:induction false} NobodyLeavesIt(db: Database, ops: seq<Rename>, t: Name, f: Name, temps: set<Name>)
    requires NoReturn(ops, temps) && Unblocked(db, ops) && db.Keys !! temps && t in db && Avoids(ops, t, f)
    ensures forall op :: op in ops && op.ColumnRename? && op.tbl == End(ops, t) ==> op.from != f
    decreases |ops|
  {
    if ops != [] {
      var op, rest := ops[0], ops[1..];
      var next := if op.TableRename? && op.src == t then op.dst else t;
      NobodyLeavesIt(Apply(db, op), rest, next, f, temps);
      if op.ColumnRename? && op.tbl != t {
        NeverTaken(rest, t, op.tbl, temps);
      }
      assert ops == [op] + rest;
    }
  }

  // ---------- the table renames alone ----------

  lemma {:induction false} TablesAlone(db: Database, ops: seq<Rename>, d: Database, t: Name)
    requires Unblocked(db, ops) && d.Keys == db.Keys && t in d
    ensures Replay(d, TablesOf(ops)).Keys == Replay(db, ops).Keys
    ensures End(ops, t) in Replay(d, TablesOf(ops)) && Replay(d, TablesOf(ops))[End(ops, t)] == d[t]
    decreases |ops|
  {
    if ops != [] {
      var op, rest := ops[0], ops[1..];
      KindsSplit(ops);
      if op.TableRename? {
        assert ([op] + TablesOf(rest))[1..] == TablesOf(rest);
        TablesAlone(Apply(db, op), rest, Apply(d, op), if op.src == t then op.dst else t);
      } else {
        TablesAlone(Apply(db, op), rest, d, t);
      }
    }
  }

  lemma {:induction false} ColumnRemains(d: Database, cols: seq<Rename>, t: Name, f: Name)
    requires t in d && f in d[t].cols
    requires forall op :: op in cols ==> op.ColumnRename? && (op.tbl == t ==> op.from != f)
    ensures t in Replay(d, cols) && f in Replay(d, cols)[t].cols
    decreases |cols|
  {
    if cols != [] {
      assert cols[0] in cols;
      ColumnRemains(Apply(d, cols[0]), cols[1..], t, f);
    }
  }

  lemma {:induction false} LeftForGood(db: Database, ops: seq<Rename>, t: Name, temps: set<Name>)
    requires NoReturn(ops, temps) && Unblocked(db, ops) && db.Keys !! temps
    requires Untaken(ops, t, temps) && (t !in db || exists op :: op in ops && op.TableRename? && op.src == t)
    ensures t !in Replay(db, ops)
    decreases |ops|
  {
    if ops != [] {
      assert ops[0] in ops && ops == [ops[0]] + ops[1..];
      LeftForGood(Apply(db, ops[0]), ops[1..], t, temps);
    }
  }

  // ---------- exactly when the order matters ----------

  lemma OrderMatters(db: Database, ops: seq<Rename>, temps: set<Name>)
    requires ops != [] && NoReturn(ops, temps) && Unblocked(db, ops) && db.Keys !! temps
    requires ops[0].ColumnRename? && Fires(db, ops[0])
    requires exists op :: op in ops[1..] && op.TableRename? && op.src == ops[0].tbl
    ensures Evolve(db, ops) != Replay(db, ops)
  {
    var cr, rest := ops[0], ops[1..];
    var t, f, next := cr.tbl, cr.from, Apply(db, cr);
    var last := End(rest, t);
    ColumnStaysAway(next, rest, t, f, temps);
    NobodyLeavesIt(next, rest, t, f, temps);
    TablesAlone(next, rest, db, t);
    LeftForGood(next, rest, t, temps);
    var e := Replay(db, TablesOf(rest));
    assert t !in e && Apply(e, cr) == e;
    KindsMember(rest);
    ColumnRemains(e, ColumnsOf(rest), last, f);
    EvolveHead(db, ops);
  }

  /** A column rename that does nothing, or whose table stays, may wait for the table renames. */
  lemma MayWait(db: Database, cr: Rename, ops: seq<Rename>, temps: set<Name>)
    requires cr.ColumnRename? && db.Keys !! temps && Untaken(ops, cr.tbl, temps) && TableRenames(ops, temps)
    requires !Fires(db, cr) || forall op :: op in ops ==> op.src != cr.tbl
    ensures Apply(Replay(db, ops), cr) == Replay(Apply(db, cr), ops)
  {
    if Fires(db, cr) {
      Bubble(db, cr, ops, temps);
    } else {
      UntakenStays(db, ops, cr.tbl, temps);
      assert Apply(db, cr) == db;
    }
  }

  lemma HeadCommutes(db: Database, ops: seq<Rename>, temps: set<Name>)
    requires ops != [] && NoReturn(ops, temps) && db.Keys !! temps && ops[0].ColumnRename?
    requires !Fires(db, ops[0]) || forall op :: op in ops[1..] && op.TableRename? ==> op.src != ops[0].tbl
    ensures Evolve(db, ops) == Evolve(Apply(db, ops[0]), ops[1..])
  {
    EvolveHead(db, ops);
    TablesAreThere(ops[1..], ops[0].tbl, temps);
    MayWait(db, ops[0], TablesOf(ops[1..]), temps);
  }

  lemma TablesAreThere(ops: seq<Rename>, t: Name, temps: set<Name>)
    requires NoReturn(ops, temps) && Untaken(ops, t, temps)
    ensures Untaken(TablesOf(ops), t, temps) && TableRenames(TablesOf(ops), temps)
    ensures forall op :: op in TablesOf(ops) ==> op in ops
  {
    KindsMember(ops);
    NoReturnTargets(ops, temps);
  }

  lemma {:induction false} NoReturnTargets(ops: seq<Rename>, temps: set<Name>)
    requires NoReturn(ops, temps)
    ensures TableRenames(TablesOf(ops), temps)
  {
    if ops != [] {
      NoReturnTargets(ops[1..], temps);
      KindsMember(ops);
      KindsMember(ops[1..]);
      assert ops == [ops[0]] + ops[1..];
    }
  }

  /** The pass differs from registry order exactly when a column rename is misplaced. */
  lemma {:induction false} KindOrderMattersIff(db: Database, ops: seq<Rename>, temps: set<Name>)
    requires NoReturn(ops, temps) && Unblocked(db, ops) && db.Keys !! temps
    ensures Evolve(db, ops) == Replay(db, ops) <==> !Misplaced(db, ops)
    decreases |ops|
  {
    if ops != [] {
      var op, rest := ops[0], ops[1..];
      var next := Apply(db, op);
      KindOrderMattersIff(next, rest, temps);
      if op.TableRename? {
        EvolveHead(db, ops);
      } else if Fires(db, op) && exists o :: o in rest && o.TableRename? && o.src == op.tbl {
        OrderMatters(db, ops, temps);
      } else {
        HeadCommutes(db, ops, temps);
      }
    }
  }

  /** For a deployed database and any chain that brings no name back: the whole pass does what the
      outstanding renames do in registry order exactly when none of them is misplaced. */
  lemma PassIsFaithfulIff(db: Database, b: Database, seen: seq<Step>, ahead: seq<Step>, temps: set<Name>)
    requires Tracks(db, b, seen, temps) && Runs(b, ahead) && Returnless(seen + ahead, temps)
    requires NoReturn(RenamesOf(ahead), temps)
    ensures Evolve(db, RenamesOf(seen + ahead)) == Replay(db, RenamesOf(ahead)) <==> !Misplaced(db, RenamesOf(ahead))
  {
    SeenRenamesAreSilent(db, b, seen, ahead, temps);
    TracksAhead(db, b, seen, ahead, temps);
    KindOrderMattersIff(db, RenamesOf(ahead), temps);
  }
}
