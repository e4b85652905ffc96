/**
  The replay theorem.  A deployed database, run through "all table renames of the
  whole chain, then all column renames", ends exactly where replaying only the
  renames it has not seen yet, in chain order, would leave it: the renames that
  are behind it find their source gone, and a column rename commutes with the
  table renames emitted before it when it calls its table by its final name.
 */
module RenameReplay {
  import opened Catalog
  import opened Migrations
  import opened Tracking

  // ---------- renames that are behind the database ----------

  /** No table is renamed to `t`, but for rebuilds, whose source never exists. */
  ghost predicate Untaken(ops: seq<Rename>, t: Name, temps: set<Name>) {
    forall op :: op in ops && op.TableRename? ==> op.src in temps || op.dst != t
  }

  /** Table renames only, none of which creates a temporary name. */
  ghost predicate TableRenames(ops: seq<Rename>, temps: set<Name>) {
    forall op :: op in ops ==> op.TableRename? && op.dst !in temps
  }

  lemma {:induction false} UntakenStays(db: Database, ops: seq<Rename>, t: Name, temps: set<Name>)
    requires Untaken(ops, t, temps) && TableRenames(ops, temps) && db.Keys !! temps
    ensures t in Replay(db, ops) ==> t in db && Replay(db, ops)[t] == db[t]
    decreases |ops|
  {
    if ops != [] {
      assert ops[0] in ops;
      UntakenStays(Apply(db, ops[0]), ops[1..], t, temps);
    }
  }

  lemma {:induction false} TableTargets(chain: seq<Step>, temps: set<Name>)
    requires UsesTemps(chain, temps)
    ensures TableRenames(TablesOf(RenamesOf(chain)), temps)
  {
    KindsMember(RenamesOf(chain));
    forall op | op in TablesOf(RenamesOf(chain))
      ensures op.TableRename? && op.dst !in temps
    {
      RenamesOfMember(chain, op);
      var s :| s in chain && op in RenamesIn(s);
      var i :| 0 <= i < |chain| && chain[i] == s;
      assert TakesTable(chain[i], op.dst);
    }
  }

  lemma SeenRenameIsSilent(db: Database, seen: seq<Step>, op: Rename, temps: set<Name>)
    requires op in RenamesOf(seen) && db.Keys !! temps && UsesTemps(seen, temps)
    requires forall s :: s in seen ==> Gone(db, s)
    ensures !Fires(db, op)
  {
    RenamesOfMember(seen, op);
    var step :| step in seen && op in RenamesIn(step);
    var i :| 0 <= i < |seen| && seen[i] == step;
    assert Gone(db, step);
    assert step.Rebuild? ==> step.tmp in temps;
  }

  /** A column renamed earlier is still gone after the outstanding table renames. */
  lemma SeenColumnStaysSilent(db: Database, seen: seq<Step>, ahead: seq<Step>, op: Rename, temps: set<Name>)
    requires op in RenamesOf(seen) && op.ColumnRename? && db.Keys !! temps && Returnless(seen + ahead, temps)
    requires forall s :: s in seen ==> Gone(db, s)
    ensures !Fires(Replay(db, TablesOf(RenamesOf(ahead))), op)
  {
    ReturnlessSplits(seen, ahead, temps);
    RenamesOfMember(seen, op);
    var step :| step in seen && op in RenamesIn(step);
    var i :| 0 <= i < |seen| && seen[i] == step;
    assert step == Move(ColumnRename(op.tbl, op.from, op.to)) && Gone(db, step);
    NotTakenAhead(step, ahead, op.tbl, temps);
    TableTargets(ahead, temps);
    UntakenStays(db, TablesOf(RenamesOf(ahead)), op.tbl, temps);
  }

  lemma NotTakenAhead(earlier: Step, ahead: seq<Step>, t: Name, temps: set<Name>)
    requires earlier.Move? && earlier.op.ColumnRename? && earlier.op.tbl == t && UsesTemps(ahead, temps)
    requires forall j :: 0 <= j < |ahead| ==> Respects(earlier, ahead[j])
    ensures Untaken(TablesOf(RenamesOf(ahead)), t, temps)
  {
    KindsMember(RenamesOf(ahead));
    forall op | op in TablesOf(RenamesOf(ahead))
      ensures op.src in temps || op.dst != t
    {
      RenamesOfMember(ahead, op);
      var s :| s in ahead && op in RenamesIn(s);
      var j :| 0 <= j < |ahead| && ahead[j] == s;
      assert Respects(earlier, ahead[j]);
      assert s.Move? ==> !IntroducesColumn(s, t, earlier.op.from);
    }
  }

  /** The renames behind a deployed database have no part in the pass. */
  lemma SeenRenamesAreSilent(db: Database, b: Database, seen: seq<Step>, ahead: seq<Step>, temps: set<Name>)
    requires Tracks(db, b, seen, temps) && Returnless(seen + ahead, temps)
    ensures Evolve(db, RenamesOf(seen + ahead)) == Evolve(db, RenamesOf(ahead))
  {
    var s, a := RenamesOf(seen), RenamesOf(ahead);
    ReturnlessSplits(seen, ahead, temps);
    RenamesOfAppend(seen, ahead);
    KindsAppend(s, a);
    KindsMember(s);
    forall op | op in TablesOf(s) ensures !Fires(db, op) { SeenRenameIsSilent(db, seen, op, temps); }
    ReplayAppend(db, TablesOf(s), TablesOf(a));
    ReplayNothingFires(db, TablesOf(s));
    var db' := Replay(db, TablesOf(a));
    forall op | op in ColumnsOf(s) ensures !Fires(db', op) { SeenColumnStaysSilent(db, seen, ahead, op, temps); }
    ReplayAppend(db', ColumnsOf(s), ColumnsOf(a));
    ReplayNothingFires(db', ColumnsOf(s));
  }

  // ---------- a column rename commutes with the table renames ----------

  /** Every table rename in `ops` leaves table `t` alone, or moves a name that never exists. */
  ghost predicate Clear(ops: seq<Rename>, t: Name, temps: set<Name>) {
    forall op :: op in ops && op.TableRename? ==> op.src in temps || (op.src != t && op.dst != t)
  }

  ghost predicate Commutes(ops: seq<Rename>, temps: set<Name>) {
    ops == []
    || (&& (ops[0].TableRename? ==> ops[0].dst !in temps)
        && (ops[0].ColumnRename? ==> Clear(ops[1..], ops[0].tbl, temps))
        && Commutes(ops[1..], temps))
  }

  lemma ChainIsClear(cr: Step, chain: seq<Step>, temps: set<Name>)
    requires UsesTemps(chain, temps) && cr.Move? && cr.op.ColumnRename?
    requires forall i :: 0 <= i < |chain| ==> Respects(cr, chain[i]) && UsesFinalName(cr, chain[i])
    ensures Clear(RenamesOf(chain), cr.op.tbl, temps)
  {
    forall op | op in RenamesOf(chain) && op.TableRename?
      ensures op.src in temps || (op.src != cr.op.tbl && op.dst != cr.op.tbl)
    {
      RenamesOfMember(chain, op);
      var s :| s in chain && op in RenamesIn(s);
      var i :| 0 <= i < |chain| && chain[i] == s;
      assert Respects(cr, chain[i]) && UsesFinalName(cr, chain[i]);
      assert s.Move? ==> !IntroducesColumn(s, cr.op.tbl, cr.op.from);
    }
  }

  lemma {:induction false} ChainCommutes(chain: seq<Step>, temps: set<Name>)
    requires Disciplined(chain, temps)
    ensures Commutes(RenamesOf(chain), temps)
  {
    if chain != [] {
      var step, rest := chain[0], chain[1..];
      assert [step] + rest == chain;
      DisciplineSplits([step], rest, temps);
      ChainCommutes(rest, temps);
      var ops := RenamesIn(step);
      if ops != [] {
        assert RenamesOf(chain)[1..] == RenamesOf(rest);
        match ops[0] {
          case TableRename(_, dst) => assert TakesTable(chain[0], dst);
          case ColumnRename(tbl, from, to) => FirstIsClear(chain, temps);
        }
      } else {
        assert RenamesOf(chain) == RenamesOf(rest);
      }
    }
  }

  lemma FirstIsClear(chain: seq<Step>, temps: set<Name>)
    requires Disciplined(chain, temps) && chain != [] && chain[0].Move? && chain[0].op.ColumnRename?
    ensures Clear(RenamesOf(chain[1..]), chain[0].op.tbl, temps)
  {
    var rest := chain[1..];
    assert [chain[0]] + rest == chain;
    ReturnlessSplits([chain[0]], rest, temps);
    FinalNamesSplit([chain[0]], rest);
    forall i | 0 <= i < |rest|
      ensures Respects(chain[0], rest[i]) && UsesFinalName(chain[0], rest[i])
    {
      assert [chain[0]][0] == chain[0];
    }
    ChainIsClear(chain[0], rest, temps);
  }

  lemma {:induction false} Bubble(db: Database, cr: Rename, ops: seq<Rename>, temps: set<Name>)
    requires cr.ColumnRename? && Clear(ops, cr.tbl, temps) && db.Keys !! temps && TableRenames(ops, temps)
    ensures Replay(Apply(db, cr), ops) == Apply(Replay(db, ops), cr)
    decreases |ops|
  {
    if ops != [] {
      var op := ops[0];
      assert op in ops;
      assert Apply(Apply(db, cr), op) == Apply(Apply(db, op), cr);
      Bubble(Apply(db, op), cr, ops[1..], temps);
    }
  }

  lemma {:induction false} TargetsAvoid(ops: seq<Rename>, temps: set<Name>)
    requires Commutes(ops, temps)
    ensures TableRenames(TablesOf(ops), temps)
  {
    if ops != [] {
      TargetsAvoid(ops[1..], temps);
      KindsMember(ops);
      KindsMember(ops[1..]);
      assert ops == [ops[0]] + ops[1..];
    }
  }

  lemma KindsSplit(ops: seq<Rename>)
    requires ops != []
    ensures ops[0].TableRename? ==> TablesOf(ops) == [ops[0]] + TablesOf(ops[1..]) && ColumnsOf(ops) == ColumnsOf(ops[1..])
    ensures ops[0].ColumnRename? ==> ColumnsOf(ops) == [ops[0]] + ColumnsOf(ops[1..]) && TablesOf(ops) == TablesOf(ops[1..])
  {
  }

  /** How the pass over a list starts. */
  lemma EvolveHead(db: Database, ops: seq<Rename>)
    requires ops != []
    ensures ops[0].TableRename? ==> Evolve(db, ops) == Evolve(Apply(db, ops[0]), ops[1..])
    ensures ops[0].ColumnRename? ==>
              Evolve(db, ops) == Replay(Apply(Replay(db, TablesOf(ops[1..])), ops[0]), ColumnsOf(ops[1..]))
  {
    KindsSplit(ops);
    if ops[0].TableRename? {
      assert ([ops[0]] + TablesOf(ops[1..]))[1..] == TablesOf(ops[1..]);
    } else {
      assert ([ops[0]] + ColumnsOf(ops[1..]))[1..] == ColumnsOf(ops[1..]);
    }
  }

  /** Emitting table renames before column renames changes nothing when column renames use final names;
      `KindOrder` says exactly when it does. */
  lemma {:induction false} KindOrderIsHarmless(db: Database, ops: seq<Rename>, temps: set<Name>)
    requires Commutes(ops, temps) && db.Keys !! temps
    ensures Evolve(db, ops) == Replay(db, ops)
    decreases |ops|
  {
    if ops != [] {
      var rest := ops[1..];
      EvolveHead(db, ops);
      KindOrderIsHarmless(Apply(db, ops[0]), rest, temps);
      if ops[0].ColumnRename? {
        KindsMember(rest);
        TargetsAvoid(rest, temps);
        Bubble(db, ops[0], TablesOf(rest), temps);
      }
    }
  }

  // ---------- the replay theorem ----------

  /** Whatever part of the chain a database has been converged to, one pass of the whole script
      performs, in effect, exactly the renames it has not seen, in chain order. */
  lemma ReplayCompletes(db: Database, b: Database, seen: seq<Step>, ahead: seq<Step>, temps: set<Name>)
    requires Tracks(db, b, seen, temps) && Disciplined(seen + ahead, temps)
    ensures Evolve(db, RenamesOf(seen + ahead)) == Replay(db, RenamesOf(ahead))
  {
    SeenRenamesAreSilent(db, b, seen, ahead, temps);
    DisciplineSplits(seen, ahead, temps);
    ChainCommutes(ahead, temps);
    KindOrderIsHarmless(db, RenamesOf(ahead), temps);
  }

  /** In particular on a database that is at a prefix of the chain. */
  lemma ReplayCompletesAnyPrefix(db0: Database, seen: seq<Step>, ahead: seq<Step>, temps: set<Name>)
    requires Runs(db0, seen) && Disciplined(seen + ahead, temps) && db0.Keys !! temps
    ensures Evolve(Run(db0, seen), RenamesOf(seen + ahead)) == Replay(Run(db0, seen), RenamesOf(ahead))
  {
    DisciplineSplits(seen, ahead, temps);
    PrefixTracks(db0, seen, temps);
    ReplayCompletes(Run(db0, seen), Run(db0, seen), seen, ahead, temps);
  }

  lemma {:induction false} RunOfRenames(db: Database, chain: seq<Step>)
    requires Runs(db, chain) && forall i :: 0 <= i < |chain| ==> chain[i].Move?
    ensures Run(db, chain) == Replay(db, RenamesOf(chain))
    decreases |chain|
  {
    if chain != [] {
      RunOfRenames(Exec(db, chain[0]), chain[1..]);
      assert RenamesOf(chain)[1..] == RenamesOf(chain[1..]);
    }
  }

  /** When only renames are ahead, the script ends with exactly the tables, columns and rows
      that the rest of the chain would have produced. */
  lemma RenamesReachTheFullChain(db0: Database, seen: seq<Step>, ahead: seq<Step>, temps: set<Name>)
    requires Runs(db0, seen + ahead) && Disciplined(seen + ahead, temps) && db0.Keys !! temps
    requires forall i :: 0 <= i < |ahead| ==> ahead[i].Move?
    ensures Runs(db0, seen)
    ensures Evolve(Run(db0, seen), RenamesOf(seen + ahead)) == Run(db0, seen + ahead)
  {
    RunAppend(db0, seen, ahead);
    ReplayCompletesAnyPrefix(db0, seen, ahead, temps);
    RunOfRenames(Run(db0, seen), ahead);
  }
}
