/**
  What the chain drops and the script does not.  A table or column that a database
  has beyond the declared schema is one that was dropped and never brought back;
  this module says so exactly, for any deployed database and any chain.
 */
module Leftovers {
  import opened Catalog
  import opened Migrations
  import opened Tracking
  import opened Reconcile
  import opened Convergence

  /** Every table and column of `a` is in `b`. */
  ghost predicate NamesWithin(a: Database, b: Database) {
    forall t :: t in a ==> t in b && a[t].cols.Keys <= b[t].cols.Keys
  }

  ghost predicate SameNames(a: Database, b: Database) {
    a.Keys == b.Keys && forall t :: t in a ==> a[t].cols.Keys == b[t].cols.Keys
  }

  /** `a` has the table or column. */
  predicate Holds(a: Database, m: Mark) {
    m.tbl in a && (m.OneOf? ==> m.col in a[m.tbl].cols)
  }

  /** `a` has the table or column and `b` does not. */
  predicate Stray(a: Database, b: Database, m: Mark) {
    Holds(a, m) && !Holds(b, m)
  }

  /** The step creates the table or column. */
  predicate Restores(step: Step, m: Mark) {
    match step
    case CreateTable(name, table) => name == m.tbl && (m.OneOf? ==> m.col in table.cols)
    case AddColumn(tbl, col, _) => m == OneOf(tbl, col)
    case Rebuild(_, tbl, _, extra, _) => m.OneOf? && m.tbl == tbl && m.col in extra
    case _ => false
  }

  /** The step drops the table or column, and `a` has it. */
  predicate Sheds(a: Database, step: Step, m: Mark) {
    && Holds(a, m)
    && match step
       case DropTable(tbl) => m.tbl == tbl
       case DropColumn(tbl, col) => m == OneOf(tbl, col)
       case Rebuild(_, tbl, dropped, _, _) => m.OneOf? && m.tbl == tbl && m.col in dropped
       case _ => false
  }

  /** The table or column under the name its table has after the step. */
  function Following(m: Mark, step: Step): Mark {
    if step.Move? && step.op.TableRename? then Remarked(m, step.op.src, step.op.dst) else m
  }

  /** Some step of the chain brings it back, under the name its table has by then. */
  predicate Returns(chain: seq<Step>, m: Mark)
    decreases |chain|
  {
    chain != [] && (Restores(chain[0], m) || Returns(chain[1..], Following(m, chain[0])))
  }

  /** Some step drops what the database, moved along by the renames before it, has, and nothing brings
      it back. */
  ghost predicate DropsForGood(a: Database, chain: seq<Step>)
    decreases |chain|
  {
    chain != []
    && ((exists m :: Sheds(a, chain[0], m) && !Returns(chain[1..], m)) || DropsForGood(Replay(a, RenamesIn(chain[0])), chain[1..]))
  }

  /** Whatever `a` has beyond `b` is brought back by the chain. */
  ghost predicate StraysReturn(a: Database, b: Database, chain: seq<Step>) {
    forall m :: Stray(a, b, m) ==> Returns(chain, m)
  }

  lemma WithinIffNoStray(a: Database, b: Database)
    ensures NamesWithin(a, b) <==> forall m :: !Stray(a, b, m)
  {
    if forall m :: !Stray(a, b, m) {
      forall t | t in a
        ensures t in b && a[t].cols.Keys <= b[t].cols.Keys
      {
        assert !Stray(a, b, AllOf(t));
        forall c | c in a[t].cols
          ensures c in b[t].cols
        {
          assert !Stray(a, b, OneOf(t, c));
        }
      }
    }
  }

  // ---------- one step ----------

  function Before(m: Mark, step: Step): Mark {
    if step.Move? && step.op.TableRename? && m.tbl == step.op.dst then m.(tbl := step.op.src) else m
  }

  lemma StrayAfterMove(a: Database, b: Database, marks: set<Mark>, step: Step, m: Mark)
    requires Owes(a, b, marks) && Enabled(b, step) && step.Move? && AvoidsDropped(marks, step)
    ensures Stray(a, b, m) ==> Stray(Apply(a, step.op), Apply(b, step.op), Following(m, step))
    ensures Stray(Apply(a, step.op), Apply(b, step.op), m) ==>
              Stray(a, b, Before(m, step)) && Following(Before(m, step), step) == m
  {
    StepUnblocks(a, b, marks, step);
    match step.op {
      case TableRename(src, dst) =>
        assert dst !in a;
      case ColumnRename(tbl, from, to) =>
        if tbl in a {
          assert to !in a[tbl].cols;
        }
    }
  }

  lemma StrayAfterOther(a: Database, b: Database, step: Step, m: Mark)
    requires Enabled(b, step) && !step.Move?
    ensures Stray(a, Exec(b, step), m) <==> (Stray(a, b, m) && !Restores(step, m)) || Sheds(a, step, m)
  {
  }

  /** What is stray after a step: what was and is not restored, and what the step drops. */
  lemma StrayStep(a: Database, b: Database, past: seq<Step>, step: Step, rest: seq<Step>, temps: set<Name>)
    requires Tracks(a, b, past, temps) && Enabled(b, step) && AvoidsDropped(Marks({}, past), step)
    requires step.Rebuild? ==> step.tmp in temps
    ensures StraysReturn(Replay(a, RenamesIn(step)), Exec(b, step), rest) <==>
            StraysReturn(a, b, [step] + rest) && forall m :: Sheds(a, step, m) ==> Returns(rest, m)
  {
    var a', b', chain := Replay(a, RenamesIn(step)), Exec(b, step), [step] + rest;
    assert chain[0] == step && chain[1..] == rest;
    ReplayOne(a, step, temps);
    forall m
      ensures Stray(a, b, m) && !Restores(step, m) ==> Stray(a', b', Following(m, step))
      ensures Sheds(a, step, m) ==> Stray(a', b', m)
      ensures Stray(a', b', m) ==>
                Sheds(a, step, m) || (Stray(a, b, Before(m, step)) && !Restores(step, Before(m, step)) && Following(Before(m, step), step) == m)
    {
      if step.Move? {
        StrayAfterMove(a, b, Marks({}, past), step, m);
      } else {
        StrayAfterOther(a, b, step, m);
      }
    }
    if StraysReturn(a', b', rest) {
      forall m | Stray(a, b, m)
        ensures Returns(chain, m)
      {
        assert Restores(step, m) || Returns(rest, Following(m, step));
      }
    }
    if StraysReturn(a, b, chain) && forall m :: Sheds(a, step, m) ==> Returns(rest, m) {
      forall m | Stray(a', b', m)
        ensures Returns(rest, m)
      {
        assert !Sheds(a, step, m) ==> Returns(chain, Before(m, step));
      }
    }
  }

  // ---------- exactly when something is left over ----------

  /** Replaying the renames of a stretch of the chain leaves the database within the chain's tables and
      columns exactly when the stretch brings back whatever was stray and drops nothing for good. */
  lemma {:induction false} WithinIff(a: Database, b: Database, past: seq<Step>, ahead: seq<Step>, temps: set<Name>)
    requires Tracks(a, b, past, temps) && Runs(b, ahead) && Returnless(past + ahead, temps)
    ensures NamesWithin(Replay(a, RenamesOf(ahead)), Run(b, ahead)) <==> StraysReturn(a, b, ahead) && !DropsForGood(a, ahead)
    decreases |ahead|
  {
    if ahead == [] {
      WithinIffNoStray(a, b);
    } else {
      var step, rest := ahead[0], ahead[1..];
      assert (past + [step]) + rest == past + ahead && [step] + rest == ahead;
      NextStep(past, ahead, temps);
      TrackStep(a, b, past, step, temps);
      ReplayAppend(a, RenamesIn(step), RenamesOf(rest));
      StrayStep(a, b, past, step, rest, temps);
      WithinIff(Replay(a, RenamesIn(step)), Exec(b, step), past + [step], rest, temps);
    }
  }

  /** The upgraded database has exactly the declared tables and columns if and only if the outstanding
      steps bring back whatever it had beyond its release and drop nothing for good that it has. */
  lemma NothingLeftIff(db: Database, b: Database, seen: seq<Step>, ahead: seq<Step>, temps: set<Name>, dumps: seq<TableDump>)
    requires Tracks(db, b, seen, temps) && WellFormed(db)
    requires Runs(b, ahead) && Disciplined(seen + ahead, temps) && IsDump(dumps, Run(b, ahead))
    ensures SameNames(Converge(db, RenamesOf(seen + ahead), dumps), Run(b, ahead)) <==>
            StraysReturn(db, b, ahead) && !DropsForGood(db, ahead)
  {
    var moved, final := Replay(db, RenamesOf(ahead)), Run(b, ahead);
    Converges(db, b, seen, ahead, temps, dumps);
    WithinIff(db, b, seen, ahead, temps);
    SameNamesIff(moved, final, Converge(db, RenamesOf(seen + ahead), dumps));
  }

  lemma SameNamesIff(moved: Database, final: Database, out: Database)
    requires Merged(moved, final, out)
    ensures SameNames(out, final) <==> NamesWithin(moved, final)
  {
    forall t | t in moved
      ensures t in out && out[t].cols.Keys == moved[t].cols.Keys + DeclaredIn(final, t).Keys
    {
      assert MergedTable(moved[t], DeclaredIn(final, t), out[t]);
    }
    if SameNames(out, final) {
      assert forall t :: t in moved ==> t in final;
    }
  }

  // ---------- the input that shows it ----------

  /** A chain that drops a column of a loyalty table: the script leaves the column. */
  lemma DroppedColumnStays(typ: string, v: Value)
    ensures var chain := [DropColumn("loyalty_tiers", "earn_multiplier")];
            var before := Table(map["earn_multiplier" := Column(typ, v, false)], []);
            var db: Database := map["loyalty_tiers" := before];
            var dumps := [TableDump("loyalty_tiers", map[], [])];
            && Runs(db, chain) && Disciplined(chain, {}) && IsDump(dumps, Run(db, chain)) && WellFormed(db)
            && Converge(db, RenamesOf(chain), dumps) == db
            && !SchemaReached(Converge(db, RenamesOf(chain), dumps), Run(db, chain))
  {
    var step := DropColumn("loyalty_tiers", "earn_multiplier");
    var chain := [step];
    var before := Table(map["earn_multiplier" := Column(typ, v, false)], []);
    var db: Database := map["loyalty_tiers" := before];
    var d := TableDump("loyalty_tiers", map[], []);
    assert chain[1..] == [] && RenamesOf(chain) == [];
    assert Enabled(db, step);
    assert WithoutColumn(before, "earn_multiplier").cols.Keys == {};
    assert WithoutColumn(before, "earn_multiplier") == Table(map[], []);
    assert Run(db, chain) == map["loyalty_tiers" := Table(map[], [])];
    assert Evolve(db, []) == db;
    assert SpecsOf([d]) == SpecsFrom(d, 0) + SpecsOf([d][1..]) == [];
    assert CreateMissing(db, [d]) == CreateMissing(CreateOne(db, d), [d][1..]) == db;
    var final := Run(db, chain);
    assert "earn_multiplier" in db["loyalty_tiers"].cols && "earn_multiplier" !in final["loyalty_tiers"].cols;
    assert "loyalty_tiers" in final;
  }
}
