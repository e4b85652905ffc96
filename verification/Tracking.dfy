/**
  How a deployed database relates to the state of the SQLite chain it was last
  converged to.  It was built by the script and never by the chain, so it may
  lack tables, and it keeps what the chain dropped; but the renames of the chain
  are behind it, and whatever it has beyond the chain's state was dropped.
 */
module Tracking {
  import opened Catalog
  import opened Migrations

  /** The source of the rename is no longer there. */
  predicate Gone(db: Database, step: Step) {
    match step
    case Move(TableRename(src, _)) => src !in db
    case Move(ColumnRename(tbl, from, _)) => tbl in db ==> from !in db[tbl].cols
    case _ => true
  }

  /** `a` is a database the script has brought to the point where the chain `past` leaves `b`. */
  ghost predicate Tracks(a: Database, b: Database, past: seq<Step>, temps: set<Name>) {
    && a.Keys !! temps && b.Keys !! temps
    && (forall s :: s in past ==> Gone(a, s) && Gone(b, s))
    && Owes(a, b, Marks({}, past))
  }

  /** Whatever `a` has beyond `b` was dropped. */
  ghost predicate Owes(a: Database, b: Database, marks: set<Mark>) {
    && (forall t :: t in a && t !in b ==> AllOf(t) in marks)
    && (forall t, c :: t in a && t in b && c in a[t].cols && c !in b[t].cols ==> Dropped(marks, t, c))
  }

  /** A database that does not exist yet tracks everything. */
  lemma EmptyTracks(b: Database, past: seq<Step>, temps: set<Name>)
    requires b.Keys !! temps && forall s :: s in past ==> Gone(b, s)
    ensures Tracks(map[], b, past, temps)
  {
  }

  // ---------- one step ----------

  /** What the rename of the step finds in the deployed database: its target is free. */
  predicate Unblocks(a: Database, op: Rename) {
    match op
    case TableRename(src, dst) => src in a ==> dst !in a
    case ColumnRename(tbl, from, to) => tbl in a && from in a[tbl].cols ==> to !in a[tbl].cols
  }

  /** What has been renamed away stays away, in the chain and in the replay. */
  lemma GoneStays(db: Database, s: Step, step: Step)
    requires Gone(db, s) && Respects(s, step) && Enabled(db, step)
    ensures Gone(Exec(db, step), s)
  {
  }

  lemma GoneStaysReplayed(a: Database, s: Step, step: Step, temps: set<Name>)
    requires Gone(a, s) && Respects(s, step) && a.Keys !! temps && (step.Rebuild? ==> step.tmp in temps)
    ensures Gone(Replay(a, RenamesIn(step)), s)
  {
    ReplayOne(a, step, temps);
  }

  /** A rebuild's rename finds no temporary table; the other steps but moves have none. */
  lemma ReplayOne(a: Database, step: Step, temps: set<Name>)
    requires a.Keys !! temps && (step.Rebuild? ==> step.tmp in temps)
    ensures Replay(a, RenamesIn(step)) == if step.Move? then Apply(a, step.op) else a
  {
    var ops := RenamesIn(step);
    if ops != [] {
      assert ops[1..] == [];
      assert Replay(a, ops) == Apply(a, ops[0]);
    }
  }

  lemma StepUnblocks(a: Database, b: Database, marks: set<Mark>, step: Step)
    requires Owes(a, b, marks) && Enabled(b, step) && step.Move? && AvoidsDropped(marks, step)
    ensures Unblocks(a, step.op) && Gone(Apply(a, step.op), step) && Gone(Apply(b, step.op), step)
  {
  }

  lemma OwesAfterMove(a: Database, b: Database, marks: set<Mark>, step: Step)
    requires Owes(a, b, marks) && Enabled(b, step) && step.Move? && AvoidsDropped(marks, step)
    ensures Owes(Apply(a, step.op), Apply(b, step.op), MarksAfter(marks, step))
  {
    StepUnblocks(a, b, marks, step);
    var a', b', marks' := Apply(a, step.op), Apply(b, step.op), MarksAfter(marks, step);
    if step.op.TableRename? {
      var src, dst := step.op.src, step.op.dst;
      assert dst !in a;
      assert forall m :: m in marks ==> Remarked(m, src, dst) in marks';
      assert forall t :: t != src && AllOf(t) in marks ==> Remarked(AllOf(t), src, dst) == AllOf(t);
      forall t, c | t in a' && t in b' && c in a'[t].cols && c !in b'[t].cols
        ensures Dropped(marks', t, c)
      {
        var before := if t == dst then src else t;
        assert Dropped(marks, before, c);
        assert Remarked(AllOf(before), src, dst) == AllOf(t) && Remarked(OneOf(before, c), src, dst) == OneOf(t, c);
      }
    }
  }

  lemma OwesAfterOther(a: Database, b: Database, marks: set<Mark>, step: Step)
    requires Owes(a, b, marks) && Enabled(b, step) && !step.Move?
    ensures Owes(a, Exec(b, step), MarksAfter(marks, step))
  {
    var b', marks' := Exec(b, step), MarksAfter(marks, step);
    assert marks <= marks';
    forall t, c | t in a && t in b' && c in a[t].cols && c !in b'[t].cols
      ensures Dropped(marks', t, c)
    {
      if t in b && c in b[t].cols {
        assert OneOf(t, c) in marks';
      } else if t in b {
        assert Dropped(marks, t, c);
      }
    }
  }

  /** A step of the chain, and its renames alone on the deployed database. */
  lemma TrackStep(a: Database, b: Database, past: seq<Step>, step: Step, temps: set<Name>)
    requires Tracks(a, b, past, temps) && Enabled(b, step) && AvoidsDropped(Marks({}, past), step)
    requires forall s :: s in past ==> Respects(s, step)
    requires (step.Rebuild? ==> step.tmp in temps) && forall n :: n in temps ==> !TakesTable(step, n)
    ensures Tracks(Replay(a, RenamesIn(step)), Exec(b, step), past + [step], temps)
  {
    var marks := Marks({}, past);
    var a', b' := Replay(a, RenamesIn(step)), Exec(b, step);
    ReplayOne(a, step, temps);
    OrderlyAppend({}, past, [step]);
    assert Marks(marks, [step]) == MarksAfter(marks, step);
    if step.Move? {
      OwesAfterMove(a, b, marks, step);
      StepUnblocks(a, b, marks, step);
    } else {
      OwesAfterOther(a, b, marks, step);
    }
    forall s | s in past + [step]
      ensures Gone(a', s) && Gone(b', s)
    {
      if s in past {
        GoneStays(b, s, step);
        GoneStaysReplayed(a, s, step, temps);
      }
    }
    NamesStayOff(a, b, step, temps);
  }

  lemma NamesStayOff(a: Database, b: Database, step: Step, temps: set<Name>)
    requires a.Keys !! temps && b.Keys !! temps && Enabled(b, step)
    requires (step.Rebuild? ==> step.tmp in temps) && forall n :: n in temps ==> !TakesTable(step, n)
    ensures Replay(a, RenamesIn(step)).Keys !! temps && Exec(b, step).Keys !! temps
  {
    ReplayOne(a, step, temps);
  }

  // ---------- a stretch of the chain ----------

  /** No rename of the list, replayed in order, finds its target taken while its source is there. */
  predicate Unblocked(db: Database, ops: seq<Rename>)
    decreases |ops|
  {
    ops == [] || (Unblocks(db, ops[0]) && Unblocked(Apply(db, ops[0]), ops[1..]))
  }

  lemma {:induction false} TracksAhead(a: Database, b: Database, past: seq<Step>, ahead: seq<Step>, temps: set<Name>)
    requires Tracks(a, b, past, temps) && Runs(b, ahead) && Returnless(past + ahead, temps)
    ensures Tracks(Replay(a, RenamesOf(ahead)), Run(b, ahead), past + ahead, temps)
    ensures Unblocked(a, RenamesOf(ahead))
    decreases |ahead|
  {
    if ahead == [] {
      assert past + ahead == past;
    } else {
      var step, rest := ahead[0], ahead[1..];
      var a' := Replay(a, RenamesIn(step));
      ReturnlessSplits(past, ahead, temps);
      assert (past + [step]) + rest == past + ahead && ahead[0] == step;
      NextStep(past, ahead, temps);
      TrackStep(a, b, past, step, temps);
      TracksAhead(a', Exec(b, step), past + [step], rest, temps);
      ReplayAppend(a, RenamesIn(step), RenamesOf(rest));
      ReplayOne(a, step, temps);
      if step.Move? {
        StepUnblocks(a, b, Marks({}, past), step);
        assert RenamesOf(ahead)[1..] == RenamesOf(rest);
      } else if step.Rebuild? {
        assert RenamesOf(ahead)[1..] == RenamesOf(rest);
      } else {
        assert RenamesOf(ahead) == RenamesOf(rest);
      }
    }
  }

  lemma NextStep(past: seq<Step>, ahead: seq<Step>, temps: set<Name>)
    requires Returnless(past + ahead, temps) && ahead != []
    ensures AvoidsDropped(Marks({}, past), ahead[0]) && forall s :: s in past ==> Respects(s, ahead[0])
    ensures (ahead[0].Rebuild? ==> ahead[0].tmp in temps) && forall n :: n in temps ==> !TakesTable(ahead[0], n)
  {
    ReturnlessSplits(past, ahead, temps);
    forall s | s in past
      ensures Respects(s, ahead[0])
    {
      var i :| 0 <= i < |past| && past[i] == s;
    }
  }

  /** After the chain nothing it renamed away is left; the chain's own database tracks itself. */
  lemma PrefixTracks(db0: Database, seen: seq<Step>, temps: set<Name>)
    requires Runs(db0, seen) && Returnless(seen, temps) && db0.Keys !! temps
    ensures Tracks(Run(db0, seen), Run(db0, seen), seen, temps)
  {
    EmptyTracks(db0, [], temps);
    assert [] + seen == seen;
    TracksAhead(map[], db0, [], seen, temps);
  }
}
