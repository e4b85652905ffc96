/**
  The SQLite migration chain, and the naming discipline under which replaying
  only its renames is enough.
 */
module Migrations {
  import opened Catalog

  /**
    One schema change of the chain.  `DropTable` is DROP TABLE IF EXISTS.
    `Rebuild` is SQLite's table rebuild: create `tmp` with the columns of `tbl`
    but for `dropped`, with those of `extra` added or redefined, fill it with
    `rows`, drop `tbl`, rename `tmp` to `tbl`; it runs inside one migration file,
    so `tmp` never outlives the step.  `Rewrite` stands for any row-only statement.
   */
  datatype Step =
    | Move(op: Rename)
    | CreateTable(name: Name, table: Table)
    | AddColumn(tbl: Name, col: Name, column: Column)
    | DropColumn(tbl: Name, col: Name)
    | DropTable(tbl: Name)
    | Rebuild(tmp: Name, tbl: Name, dropped: set<Name>, extra: map<Name, Column>, rows: seq<Row>)
    | Rewrite(tbl: Name, rows: seq<Row>)

  /** SQLite aborts the migration when a step is not applicable. */
  predicate Enabled(db: Database, step: Step) {
    match step
    case Move(op) => Fires(db, op)
    case CreateTable(name, _) => name !in db
    case AddColumn(tbl, col, _) => tbl in db && col !in db[tbl].cols
    case DropColumn(tbl, col) => tbl in db && col in db[tbl].cols
    case DropTable(_) => true
    case Rebuild(tmp, tbl, dropped, extra, _) =>
      tbl in db && tmp !in db && dropped <= db[tbl].cols.Keys && dropped !! extra.Keys
    case Rewrite(tbl, _) => tbl in db
  }

  function WithoutColumn(t: Table, col: Name): Table {
    Table(t.cols - {col}, seq(|t.rows|, i requires 0 <= i < |t.rows| => t.rows[i] - {col}))
  }

  function Exec(db: Database, step: Step): Database
    requires Enabled(db, step)
  {
    match step
    case Move(op) => Apply(db, op)
    case CreateTable(name, table) => db[name := table]
    case AddColumn(tbl, col, column) => db[tbl := WithColumn(db[tbl], col, column)]
    case DropColumn(tbl, col) => db[tbl := WithoutColumn(db[tbl], col)]
    case DropTable(tbl) => db - {tbl}
    case Rebuild(_, tbl, dropped, extra, rows) => db[tbl := Table((db[tbl].cols - dropped) + extra, rows)]
    case Rewrite(tbl, rows) => db[tbl := db[tbl].(rows := rows)]
  }

  /** The chain runs to its end: no step is refused. */
  predicate Runs(db: Database, chain: seq<Step>)
    decreases |chain|
  {
    chain == [] || (Enabled(db, chain[0]) && Runs(Exec(db, chain[0]), chain[1..]))
  }

  function Run(db: Database, chain: seq<Step>): Database
    requires Runs(db, chain)
    decreases |chain|
  {
    if chain == [] then db else Run(Exec(db, chain[0]), chain[1..])
  }

  lemma {:induction false} RunAppend(db: Database, a: seq<Step>, b: seq<Step>)
    ensures Runs(db, a + b) <==> Runs(db, a) && Runs(Run(db, a), b)
    ensures Runs(db, a + b) ==> Run(db, a + b) == Run(Run(db, a), b)
    decreases |a|
  {
    if a == [] {
      assert a + b == b;
    } else {
      assert (a + b)[1..] == a[1..] + b && (a + b)[0] == a[0];
      if Enabled(db, a[0]) {
        RunAppend(Exec(db, a[0]), a[1..], b);
      }
    }
  }

  // ---------- the renames of a chain ----------

  /** What `schema_evolution_ops` finds in one step: a rebuild's last statement is a table rename too. */
  function RenamesIn(step: Step): seq<Rename> {
    match step
    case Move(op) => [op]
    case Rebuild(tmp, tbl, _, _, _) => [TableRename(tmp, tbl)]
    case _ => []
  }

  /** `schema_evolution_ops`, in registry order. */
  function RenamesOf(chain: seq<Step>): seq<Rename> {
    if chain == [] then [] else RenamesIn(chain[0]) + RenamesOf(chain[1..])
  }

  lemma {:induction false} RenamesOfAppend(a: seq<Step>, b: seq<Step>)
    ensures RenamesOf(a + b) == RenamesOf(a) + RenamesOf(b)
  {
    if a == [] {
      assert a + b == b;
    } else {
      assert (a + b)[1..] == a[1..] + b;
      RenamesOfAppend(a[1..], b);
    }
  }

  lemma {:induction false} RenamesOfMember(chain: seq<Step>, op: Rename)
    requires op in RenamesOf(chain)
    ensures exists s :: s in chain && op in RenamesIn(s)
  {
    if op in RenamesIn(chain[0]) {
      assert chain[0] in chain;
    } else {
      RenamesOfMember(chain[1..], op);
      var s :| s in chain[1..] && op in RenamesIn(s);
      assert s in chain;
    }
  }

  // ---------- the naming discipline the replay relies on ----------

  predicate IntroducesTable(step: Step, n: Name) {
    match step
    case Move(TableRename(_, dst)) => dst == n
    case CreateTable(name, _) => name == n
    case _ => false
  }

  predicate IntroducesColumn(step: Step, t: Name, c: Name) {
    match step
    case Move(ColumnRename(tbl, _, to)) => tbl == t && to == c
    case Move(TableRename(_, dst)) => dst == t
    case CreateTable(name, table) => name == t && c in table.cols
    case AddColumn(tbl, col, _) => tbl == t && col == c
    case Rebuild(_, tbl, _, extra, _) => tbl == t && c in extra
    case _ => false
  }

  predicate RenamesTable(step: Step, n: Name) {
    step.Move? && step.op.TableRename? && step.op.src == n
  }

  /** `later` brings no name back that `earlier` renamed away. */
  predicate Respects(earlier: Step, later: Step) {
    match earlier
    case Move(TableRename(src, _)) => !IntroducesTable(later, src)
    case Move(ColumnRename(tbl, from, _)) => !IntroducesColumn(later, tbl, from)
    case _ => true
  }

  // ---------- what a chain has dropped ----------

  /** A dropped column, or a dropped table with whatever columns it had, under the name its table has now. */
  datatype Mark = OneOf(tbl: Name, col: Name) | AllOf(tbl: Name)

  function Remarked(m: Mark, src: Name, dst: Name): Mark {
    if m.tbl == src then m.(tbl := dst) else m
  }

  function MarksAfter(marks: set<Mark>, step: Step): set<Mark> {
    match step
    case Move(TableRename(src, dst)) => set m | m in marks :: Remarked(m, src, dst)
    case DropColumn(tbl, col) => marks + {OneOf(tbl, col)}
    case DropTable(tbl) => marks + {AllOf(tbl)}
    case Rebuild(_, tbl, dropped, _, _) => marks + set c | c in dropped :: OneOf(tbl, c)
    case _ => marks
  }

  function Marks(marks: set<Mark>, chain: seq<Step>): set<Mark>
    decreases |chain|
  {
    if chain == [] then marks else Marks(MarksAfter(marks, chain[0]), chain[1..])
  }

  predicate Dropped(marks: set<Mark>, t: Name, c: Name) {
    AllOf(t) in marks || OneOf(t, c) in marks
  }

  /** The step renames nothing onto a name that was dropped: a deployed database still has it. */
  predicate AvoidsDropped(marks: set<Mark>, step: Step) {
    step.Move? ==>
      match step.op
      case TableRename(_, dst) => AllOf(dst) !in marks
      case ColumnRename(tbl, _, to) => !Dropped(marks, tbl, to)
  }

  predicate Orderly(marks: set<Mark>, chain: seq<Step>)
    decreases |chain|
  {
    chain == [] || (AvoidsDropped(marks, chain[0]) && Orderly(MarksAfter(marks, chain[0]), chain[1..]))
  }

  lemma {:induction false} OrderlyAppend(marks: set<Mark>, a: seq<Step>, b: seq<Step>)
    ensures Marks(marks, a + b) == Marks(Marks(marks, a), b)
    ensures Orderly(marks, a + b) <==> Orderly(marks, a) && Orderly(Marks(marks, a), b)
    decreases |a|
  {
    if a == [] {
      assert a + b == b;
    } else {
      assert (a + b)[1..] == a[1..] + b && (a + b)[0] == a[0];
      OrderlyAppend(MarksAfter(marks, a[0]), a[1..], b);
    }
  }

  lemma {:induction false} FewerMarks(few: set<Mark>, many: set<Mark>, chain: seq<Step>)
    requires few <= many && Orderly(many, chain)
    ensures Orderly(few, chain)
    decreases |chain|
  {
    if chain != [] {
      FewerMarks(MarksAfter(few, chain[0]), MarksAfter(many, chain[0]), chain[1..]);
    }
  }

  // ---------- the discipline ----------

  /** A column rename calls its table by the name the table has in the end. */
  predicate UsesFinalName(earlier: Step, later: Step) {
    earlier.Move? && earlier.op.ColumnRename? ==> !RenamesTable(later, earlier.op.tbl)
  }

  predicate TakesTable(step: Step, n: Name) {
    IntroducesTable(step, n) || (step.Rebuild? && step.tbl == n)
  }

  /** `temps` are the names used only inside rebuilds. */
  ghost predicate UsesTemps(chain: seq<Step>, temps: set<Name>) {
    && (forall i :: 0 <= i < |chain| && chain[i].Rebuild? ==> chain[i].tmp in temps)
    && (forall i, n :: 0 <= i < |chain| && n in temps ==> !TakesTable(chain[i], n))
  }

  /** No name of the chain comes back, and nothing is renamed onto what it dropped. */
  ghost predicate Returnless(chain: seq<Step>, temps: set<Name>) {
    && UsesTemps(chain, temps)
    && Orderly({}, chain)
    && forall i, j :: 0 <= i < j < |chain| ==> Respects(chain[i], chain[j])
  }

  ghost predicate FinalNames(chain: seq<Step>) {
    forall i, j :: 0 <= i < j < |chain| ==> UsesFinalName(chain[i], chain[j])
  }

  /** The hypotheses of the replay theorems. */
  ghost predicate Disciplined(chain: seq<Step>, temps: set<Name>) {
    Returnless(chain, temps) && FinalNames(chain)
  }

  lemma ReturnlessSplits(a: seq<Step>, b: seq<Step>, temps: set<Name>)
    requires Returnless(a + b, temps)
    ensures Returnless(a, temps) && Returnless(b, temps) && Orderly(Marks({}, a), b)
    ensures forall i, j :: 0 <= i < |a| && 0 <= j < |b| ==> Respects(a[i], b[j])
  {
    var c := a + b;
    OrderlyAppend({}, a, b);
    FewerMarks({}, Marks({}, a), b);
    assert forall i :: 0 <= i < |a| ==> a[i] == c[i];
    assert forall j :: 0 <= j < |b| ==> b[j] == c[|a| + j];
    forall i, j | 0 <= i < |a| && 0 <= j < |b| ensures Respects(a[i], b[j]) { assert Respects(c[i], c[|a| + j]); }
    forall i, j | 0 <= i < j < |a| ensures Respects(a[i], a[j]) { assert Respects(c[i], c[j]); }
    forall i, j | 0 <= i < j < |b| ensures Respects(b[i], b[j]) { assert Respects(c[|a| + i], c[|a| + j]); }
    TempsSplit(a, b, temps);
  }

  lemma TempsSplit(a: seq<Step>, b: seq<Step>, temps: set<Name>)
    requires UsesTemps(a + b, temps)
    ensures UsesTemps(a, temps) && UsesTemps(b, temps)
  {
    var c := a + b;
    assert forall i :: 0 <= i < |a| ==> a[i] == c[i];
    assert forall j :: 0 <= j < |b| ==> b[j] == c[|a| + j];
    forall i, n | 0 <= i < |b| && n in temps ensures !TakesTable(b[i], n) { assert !TakesTable(c[|a| + i], n); }
    forall i, n | 0 <= i < |a| && n in temps ensures !TakesTable(a[i], n) { assert !TakesTable(c[i], n); }
    forall i | 0 <= i < |b| && b[i].Rebuild? ensures b[i].tmp in temps { assert c[|a| + i].Rebuild?; }
    forall i | 0 <= i < |a| && a[i].Rebuild? ensures a[i].tmp in temps { assert c[i].Rebuild?; }
  }

  lemma FinalNamesSplit(a: seq<Step>, b: seq<Step>)
    requires FinalNames(a + b)
    ensures FinalNames(a) && FinalNames(b)
    ensures forall i, j :: 0 <= i < |a| && 0 <= j < |b| ==> UsesFinalName(a[i], b[j])
  {
    var c := a + b;
    forall i, j | 0 <= i < |a| && 0 <= j < |b| ensures UsesFinalName(a[i], b[j]) { assert UsesFinalName(c[i], c[|a| + j]); }
    forall i, j | 0 <= i < j < |a| ensures UsesFinalName(a[i], a[j]) { assert UsesFinalName(c[i], c[j]); }
    forall i, j | 0 <= i < j < |b| ensures UsesFinalName(b[i], b[j]) { assert UsesFinalName(c[|a| + i], c[|a| + j]); }
  }

  lemma DisciplineSplits(a: seq<Step>, b: seq<Step>, temps: set<Name>)
    requires Disciplined(a + b, temps)
    ensures Disciplined(a, temps) && Disciplined(b, temps)
  {
    ReturnlessSplits(a, b, temps);
    FinalNamesSplit(a, b);
  }
}
