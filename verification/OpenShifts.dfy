/**
  Why the repair stands before the tables: the unique index on open shifts, with it
  and without it.
 */
module OpenShifts {
  import opened Catalog
  import opened Storage
  import opened Repairs
  import opened TableOrder
  import opened Emission
  import opened Ddl
  import opened Rendering
  import opened Upgrade

  /** `n` is the unique index of one open shift per user. */
  predicate GuardsOpenShifts(d: Declared, n: Name) {
    n in d.indexes && d.indexes[n] == Indexed("shifts", OPEN_PER_USER, true)
  }

  /** With the repair the missing index can be built exactly when no user has two newest open shifts. */
  lemma OpenIndexFitsIff(s: State, p: Plan, now: string, n: Name)
    requires p.repairs == [CloseOpenShifts(now)] && GuardsOpenShifts(p.d, n) && "shifts" in Readied(s, p).tables
    ensures var rows := Readied(s, p).tables["shifts"].rows;
            IndexFits(Repaired(s, p), p.d, n) <==>
            n in Readied(s, p).indexes || forall i, j :: 0 <= i < j < |rows| ==> !Tied(rows, i, j)
  {
    var tables := Readied(s, p).tables;
    assert p.repairs[1..] == [];
    assert AllUpdated(tables, p.repairs) == AllUpdated(Updated(tables, p.repairs[0]), []);
    RepairMakesApplicableIff(tables["shifts"].rows, now);
  }

  lemma NoNullsIn(t: Table)
    requires WellFormedTable(t) && forall c :: c in {"id", "opened_at"} ==> c in t.cols && t.cols[c].notNull
    ensures forall k :: 0 <= k < |t.rows| ==> Cell(t.rows[k], "id") != Null && Cell(t.rows[k], "opened_at") != Null
  {
    assert "id" in {"id", "opened_at"} && "opened_at" in {"id", "opened_at"};
  }

  /** In a database that keeps ids apart and has no NULL in id or opened_at it always can: the repair never
      leaves a duplicate behind. */
  lemma RepairSuffices(s: State, p: Plan, now: string, n: Name)
    requires p.repairs == [CloseOpenShifts(now)] && GuardsOpenShifts(p.d, n) && Lawful(s) && "shifts" in Readied(s, p).tables
    requires Key({"id"}, {}) in KeysOn(Readied(s, p), "shifts")
    requires forall c :: c in {"id", "opened_at"} ==> c in Readied(s, p).tables["shifts"].cols && Readied(s, p).tables["shifts"].cols[c].notNull
    ensures IndexFits(Repaired(s, p), p.d, n)
  {
    var t := Readied(s, p).tables["shifts"];
    ReadiedIsLawful(s, p);
    NoNullsIn(t);
    forall i, j | 0 <= i < j < |t.rows|
      ensures !Tied(t.rows, i, j)
    {
      DistinctIdsAreNotTied(t.rows, i, j);
    }
    OpenIndexFitsIff(s, p, now, n);
  }

  /** Without the repair, two open shifts of one user stop the whole script at the missing index. */
  lemma BareIndexIsRefused(s: State, p: Plan, tables: seq<TableDef>, ordered: seq<TableDef>, n: Name, i: nat, j: nat)
    requires Lawful(s) && Generated(p, tables, ordered) && p.repairs == [] && GuardsOpenShifts(p.d, n)
    requires "shifts" in Readied(s, p).tables && n !in Readied(s, p).indexes
    requires var rows := Readied(s, p).tables["shifts"].rows;
             i < j < |rows| && IsOpen(rows[i]) && IsOpen(rows[j]) && SameUser(rows[i], rows[j])
    ensures ExecAll(s, ScriptOf(p, ordered)).Aborted?
  {
    var rows := Readied(s, p).tables["shifts"].rows;
    OpenKeyIs(rows[i], rows[j]);
    assert Repeats(rows, OPEN_PER_USER);
    assert Repaired(s, p) == Readied(s, p);
    assert !IndexFits(Repaired(s, p), p.d, n);
    ScriptRunsIff(s, p, tables, ordered);
  }
}
