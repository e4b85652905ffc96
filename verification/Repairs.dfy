/**
  The two UPDATE statements of RECONCILIATIONS in scripts/generate-pg-migration.py:
  closing every open shift of a user but the newest, which makes a unique index
  applicable, and stamping memo recipients with the tenant of their memo.
 */
module Repairs {
  import opened Catalog
  import opened Storage
  import opened TextOrder

  datatype Update =
    | CloseOpenShifts(now: string)     // before idx_shifts_open_per_user
    | StampTenants                     // backfill of memo_recipients

  function TableOf(u: Update): Name {
    match u
    case CloseOpenShifts(_) => "shifts"
    case StampTenants => "memo_recipients"
  }

  function Reads(u: Update): set<Name> {
    match u
    case CloseOpenShifts(_) => {"shifts"}
    case StampTenants => {"memo_recipients", "memos"}
  }

  function Writes(u: Update): set<Name> {
    match u
    case CloseOpenShifts(_) =>
      {"status", "closed_at", "closing_balance_minor", "expected_cash_minor", "cash_difference_minor", "notes", "updated_at"}
    case StampTenants => {"tenant_id"}
  }

  // ---------- closing duplicate open shifts ----------

  predicate After(x: Value, y: Value) {
    x != Null && y != Null && Precedes(y.text, x.text)
  }

  /** (a.opened_at, a.id) > (b.opened_at, b.id) */
  predicate Newer(a: Row, b: Row) {
    || After(Cell(a, "opened_at"), Cell(b, "opened_at"))
    || (Cell(a, "opened_at") == Cell(b, "opened_at") != Null && After(Cell(a, "id"), Cell(b, "id")))
  }

  predicate IsOpen(row: Row) {
    Cell(row, "status") == Literal("open")
  }

  predicate SameUser(a: Row, b: Row) {
    Cell(a, "user_id") == Cell(b, "user_id") != Null
  }

  predicate Superseded(rows: seq<Row>, row: Row) {
    IsOpen(row) && exists j :: 0 <= j < |rows| && IsOpen(rows[j]) && SameUser(rows[j], row) && Newer(rows[j], row)
  }

  const NOTE := "auto-closed: duplicate open shift (COR-27 reconciliation)"

  function Noted(notes: Value): Value {
    if notes == Null then Null else if notes.text == "" then Literal(NOTE) else Literal(notes.text + " | " + NOTE)
  }

  function ClosedShift(row: Row, now: string): Row {
    row["status" := Literal("closed")]["closed_at" := Literal(now)]["closing_balance_minor" := Null]
       ["expected_cash_minor" := Null]["cash_difference_minor" := Null]["notes" := Noted(Cell(row, "notes"))]
       ["updated_at" := Literal(now)]
  }

  function AllClosed(rows: seq<Row>, now: string): (after: seq<Row>)
    ensures |after| == |rows|
  {
    seq(|rows|, i requires 0 <= i < |rows| => if Superseded(rows, rows[i]) then ClosedShift(rows[i], now) else rows[i])
  }

  // ---------- stamping tenants ----------

  predicate IsMemo(memo: Row, row: Row) {
    Cell(memo, "id") == Cell(row, "memo_id") != Null
  }

  predicate HasMemo(memos: seq<Row>, row: Row) {
    exists j :: 0 <= j < |memos| && IsMemo(memos[j], row)
  }

  function TenantFor(memos: seq<Row>, row: Row): Value
    requires HasMemo(memos, row)
  {
    if IsMemo(memos[0], row) then Cell(memos[0], "tenant_id") else TenantFor(memos[1..], row)
  }

  predicate Stamps(memos: seq<Row>, row: Row) {
    Cell(row, "tenant_id") == Literal("default") && HasMemo(memos, row)
  }

  function AllStamped(rows: seq<Row>, memos: seq<Row>): (after: seq<Row>)
    ensures |after| == |rows|
  {
    seq(|rows|, i requires 0 <= i < |rows| =>
      if Stamps(memos, rows[i]) then rows[i]["tenant_id" := TenantFor(memos, rows[i])] else rows[i])
  }

  /** The scalar subquery yields one row. */
  predicate OneMemoEach(rows: seq<Row>, memos: seq<Row>) {
    forall i, j, k :: 0 <= i < |rows| && 0 <= j < k < |memos| && Cell(rows[i], "tenant_id") == Literal("default") ==>
      !(IsMemo(memos[j], rows[i]) && IsMemo(memos[k], rows[i]))
  }

  /** The subquery fails exactly when a recipient of the default tenant names a memo that is there twice. */
  lemma OneMemoEachIff(rows: seq<Row>, memos: seq<Row>)
    ensures OneMemoEach(rows, memos) <==>
            !exists i, j, k :: 0 <= i < |rows| && 0 <= j < |memos| && 0 <= k < |memos| && j != k
                               && Cell(rows[i], "tenant_id") == Literal("default")
                               && Cell(memos[j], "id") == Cell(memos[k], "id") == Cell(rows[i], "memo_id") != Null
  {
    if i, j, k :| 0 <= i < |rows| && 0 <= j < k < |memos| && Cell(rows[i], "tenant_id") == Literal("default")
                  && IsMemo(memos[j], rows[i]) && IsMemo(memos[k], rows[i])
    {
      assert j != k && Cell(memos[j], "id") == Cell(memos[k], "id") == Cell(rows[i], "memo_id") != Null;
    }
    if i, j, k :| 0 <= i < |rows| && 0 <= j < |memos| && 0 <= k < |memos| && j != k && Cell(rows[i], "tenant_id") == Literal("default")
                  && Cell(memos[j], "id") == Cell(memos[k], "id") == Cell(rows[i], "memo_id") != Null
    {
      assert IsMemo(memos[j], rows[i]) && IsMemo(memos[k], rows[i]);
    }
  }

  /** It cannot fail where the ids of the memos are a key. */
  lemma KeyedMemosAreOne(rows: seq<Row>, memos: seq<Row>)
    requires !Repeats(memos, Key({"id"}, {}))
    ensures OneMemoEach(rows, memos)
  {
    forall i, j, k | 0 <= i < |rows| && 0 <= j < k < |memos| && Cell(rows[i], "tenant_id") == Literal("default")
      ensures !(IsMemo(memos[j], rows[i]) && IsMemo(memos[k], rows[i]))
    {
      assert !SameKey(Key({"id"}, {}), memos[j], memos[k]);
    }
  }

  // ---------- either update ----------

  /** The columns that the statement names. */
  function Needs(u: Update): set<(Name, Name)> {
    match u
    case CloseOpenShifts(_) => set c | c in Writes(u) + {"user_id", "opened_at", "id"} :: ("shifts", c)
    case StampTenants => {("memo_recipients", "tenant_id"), ("memo_recipients", "memo_id"), ("memos", "tenant_id"), ("memos", "id")}
  }

  /** They are there, and the subquery is a scalar. */
  predicate Runnable(u: Update, tables: Database) {
    && (forall n :: n in Needs(u) ==> n.1 in ColumnsIn(tables, n.0))
    && (u.StampTenants? ==> OneMemoEach(RowsIn(tables, "memo_recipients"), RowsIn(tables, "memos")))
  }

  const NAMED_IN_SHIFTS := {"status", "closed_at", "closing_balance_minor", "expected_cash_minor", "cash_difference_minor", "notes",
                            "updated_at", "user_id", "opened_at", "id"}

  /** The repair can be run exactly where its columns are. */
  lemma ClosingIsRunnableIff(now: string, tables: Database)
    ensures Runnable(CloseOpenShifts(now), tables) <==> NAMED_IN_SHIFTS <= ColumnsIn(tables, "shifts")
  {
    var u := CloseOpenShifts(now);
    assert NAMED_IN_SHIFTS == Writes(u) + {"user_id", "opened_at", "id"};
    assert forall c :: c in NAMED_IN_SHIFTS ==> ("shifts", c) in Needs(u);
  }

  /** So can the backfill, where no recipient's memo is there twice. */
  lemma StampingIsRunnableIff(tables: Database)
    ensures Runnable(StampTenants, tables) <==>
            && {"tenant_id", "memo_id"} <= ColumnsIn(tables, "memo_recipients") && {"tenant_id", "id"} <= ColumnsIn(tables, "memos")
            && OneMemoEach(RowsIn(tables, "memo_recipients"), RowsIn(tables, "memos"))
  {
    var needs := Needs(StampTenants);
    assert ("memo_recipients", "tenant_id") in needs && ("memo_recipients", "memo_id") in needs;
    assert ("memos", "tenant_id") in needs && ("memos", "id") in needs;
  }

  lemma NeedsWrites(u: Update, tables: Database)
    requires Runnable(u, tables)
    ensures TableOf(u) in tables && Writes(u) <= tables[TableOf(u)].cols.Keys
  {
    match u {
      case CloseOpenShifts(_) =>
        forall c | c in Writes(u) ensures c in ColumnsIn(tables, "shifts") { assert ("shifts", c) in Needs(u); }
        assert ("shifts", "id") in Needs(u);
      case StampTenants =>
        assert ("memo_recipients", "tenant_id") in Needs(u);
    }
  }

  function NewRows(u: Update, tables: Database): (after: seq<Row>)
    ensures |after| == |RowsIn(tables, TableOf(u))|
  {
    match u
    case CloseOpenShifts(now) => AllClosed(RowsIn(tables, "shifts"), now)
    case StampTenants => AllStamped(RowsIn(tables, "memo_recipients"), RowsIn(tables, "memos"))
  }

  /** The rows the WHERE clause selects. */
  predicate Selects(u: Update, tables: Database, i: nat)
    requires i < |RowsIn(tables, TableOf(u))|
  {
    match u
    case CloseOpenShifts(_) => Superseded(RowsIn(tables, "shifts"), RowsIn(tables, "shifts")[i])
    case StampTenants => Stamps(RowsIn(tables, "memos"), RowsIn(tables, "memo_recipients")[i])
  }

  /** The DO block: the update, when its table is there. */
  function RunUpdate(s: State, u: Update): Outcome {
    if TableOf(u) !in s.tables then Reached(s)
    else if Runnable(u, s.tables) then Put(s, TableOf(u), NewRows(u, s.tables))
    else Aborted
  }

  /** The database once the update has run. */
  function Updated(tables: Database, u: Update): Database {
    if TableOf(u) in tables then tables[TableOf(u) := tables[TableOf(u)].(rows := NewRows(u, tables))] else tables
  }

  lemma RunUpdateIs(s: State, u: Update)
    ensures RunUpdate(s, u).Reached? ==> RunUpdate(s, u).state == s.(tables := Updated(s.tables, u))
  {
  }

  /** A row that is not selected stays as it is; of a selected one only the written columns change. */
  lemma UpdateTouches(u: Update, tables: Database, i: nat)
    requires TableOf(u) in tables && WellFormedTable(tables[TableOf(u)]) && Runnable(u, tables)
    requires i < |tables[TableOf(u)].rows|
    ensures var before, after := tables[TableOf(u)].rows[i], NewRows(u, tables)[i];
            && (!Selects(u, tables, i) ==> after == before)
            && after.Keys == before.Keys
            && forall c :: c !in Writes(u) ==> Cell(after, c) == Cell(before, c)
  {
    NeedsWrites(u, tables);
    assert tables[TableOf(u)].rows[i].Keys == tables[TableOf(u)].cols.Keys;
  }

  /** An update has nothing left to do. */
  predicate Quiet(u: Update, tables: Database) {
    NewRows(u, tables) == RowsIn(tables, TableOf(u))
  }

  // ---------- both updates are idempotent ----------

  lemma ClosedIsClosed(row: Row, now: string)
    ensures !IsOpen(ClosedShift(row, now))
  {
  }

  lemma OpenIsUntouched(rows: seq<Row>, now: string, j: nat)
    requires j < |rows|
    ensures IsOpen(AllClosed(rows, now)[j]) ==> AllClosed(rows, now)[j] == rows[j] && !Superseded(rows, rows[j])
  {
    ClosedIsClosed(rows[j], now);
  }

  lemma ClosingIsIdempotent(rows: seq<Row>, now: string, later: string)
    ensures AllClosed(AllClosed(rows, now), later) == AllClosed(rows, now)
  {
    var once := AllClosed(rows, now);
    forall j | 0 <= j < |rows|
      ensures IsOpen(once[j]) ==> once[j] == rows[j] && !Superseded(rows, rows[j])
    {
      OpenIsUntouched(rows, now, j);
    }
    assert forall row :: Superseded(once, row) ==> Superseded(rows, row);
  }

  lemma {:induction false} TenantIs(memos: seq<Row>, a: Row, b: Row)
    requires HasMemo(memos, a) && Cell(a, "memo_id") == Cell(b, "memo_id")
    ensures HasMemo(memos, b) && TenantFor(memos, a) == TenantFor(memos, b)
  {
    var j :| 0 <= j < |memos| && IsMemo(memos[j], a);
    assert IsMemo(memos[j], b);
    if !IsMemo(memos[0], a) {
      assert memos[1..][j - 1] == memos[j];
      TenantIs(memos[1..], a, b);
    }
  }

  lemma StampingIsIdempotent(rows: seq<Row>, memos: seq<Row>)
    ensures AllStamped(AllStamped(rows, memos), memos) == AllStamped(rows, memos)
  {
    var once := AllStamped(rows, memos);
    var twice := AllStamped(once, memos);
    forall i | 0 <= i < |rows|
      ensures twice[i] == once[i]
    {
      if Stamps(memos, once[i]) && Stamps(memos, rows[i]) {
        TenantIs(memos, rows[i], once[i]);
        assert twice[i]["tenant_id"] == TenantFor(memos, rows[i]);
        assert twice[i] == once[i];
      }
    }
  }

  lemma UpdatedIsQuiet(u: Update, v: Update, tables: Database)
    requires TableOf(u) in tables && (u == v || (u.CloseOpenShifts? && v.CloseOpenShifts?))
    ensures Quiet(v, Updated(tables, u))
  {
    match u {
      case CloseOpenShifts(now) => ClosingIsIdempotent(RowsIn(tables, "shifts"), now, v.now);
      case StampTenants => StampingIsIdempotent(RowsIn(tables, "memo_recipients"), RowsIn(tables, "memos"));
    }
  }

  // ---------- the newest open shift stays, and the index becomes applicable ----------

  lemma NewerIsTransitive(a: Row, b: Row, c: Row)
    requires Newer(a, b) && Newer(b, c)
    ensures Newer(a, c)
  {
    forall x, y, z | After(x, y) && After(y, z) ensures After(x, z) { PrecedesIsTransitive(z.text, y.text, x.text); }
  }

  lemma NewerIsStrict(a: Row)
    ensures !Newer(a, a)
  {
    forall x ensures !After(x, x) { if x != Null { PrecedesIsStrict(x.text); } }
  }

  function Ahead(rows: seq<Row>, row: Row): set<nat> {
    set j: nat | j < |rows| && Newer(rows[j], row)
  }

  /** Of the open shifts of a user the newest stays open. */
  lemma {:induction false} NewestStaysOpen(rows: seq<Row>, now: string, i: nat) returns (j: nat)
    requires i < |rows| && IsOpen(rows[i]) && SameUser(rows[i], rows[i])
    ensures j < |rows| && SameUser(rows[j], rows[i]) && AllClosed(rows, now)[j] == rows[j] && IsOpen(rows[j])
    ensures forall k :: 0 <= k < |rows| && IsOpen(rows[k]) && SameUser(rows[k], rows[i]) ==> !Newer(rows[k], rows[j])
    decreases |Ahead(rows, rows[i])|
  {
    if Superseded(rows, rows[i]) {
      var next: nat :| next < |rows| && IsOpen(rows[next]) && SameUser(rows[next], rows[i]) && Newer(rows[next], rows[i]);
      forall k | k in Ahead(rows, rows[next]) ensures k in Ahead(rows, rows[i]) {
        NewerIsTransitive(rows[k], rows[next], rows[i]);
      }
      NewerIsStrict(rows[next]);
      assert next in Ahead(rows, rows[i]) - Ahead(rows, rows[next]);
      FewerAhead(Ahead(rows, rows[next]), Ahead(rows, rows[i]), next);
      j := NewestStaysOpen(rows, now, next);
    } else {
      j := i;
    }
  }

  lemma FewerAhead(few: set<nat>, many: set<nat>, x: nat)
    requires few <= many && x in many && x !in few
    ensures |few| < |many|
  {
    assert few + {x} <= many;
    assert |many - (few + {x})| == |many| - |few + {x}|;
  }

  // ---------- the two updates, cell by cell ----------

  /** An open shift of this user was opened later, or at the same time with a greater id. */
  ghost predicate LaterOpenShift(rows: seq<Row>, row: Row) {
    exists j :: 0 <= j < |rows| && LaterShift(rows[j], row)
  }

  ghost predicate LaterShift(newer: Row, row: Row) {
    && Cell(newer, "status") == Literal("open")
    && (exists user :: Cell(newer, "user_id") == Literal(user) && Cell(row, "user_id") == Literal(user))
    && exists x, y, a, b ::
         && Cell(row, "opened_at") == Literal(x) && Cell(newer, "opened_at") == Literal(y)
         && (Precedes(x, y) || (x == y && Cell(row, "id") == Literal(a) && Cell(newer, "id") == Literal(b) && Precedes(a, b)))
  }

  lemma LaterShiftIs(newer: Row, row: Row)
    ensures LaterShift(newer, row) <==> IsOpen(newer) && SameUser(newer, row) && Newer(newer, row)
  {
    if IsOpen(newer) && SameUser(newer, row) && Newer(newer, row) {
      var x, y := Cell(row, "opened_at"), Cell(newer, "opened_at");
      var a, b := Cell(row, "id"), Cell(newer, "id");
      assert Cell(newer, "user_id") == Literal(Cell(row, "user_id").text);
      assert x == Literal(x.text) && y == Literal(y.text);
      var m := if a == Null then "" else a.text;
      var n := if b == Null then "" else b.text;
      assert Precedes(x.text, y.text) || (x.text == y.text && a == Literal(m) && b == Literal(n) && Precedes(m, n));
    }
  }

  lemma SupersededIs(rows: seq<Row>, row: Row)
    ensures Superseded(rows, row) <==> Cell(row, "status") == Literal("open") && LaterOpenShift(rows, row)
  {
    forall j | 0 <= j < |rows|
      ensures LaterShift(rows[j], row) <==> IsOpen(rows[j]) && SameUser(rows[j], row) && Newer(rows[j], row)
    {
      LaterShiftIs(rows[j], row);
    }
  }

  /** A row stays as it is exactly when it is not open or no open shift of its user is later. */
  lemma OnlyTheLatestStays(rows: seq<Row>, now: string, i: nat)
    requires i < |rows|
    ensures AllClosed(rows, now)[i] == rows[i] <==> Cell(rows[i], "status") != Literal("open") || !LaterOpenShift(rows, rows[i])
  {
    SupersededIs(rows, rows[i]);
    ClosedIsClosed(rows[i], now);
  }

  /** Of two open shifts of a user the one opened first is closed. */
  lemma EarlierIsClosed(rows: seq<Row>, now: string, i: nat, j: nat, user: string, x: string, y: string)
    requires i < |rows| && j < |rows| && Cell(rows[i], "status") == Cell(rows[j], "status") == Literal("open")
    requires Cell(rows[i], "user_id") == Cell(rows[j], "user_id") == Literal(user)
    requires Cell(rows[i], "opened_at") == Literal(x) && Cell(rows[j], "opened_at") == Literal(y) && Precedes(x, y)
    ensures Cell(AllClosed(rows, now)[i], "status") == Literal("closed")
  {
    assert Newer(rows[j], rows[i]) && SameUser(rows[j], rows[i]) && IsOpen(rows[j]);
  }

  /** Of two opened at the same time it is the one with the smaller id. */
  lemma SmallerIdIsClosed(rows: seq<Row>, now: string, i: nat, j: nat, user: string, x: string, a: string, b: string)
    requires i < |rows| && j < |rows| && Cell(rows[i], "status") == Cell(rows[j], "status") == Literal("open")
    requires Cell(rows[i], "user_id") == Cell(rows[j], "user_id") == Literal(user)
    requires Cell(rows[i], "opened_at") == Cell(rows[j], "opened_at") == Literal(x)
    requires Cell(rows[i], "id") == Literal(a) && Cell(rows[j], "id") == Literal(b) && Precedes(a, b)
    ensures Cell(AllClosed(rows, now)[i], "status") == Literal("closed")
  {
    assert Newer(rows[j], rows[i]) && SameUser(rows[j], rows[i]) && IsOpen(rows[j]);
  }

  /** What becomes of a shift that is closed, column by column. */
  ghost predicate ClosedAs(before: Row, after: Row, now: string) {
    && Cell(after, "status") == Literal("closed")
    && Cell(after, "closed_at") == Cell(after, "updated_at") == Literal(now)
    && Cell(after, "closing_balance_minor") == Cell(after, "expected_cash_minor") == Cell(after, "cash_difference_minor") == Null
    && Cell(after, "notes") == (match Cell(before, "notes")
                                case Null => Null
                                case Literal(notes) =>
                                  Literal((if notes == "" then "" else notes + " | ")
                                          + "auto-closed: duplicate open shift (COR-27 reconciliation)"))
    && forall c :: c !in {"status", "closed_at", "closing_balance_minor", "expected_cash_minor", "cash_difference_minor", "notes", "updated_at"} ==>
         Cell(after, c) == Cell(before, c)
  }

  lemma ClosedCells(rows: seq<Row>, now: string, i: nat)
    requires i < |rows| && Cell(rows[i], "status") == Literal("open") && LaterOpenShift(rows, rows[i])
    ensures ClosedAs(rows[i], AllClosed(rows, now)[i], now)
  {
    SupersededIs(rows, rows[i]);
    ClosedShiftIs(rows[i], now);
  }

  lemma ClosedShiftIs(row: Row, now: string)
    ensures ClosedAs(row, ClosedShift(row, now), now)
  {
  }

  /** A recipient at the default tenant gets the tenant of the memo it names; every other row, and every other
      column, stays. */
  lemma StampedCells(rows: seq<Row>, memos: seq<Row>, i: nat, j: nat)
    requires i < |rows| && j < |memos| && OneMemoEach(rows, memos)
    ensures Cell(rows[i], "tenant_id") == Literal("default") && Cell(memos[j], "id") == Cell(rows[i], "memo_id") != Null ==>
              AllStamped(rows, memos)[i] == rows[i]["tenant_id" := Cell(memos[j], "tenant_id")]
    ensures Cell(rows[i], "tenant_id") != Literal("default") ==> AllStamped(rows, memos)[i] == rows[i]
    ensures (forall k :: 0 <= k < |memos| ==> Cell(memos[k], "id") != Cell(rows[i], "memo_id")) ==> AllStamped(rows, memos)[i] == rows[i]
  {
    if Cell(rows[i], "tenant_id") == Literal("default") && IsMemo(memos[j], rows[i]) {
      TenantOfTheMemo(memos, rows[i], j);
    }
  }

  lemma {:induction false} TenantOfTheMemo(memos: seq<Row>, row: Row, j: nat)
    requires j < |memos| && IsMemo(memos[j], row) && forall k :: 0 <= k < |memos| && k != j ==> !IsMemo(memos[k], row)
    ensures HasMemo(memos, row) && TenantFor(memos, row) == Cell(memos[j], "tenant_id")
  {
    if j > 0 {
      assert forall k :: 0 <= k < |memos[1..]| ==> memos[1..][k] == memos[k + 1];
      TenantOfTheMemo(memos[1..], row, j - 1);
    }
  }

  /** The key of idx_shifts_open_per_user. */
  const OPEN_PER_USER := Key({"user_id"}, {Is("status", "open")})

  /** Two open shifts of one user that the order (opened_at, id) does not tell apart, and none is newer. */
  predicate Tied(rows: seq<Row>, i: nat, j: nat)
    requires i < |rows| && j < |rows|
  {
    && IsOpen(rows[i]) && IsOpen(rows[j]) && SameUser(rows[i], rows[j])
    && !Superseded(rows, rows[i]) && !Superseded(rows, rows[j])
  }

  /** After the repair the unique index can be created exactly when no user has two newest open shifts. */
  lemma RepairMakesApplicableIff(rows: seq<Row>, now: string)
    ensures !Repeats(AllClosed(rows, now), OPEN_PER_USER) <==> forall i, j :: 0 <= i < j < |rows| ==> !Tied(rows, i, j)
  {
    var after := AllClosed(rows, now);
    assert OPEN_PER_USER.cols == {"user_id"} && OPEN_PER_USER.scope == {Is("status", "open")};
    forall i, j | 0 <= i < j < |rows|
      ensures SameKey(OPEN_PER_USER, after[i], after[j]) <==> Tied(rows, i, j)
    {
      OpenKeyIs(after[i], after[j]);
      ClosedIsClosed(rows[i], now);
      ClosedIsClosed(rows[j], now);
    }
  }

  lemma OpenKeyIs(a: Row, b: Row)
    ensures SameKey(OPEN_PER_USER, a, b) <==> IsOpen(a) && IsOpen(b) && SameUser(a, b)
  {
    var x := Is("status", "open");
    assert x in OPEN_PER_USER.scope && "user_id" in OPEN_PER_USER.cols;
    assert InScope(OPEN_PER_USER, a) <==> Passes(x, a);
    assert InScope(OPEN_PER_USER, b) <==> Passes(x, b);
  }

  /** With distinct ids and no NULL in opened_at there never are two: the repair always suffices. */
  lemma DistinctIdsAreNotTied(rows: seq<Row>, i: nat, j: nat)
    requires i < j < |rows| && !Repeats(rows, Key({"id"}, {}))
    requires forall k :: 0 <= k < |rows| ==> Cell(rows[k], "id") != Null && Cell(rows[k], "opened_at") != Null
    ensures !Tied(rows, i, j)
  {
    var a, b := rows[i], rows[j];
    assert "id" in Key({"id"}, {}).cols;
    assert !SameKey(Key({"id"}, {}), a, b);
    assert Cell(a, "id") != Cell(b, "id");
    PrecedesIsTotal(Cell(a, "id").text, Cell(b, "id").text);
    PrecedesIsTotal(Cell(a, "opened_at").text, Cell(b, "opened_at").text);
    assert Newer(a, b) || Newer(b, a);
  }
}
