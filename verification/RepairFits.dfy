/**
  When PostgreSQL refuses one of the two updates, and when the repair of the open
  shifts makes its unique index applicable.
 */
module RepairFits {
  import opened Catalog
  import opened Storage
  import opened Repairs

  // ---------- updates that leave keys and foreign keys alone ----------

  /** The written columns are in no key and no foreign key of the table; a scope may ask for an open status,
      which closing can only take away. */
  predicate KeyIsUnwritten(k: Key, u: Update) {
    k.cols !! Writes(u) && forall x :: x in k.scope && x.col in Writes(u) ==> u.CloseOpenShifts? && x == Is("status", "open")
  }

  predicate LinkIsUnwritten(l: Link, u: Update) {
    forall p :: p in l.pairs ==> (l.child == TableOf(u) ==> p.0 !in Writes(u)) && (l.parent == TableOf(u) ==> p.1 !in Writes(u))
  }

  ghost predicate Unwritten(s: State, u: Update) {
    && (forall k :: k in KeysOn(s, TableOf(u)) ==> KeyIsUnwritten(k, u))
    && (forall l :: l in s.links ==> LinkIsUnwritten(l, u))
  }

  lemma KeyOfUpdated(u: Update, tables: Database, k: Key, i: nat, j: nat)
    requires TableOf(u) in tables && WellFormedTable(tables[TableOf(u)]) && Runnable(u, tables) && KeyIsUnwritten(k, u)
    requires i < |tables[TableOf(u)].rows| && j < |tables[TableOf(u)].rows|
    requires SameKey(k, NewRows(u, tables)[i], NewRows(u, tables)[j])
    ensures SameKey(k, tables[TableOf(u)].rows[i], tables[TableOf(u)].rows[j])
  {
    UpdateTouches(u, tables, i);
    UpdateTouches(u, tables, j);
    ScopeOfUpdated(u, tables, k, i);
    ScopeOfUpdated(u, tables, k, j);
    assert forall c :: c in k.cols ==> c !in Writes(u);
  }

  lemma ScopeOfUpdated(u: Update, tables: Database, k: Key, i: nat)
    requires TableOf(u) in tables && WellFormedTable(tables[TableOf(u)]) && Runnable(u, tables) && KeyIsUnwritten(k, u)
    requires i < |tables[TableOf(u)].rows| && InScope(k, NewRows(u, tables)[i])
    ensures InScope(k, tables[TableOf(u)].rows[i])
  {
    var before, after := tables[TableOf(u)].rows[i], NewRows(u, tables)[i];
    UpdateTouches(u, tables, i);
    forall x | x in k.scope
      ensures Passes(x, before)
    {
      assert Passes(x, after);
      if x.col in Writes(u) {
        OpenIsUntouched(RowsIn(tables, "shifts"), u.now, i);
        assert IsOpen(after);
      }
    }
  }

  lemma LinkOfUpdated(s: State, u: Update, l: Link)
    requires Lawful(s) && TableOf(u) in s.tables && Runnable(u, s.tables) && LinkIsUnwritten(l, u) && l in s.links
    ensures LinkHolds(Updated(s.tables, u), l)
  {
    var t, after := TableOf(u), Updated(s.tables, u);
    var rows, parents := RowsIn(s.tables, l.child), RowsIn(s.tables, l.parent);
    assert LinkHolds(s.tables, l);
    forall i | 0 <= i < |rows|
      ensures forall p :: p in l.pairs ==> Cell(RowsIn(after, l.child)[i], p.0) == Cell(rows[i], p.0)
    {
      if l.child == t { UpdateTouches(u, s.tables, i); }
    }
    forall j | 0 <= j < |parents|
      ensures forall p :: p in l.pairs ==> Cell(RowsIn(after, l.parent)[j], p.1) == Cell(parents[j], p.1)
    {
      if l.parent == t { UpdateTouches(u, s.tables, j); }
    }
    forall i | 0 <= i < |rows| && Refers(RowsIn(after, l.child)[i], l)
      ensures HasParentIn(RowsIn(after, l.child)[i], RowsIn(after, l.parent), l)
    {
      assert Refers(rows[i], l);
      var j :| 0 <= j < |parents| && IsParent(rows[i], parents[j], l);
      assert IsParent(RowsIn(after, l.child)[i], RowsIn(after, l.parent)[j], l);
    }
  }

  /** Such an update is refused only by a NOT NULL column. */
  lemma UpdateRunsIff(s: State, u: Update)
    requires Lawful(s) && TableOf(u) in s.tables && Runnable(u, s.tables) && Unwritten(s, u)
    ensures RunUpdate(s, u).Reached? <==> WellFormedTable(Updated(s.tables, u)[TableOf(u)])
  {
    var t := TableOf(u);
    forall k | k in KeysOn(s, t)
      ensures !Repeats(NewRows(u, s.tables), k)
    {
      forall i, j | 0 <= i < j < |NewRows(u, s.tables)|
        ensures !SameKey(k, NewRows(u, s.tables)[i], NewRows(u, s.tables)[j])
      {
        assert !SameKey(k, s.tables[t].rows[i], s.tables[t].rows[j]);
        if SameKey(k, NewRows(u, s.tables)[i], NewRows(u, s.tables)[j]) {
          KeyOfUpdated(u, s.tables, k, i, j);
          assert false;
        }
      }
    }
    forall l | l in s.links
      ensures LinkHolds(Updated(s.tables, u), l)
    {
      LinkOfUpdated(s, u, l);
    }
  }

  // ---------- the two updates ----------

  /** The columns that closing a shift sets to NULL. */
  const NULLED := {"closing_balance_minor", "expected_cash_minor", "cash_difference_minor"}

  /** The repair is refused exactly when a shift has to be closed and the table, created by an earlier
      script, has one of the columns it clears as NOT NULL. */
  lemma ClosingRunsIff(s: State, now: string)
    requires Lawful(s) && Runnable(CloseOpenShifts(now), s.tables) && Unwritten(s, CloseOpenShifts(now))
    ensures "shifts" in s.tables && NULLED <= s.tables["shifts"].cols.Keys
    ensures var t := s.tables["shifts"];
            RunUpdate(s, CloseOpenShifts(now)).Reached? <==>
            (forall c :: c in NULLED ==> !t.cols[c].notNull) || forall i :: 0 <= i < |t.rows| ==> !Superseded(t.rows, t.rows[i])
  {
    var u := CloseOpenShifts(now);
    NeedsWrites(u, s.tables);
    var t, after := s.tables["shifts"], NewRows(u, s.tables);
    UpdateRunsIff(s, u);
    forall i | 0 <= i < |t.rows|
      ensures after[i].Keys == t.cols.Keys
      ensures (forall c :: c in t.cols && t.cols[c].notNull ==> after[i][c] != Null) <==>
              (Superseded(t.rows, t.rows[i]) ==> forall c :: c in NULLED ==> !t.cols[c].notNull)
    {
      UpdateTouches(u, s.tables, i);
      ClosedFits(t, i, now);
    }
    assert WellFormedTable(t.(rows := after)) <==>
           forall i :: 0 <= i < |t.rows| ==> forall c :: c in t.cols && t.cols[c].notNull ==> after[i][c] != Null;
  }

  lemma ClosedFits(t: Table, i: nat, now: string)
    requires WellFormedTable(t) && i < |t.rows| && Writes(CloseOpenShifts(now)) <= t.cols.Keys
    ensures var row := if Superseded(t.rows, t.rows[i]) then ClosedShift(t.rows[i], now) else t.rows[i];
            row.Keys == t.cols.Keys &&
            ((forall c :: c in t.cols && t.cols[c].notNull ==> row[c] != Null) <==>
             (Superseded(t.rows, t.rows[i]) ==> forall c :: c in NULLED ==> !t.cols[c].notNull))
  {
    assert t.rows[i].Keys == t.cols.Keys;
    if Superseded(t.rows, t.rows[i]) {
      var row := ClosedShift(t.rows[i], now);
      assert forall c :: c in NULLED ==> c in t.cols && row[c] == Null;
    }
  }

  /** Stamping is refused exactly when the column is NOT NULL and the memo of a row it selects has no tenant. */
  lemma StampingRunsIff(s: State)
    requires Lawful(s) && Runnable(StampTenants, s.tables) && Unwritten(s, StampTenants)
    ensures "memo_recipients" in s.tables && "tenant_id" in s.tables["memo_recipients"].cols
    ensures var t, memos := s.tables["memo_recipients"], RowsIn(s.tables, "memos");
            RunUpdate(s, StampTenants).Reached? <==>
            !t.cols["tenant_id"].notNull || forall i :: 0 <= i < |t.rows| && Stamps(memos, t.rows[i]) ==> TenantFor(memos, t.rows[i]) != Null
  {
    NeedsWrites(StampTenants, s.tables);
    var t, memos := s.tables["memo_recipients"], RowsIn(s.tables, "memos");
    var after := NewRows(StampTenants, s.tables);
    UpdateRunsIff(s, StampTenants);
    forall i | 0 <= i < |t.rows|
      ensures after[i].Keys == t.cols.Keys
      ensures (forall c :: c in t.cols && t.cols[c].notNull ==> after[i][c] != Null) <==>
              (t.cols["tenant_id"].notNull && Stamps(memos, t.rows[i]) ==> TenantFor(memos, t.rows[i]) != Null)
    {
      assert t.rows[i].Keys == t.cols.Keys;
    }
    assert WellFormedTable(t.(rows := after)) <==>
           forall i :: 0 <= i < |t.rows| ==> forall c :: c in t.cols && t.cols[c].notNull ==> after[i][c] != Null;
  }
}
