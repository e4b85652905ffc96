/**
  Which rows an INSERT ... ON CONFLICT DO NOTHING adds to a table, and with which
  cells.
 */
module Inserting {
  import opened Sequences
  import opened Catalog
  import opened Storage
  import opened Seeds

  /** No key applies both to the row and to a row of the table. */
  ghost predicate IsNew(keys: set<Key>, rows: seq<Row>, row: Row) {
    forall k, i :: k in keys && 0 <= i < |rows| ==> !SameKey(k, rows[i], row)
  }

  /** Nor to an earlier row that is added. */
  ghost predicate IsFirst(keys: set<Key>, added: seq<Row>, places: seq<nat>, n: nat)
    requires n < |added|
  {
    forall k, m :: k in keys && 0 <= m < n && m in places ==> !SameKey(k, added[m], added[n])
  }

  /** `places` are the rows, in order, that agree on no key with a row of the table or with an earlier one of them. */
  ghost predicate Adds(keys: set<Key>, rows: seq<Row>, added: seq<Row>, places: seq<nat>) {
    && Increasing(places) && (forall i :: 0 <= i < |places| ==> places[i] < |added|)
    && forall n :: 0 <= n < |added| ==> (n in places <==> IsNew(keys, rows, added[n]) && IsFirst(keys, added, places, n))
  }

  function At(added: seq<Row>, places: seq<nat>): (rows: seq<Row>)
    requires forall i :: 0 <= i < |places| ==> places[i] < |added|
    ensures |rows| == |places|
  {
    seq(|places|, i requires 0 <= i < |places| => added[places[i]])
  }

  lemma {:induction false} AdmitSnoc(keys: set<Key>, rows: seq<Row>, added: seq<Row>, last: Row)
    ensures var before := Admit(keys, rows, added);
            Admit(keys, rows, added + [last]) == if Conflicts(keys, before, last) then before else before + [last]
    decreases |added|
  {
    if added == [] {
      assert added + [last] == [last] && [last][1..] == [];
    } else {
      assert (added + [last])[1..] == added[1..] + [last] && (added + [last])[0] == added[0];
      AdmitSnoc(keys, if Conflicts(keys, rows, added[0]) then rows else rows + [added[0]], added[1..], last);
    }
  }

  lemma ConflictsIs(keys: set<Key>, rows: seq<Row>, more: seq<Row>, row: Row)
    ensures Conflicts(keys, rows + more, row) <==> !IsNew(keys, rows, row) || !IsNew(keys, more, row)
  {
    var all := rows + more;
    if Conflicts(keys, all, row) {
      var k, i :| k in keys && 0 <= i < |all| && SameKey(k, all[i], row);
      assert i >= |rows| ==> SameKey(k, more[i - |rows|], row);
    }
    if k, i :| k in keys && 0 <= i < |rows| && SameKey(k, rows[i], row) {
      assert SameKey(k, all[i], row);
    }
    if k, i :| k in keys && 0 <= i < |more| && SameKey(k, more[i], row) {
      assert SameKey(k, all[|rows| + i], row);
    }
  }

  lemma FirstIs(keys: set<Key>, added: seq<Row>, front: seq<nat>)
    requires added != [] && forall i :: 0 <= i < |front| ==> front[i] < |added| - 1
    ensures IsNew(keys, At(added, front), added[|added| - 1]) <==> IsFirst(keys, added, front, |added| - 1)
  {
    var n, chosen := |added| - 1, At(added, front);
    if IsFirst(keys, added, front, n) {
      forall k, i | k in keys && 0 <= i < |chosen|
        ensures !SameKey(k, chosen[i], added[n])
      {
        assert front[i] in front;
      }
    }
    if IsNew(keys, chosen, added[n]) {
      forall k, m | k in keys && 0 <= m < n && m in front
        ensures !SameKey(k, added[m], added[n])
      {
        var i :| 0 <= i < |front| && front[i] == m;
        assert !SameKey(k, chosen[i], added[n]);
      }
    }
  }

  lemma {:induction false} AdmitAdds(keys: set<Key>, rows: seq<Row>, added: seq<Row>) returns (places: seq<nat>)
    ensures Adds(keys, rows, added, places) && Admit(keys, rows, added) == rows + At(added, places)
    decreases |added|
  {
    if added == [] {
      places := [];
      assert rows + At(added, places) == rows;
    } else {
      var n := |added| - 1;
      var front := AdmitAdds(keys, rows, added[..n]);
      places := if IsNew(keys, rows, added[n]) && IsFirst(keys, added, front, n) then front + [n] else front;
      LastAdds(keys, rows, added, front, places);
      LastAdmits(keys, rows, added, front);
    }
  }

  lemma LastAdmits(keys: set<Key>, rows: seq<Row>, added: seq<Row>, front: seq<nat>)
    requires added != [] && forall i :: 0 <= i < |front| ==> front[i] < |added| - 1
    requires Admit(keys, rows, added[..|added| - 1]) == rows + At(added[..|added| - 1], front)
    ensures var n := |added| - 1;
            Admit(keys, rows, added) ==
            rows + At(added, if IsNew(keys, rows, added[n]) && IsFirst(keys, added, front, n) then front + [n] else front)
  {
    var n := |added| - 1;
    assert At(added[..n], front) == At(added, front);
    assert added == added[..n] + [added[n]];
    AdmitSnoc(keys, rows, added[..n], added[n]);
    ConflictsIs(keys, rows, At(added, front), added[n]);
    FirstIs(keys, added, front);
    OneMore(rows, added, front, n);
  }

  lemma OneMore(rows: seq<Row>, added: seq<Row>, front: seq<nat>, n: nat)
    requires n < |added| && forall i :: 0 <= i < |front| ==> front[i] < |added|
    ensures rows + At(added, front + [n]) == rows + At(added, front) + [added[n]]
  {
    assert At(added, front + [n]) == At(added, front) + [added[n]];
  }

  lemma LastAdds(keys: set<Key>, rows: seq<Row>, added: seq<Row>, front: seq<nat>, places: seq<nat>)
    requires added != [] && Adds(keys, rows, added[..|added| - 1], front)
    requires var n := |added| - 1;
             places == if IsNew(keys, rows, added[n]) && IsFirst(keys, added, front, n) then front + [n] else front
    ensures Adds(keys, rows, added, places)
  {
    var n := |added| - 1;
    assert (front + [n])[|front|] == n;
    forall m | 0 <= m < |added|
      ensures m in places <==> IsNew(keys, rows, added[m]) && IsFirst(keys, added, places, m)
    {
      FirstStays(keys, added, front, places, m);
    }
  }

  /** Which rows are first is settled by the rows before them. */
  lemma FirstStays(keys: set<Key>, added: seq<Row>, front: seq<nat>, places: seq<nat>, m: nat)
    requires m < |added| && (forall i :: 0 <= i < |front| ==> front[i] < |added| - 1) && (places == front || places == front + [|added| - 1])
    ensures IsFirst(keys, added, places, m) <==> IsFirst(keys, added, front, m)
    ensures m < |added| - 1 ==>
              (IsFirst(keys, added, front, m) <==> IsFirst(keys, added[..|added| - 1], front, m))
              && added[..|added| - 1][m] == added[m] && (m in places <==> m in front)
  {
    assert forall i :: 0 <= i <= m && m < |added| - 1 ==> added[..|added| - 1][i] == added[i];
    assert forall i :: 0 <= i < m ==> (i in places <==> i in front);
  }

  ghost predicate Completes(cols: Columns, given: Row, row: Row) {
    && given.Keys <= row.Keys == cols.Keys
    && forall c :: c in cols ==> row[c] == if c in given then given[c] else cols[c].fill
  }

  /** Behind the rows that were there stands each row that is new, with the cells it gives and the defaults of the columns
      that it leaves out. */
  ghost predicate Grown(keys: set<Key>, cols: Columns, before: seq<Row>, given: seq<Row>, after: seq<Row>, places: seq<nat>) {
    && |after| == |before| + |places| && before <= after && Adds(keys, before, StoredAll(cols, given), places)
    && forall i :: 0 <= i < |places| ==> Completes(cols, given[places[i]], after[|before| + i])
  }

  lemma AdmitGrows(keys: set<Key>, cols: Columns, before: seq<Row>, given: seq<Row>) returns (places: seq<nat>)
    requires RowsFit(cols, given)
    ensures Grown(keys, cols, before, given, Admit(keys, before, StoredAll(cols, given)), places)
  {
    var all := StoredAll(cols, given);
    places := AdmitAdds(keys, before, all);
    forall i | 0 <= i < |places|
      ensures Completes(cols, given[places[i]], At(all, places)[i])
    {
      StoredCompletes(cols, given[places[i]]);
    }
  }

  /** What the table holds after an insert that goes through. */
  lemma InsertAdds(s: State, insert: Insert) returns (places: seq<nat>)
    requires RunInsert(s, insert).Reached?
    ensures insert.into in s.tables && insert.into in RunInsert(s, insert).state.tables
    ensures var t, after := s.tables[insert.into], RunInsert(s, insert).state.tables[insert.into];
            after.cols == t.cols && Grown(KeysOn(s, insert.into), t.cols, t.rows, insert.rows, after.rows, places)
  {
    InsertReaches(s, insert);
    var t := s.tables[insert.into];
    places := AdmitGrows(KeysOn(s, insert.into), t.cols, t.rows, insert.rows);
  }

  lemma InsertReaches(s: State, insert: Insert)
    requires RunInsert(s, insert).Reached?
    ensures insert.into in s.tables && RowsFit(s.tables[insert.into].cols, insert.rows)
    ensures insert.into in RunInsert(s, insert).state.tables
    ensures RunInsert(s, insert).state.tables[insert.into] == s.tables[insert.into].(rows := RowsAfter(s, insert))
  {
  }

  lemma StoredCompletes(cols: Columns, row: Row)
    requires RowFits(cols, row)
    ensures Completes(cols, row, Stored(cols, row))
  {
  }
}
