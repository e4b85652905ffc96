/**
  `topo_sort` of scripts/generate-pg-migration.py: Kahn's algorithm over the
  REFERENCES clauses, with a fallback that appends whatever a cycle left behind.
 */
module TableOrder {
  import opened Sequences
  import opened Graph

  datatype TableDef = TableDef(name: Node, refs: set<Node>, text: string)

  function Names(tables: seq<TableDef>): (names: seq<Node>)
    ensures |names| == |tables| && forall i :: 0 <= i < |tables| ==> names[i] == tables[i].name
  {
    seq(|tables|, i requires 0 <= i < |tables| => tables[i].name)
  }

  /** The references that count: other tables of the schema. */
  function KnownRefs(t: TableDef, names: set<Node>): set<Node> {
    (t.refs * names) - {t.name}
  }

  function DepsFrom(tables: seq<TableDef>, names: set<Node>): Deps {
    if tables == [] then map[] else DepsFrom(tables[1..], names)[tables[0].name := KnownRefs(tables[0], names)]
  }

  function DepsOf(tables: seq<TableDef>): Deps {
    DepsFrom(tables, Elems(Names(tables)))
  }

  lemma {:induction false} DepsFromIsExact(tables: seq<TableDef>, names: set<Node>)
    requires NoDup(Names(tables))
    ensures DepsFrom(tables, names).Keys == Elems(Names(tables))
    ensures forall i :: 0 <= i < |tables| ==>
              tables[i].name in DepsFrom(tables, names) && DepsFrom(tables, names)[tables[i].name] == KnownRefs(tables[i], names)
  {
    if tables != [] {
      var rest := tables[1..];
      assert forall i :: 0 <= i < |rest| ==> Names(rest)[i] == Names(tables)[i + 1];
      DepsFromIsExact(rest, names);
      assert Names(tables) == [tables[0].name] + Names(rest);
      forall i | 0 < i < |tables|
        ensures tables[i].name != tables[0].name && tables[i] == rest[i - 1]
      {
        assert Names(tables)[0] != Names(tables)[i];
      }
    }
  }

  lemma DepsAreClosed(tables: seq<TableDef>)
    requires NoDup(Names(tables))
    ensures Closed(DepsOf(tables)) && DepsOf(tables).Keys == Elems(Names(tables))
  {
    DepsFromIsExact(tables, Elems(Names(tables)));
    forall n | n in DepsOf(tables)
      ensures DepsOf(tables)[n] <= DepsOf(tables).Keys && n !in DepsOf(tables)[n]
    {
      var i :| 0 <= i < |tables| && Names(tables)[i] == n;
      assert tables[i].name == n;
    }
  }

  // ---------- building the counts and the reverse edges ----------

  type Adjacency = map<Node, seq<Node>>

  predicate Lists(adj: Adjacency, n: Node, m: Node) {
    n in adj && m in adj[n]
  }

  ghost predicate NoRepeats(adj: Adjacency) {
    forall n :: n in adj ==> NoDup(adj[n])
  }

  /** `adj[n]` lists, once each, the nodes of `done` that depend on `n`. */
  ghost predicate Recorded(deps: Deps, done: set<Node>, adj: Adjacency) {
    NoRepeats(adj) && forall n, m :: Lists(adj, n, m) <==> m in done && Follows(deps, m, n)
  }

  function AddUser(adj: Adjacency, n: Node, m: Node): Adjacency {
    adj[n := (if n in adj then adj[n] else []) + [m]]
  }

  lemma AddUserIsExact(adj: Adjacency, n: Node, m: Node)
    requires NoRepeats(adj) && !Lists(adj, n, m)
    ensures NoRepeats(AddUser(adj, n, m))
    ensures forall x, y :: Lists(AddUser(adj, n, m), x, y) <==> Lists(adj, x, y) || (x == n && y == m)
  {
  }

  /** The inner loop of the first half: one table's references. */
  method RecordTable(t: TableDef, names: set<Node>, ghost deps: Deps, ghost done: set<Node>, adj: Adjacency)
    returns (count: nat, out: Adjacency)
    requires Recorded(deps, done, adj) && t.name !in done
    requires t.name in deps && deps[t.name] == KnownRefs(t, names)
    ensures count == |deps[t.name]|
    ensures Recorded(deps, done + {t.name}, out)
  {
    count, out := 0, adj;
    var todo := t.refs;
    ghost var counted: set<Node> := {};
    while todo != {}
      invariant todo <= t.refs && counted == KnownRefs(t, names) - todo && count == |counted|
      invariant NoRepeats(out)
      invariant forall n, m :: Lists(out, n, m) <==> Lists(adj, n, m) || (m == t.name && n in counted)
      decreases |todo|
    {
      var ref :| ref in todo;
      todo := todo - {ref};
      if ref in names && ref != t.name {
        assert !Lists(adj, ref, t.name);
        AddUserIsExact(out, ref, t.name);
        out := AddUser(out, ref, t.name);
        counted := counted + {ref};
        count := count + 1;
      }
    }
    assert counted == deps[t.name];
    RecordedGrows(deps, done, t.name, adj, out);
  }

  lemma RecordedGrows(deps: Deps, done: set<Node>, name: Node, adj: Adjacency, out: Adjacency)
    requires Recorded(deps, done, adj) && name in deps && NoRepeats(out)
    requires forall n, m :: Lists(out, n, m) <==> Lists(adj, n, m) || (m == name && n in deps[name])
    ensures Recorded(deps, done + {name}, out)
  {
  }

  lemma NextName(names: seq<Node>, i: nat)
    requires NoDup(names) && i < |names|
    ensures names[i] !in Elems(names[..i])
    ensures Elems(names[..i + 1]) == Elems(names[..i]) + {names[i]}
  {
    assert names[..i + 1] == names[..i] + [names[i]];
  }

  lemma EmptyRecorded(deps: Deps)
    ensures Recorded(deps, {}, map[])
  {
  }

  ghost predicate Matches(deps: Deps, tables: seq<TableDef>) {
    && deps.Keys == Elems(Names(tables))
    && (forall i :: 0 <= i < |tables| ==>
          tables[i].name in deps && deps[tables[i].name] == KnownRefs(tables[i], deps.Keys))
  }

  /** The tables of `done` have their counts and reverse edges. */
  ghost predicate Built(deps: Deps, done: set<Node>, indegree: map<Node, nat>, adj: Adjacency) {
    && indegree.Keys == done && (forall n :: n in indegree ==> n in deps && indegree[n] == |deps[n]|)
    && Recorded(deps, done, adj)
  }

  /** First half of `topo_sort`. */
  method BuildEdges(tables: seq<TableDef>, ghost deps: Deps) returns (indegree: map<Node, nat>, adj: Adjacency)
    requires NoDup(Names(tables)) && Matches(deps, tables)
    ensures indegree.Keys == deps.Keys && forall n :: n in indegree ==> indegree[n] == |deps[n]|
    ensures Recorded(deps, deps.Keys, adj)
  {
    var names := Names(tables);
    indegree, adj := map[], map[];
    EmptyRecorded(deps);
    assert names[..0] == [] && Elems(names[..0]) == {};
    for i := 0 to |tables|
      invariant Built(deps, Elems(names[..i]), indegree, adj)
    {
      NextName(names, i);
      indegree, adj := CountTable(tables, i, deps, Elems(names[..i]), indegree, adj);
    }
    assert names[..|tables|] == names;
  }

  /** The outer loop's body. */
  method CountTable(tables: seq<TableDef>, i: nat, ghost deps: Deps, ghost done: set<Node>, before: map<Node, nat>, adj0: Adjacency)
    returns (indegree: map<Node, nat>, adj: Adjacency)
    requires i < |tables| && Matches(deps, tables) && Built(deps, done, before, adj0) && tables[i].name !in done
    ensures Built(deps, done + {tables[i].name}, indegree, adj)
  {
    var t, names := tables[i], Elems(Names(tables));
    assert names == deps.Keys && t.name in deps && deps[t.name] == KnownRefs(t, names);
    var count;
    count, adj := RecordTable(t, names, deps, done, adj0);
    indegree := before[t.name := count];
    CountGrows(deps, done, t.name, before, count);
  }

  lemma CountGrows(deps: Deps, done: set<Node>, name: Node, before: map<Node, nat>, count: nat)
    requires before.Keys == done && (forall n :: n in before ==> n in deps && before[n] == |deps[n]|)
    requires name in deps && count == |deps[name]|
    ensures before[name := count].Keys == done + {name}
    ensures forall n :: n in before[name := count] ==> n in deps && before[name := count][n] == |deps[n]|
  {
  }

  // ---------- the queue ----------

  /** Between two pops: `indegree` counts the references not popped yet, and the nodes popped
      (`done`) or queued are exactly those with none left. */
  ghost predicate Between(deps: Deps, indegree: map<Node, nat>, done: set<Node>, queued: set<Node>) {
    During(deps, indegree, done, queued, {})
  }

  /** The same while the users of the node just popped are being visited: those in `left` still count it. */
  ghost predicate During(deps: Deps, indegree: map<Node, nat>, done: set<Node>, queued: set<Node>, left: set<Node>) {
    Counts(deps, indegree, done, left) && Ready(deps, done, queued, left)
  }

  ghost predicate Counts(deps: Deps, indegree: map<Node, nat>, done: set<Node>, left: set<Node>) {
    CountsTo(Unmet(deps, done), indegree, left)
  }

  ghost function Unmet(deps: Deps, done: set<Node>): map<Node, nat> {
    map n | n in deps :: |deps[n] - done|
  }

  ghost predicate CountsTo(need: map<Node, nat>, indegree: map<Node, nat>, left: set<Node>) {
    && indegree.Keys == need.Keys
    && (forall n :: n in indegree ==> indegree[n] == need[n] + if n in left then 1 else 0)
  }

  ghost predicate Ready(deps: Deps, done: set<Node>, queued: set<Node>, left: set<Node>) {
    done !! queued && forall n :: n in done + queued <==> n in deps && deps[n] <= done && n !in left
  }

  lemma PopSplitsCount(a: set<Node>, done: set<Node>, n: Node)
    requires n !in done
    ensures |a - done| == |a - (done + {n})| + if n in a then 1 else 0
  {
    if n in a {
      assert a - done == (a - (done + {n})) + {n};
    } else {
      assert a - done == a - (done + {n});
    }
  }

  lemma AfterPop(deps: Deps, indegree: map<Node, nat>, done: set<Node>, queued: set<Node>, n: Node, users: set<Node>)
    requires Between(deps, indegree, done, queued) && n in queued
    requires forall m :: m in users <==> Follows(deps, m, n)
    ensures n in deps && deps[n] <= done
    ensures During(deps, indegree, done + {n}, queued - {n}, users)
  {
    assert n in done + queued;
    PopCounts(deps, indegree, done, n, users);
    PopReady(deps, done, queued, n, users);
  }

  lemma PopCounts(deps: Deps, indegree: map<Node, nat>, done: set<Node>, n: Node, users: set<Node>)
    requires Counts(deps, indegree, done, {}) && n !in done
    requires forall m :: m in users <==> Follows(deps, m, n)
    ensures Counts(deps, indegree, done + {n}, users)
  {
    var before, after := Unmet(deps, done), Unmet(deps, done + {n});
    forall m | m in deps
      ensures before[m] == after[m] + if m in users then 1 else 0
    {
      PopSplitsCount(deps[m], done, n);
    }
  }

  lemma PopReady(deps: Deps, done: set<Node>, queued: set<Node>, n: Node, users: set<Node>)
    requires Ready(deps, done, queued, {}) && n in queued
    requires forall m :: m in users <==> Follows(deps, m, n)
    ensures Ready(deps, done + {n}, queued - {n}, users)
  {
    assert (done + {n}) + (queued - {n}) == done + queued;
    forall m
      ensures m in done + queued <==> m in deps && deps[m] <= done + {n} && m !in users
    {
      assert Follows(deps, m, n) <==> m in deps && n in deps[m];
    }
  }

  /** One turn of `for m in adj[n]`. */
  lemma VisitUser(deps: Deps, indegree: map<Node, nat>, done: set<Node>, queued: set<Node>, left: set<Node>, m: Node)
    requires During(deps, indegree, done, queued, left) && m in left && m in deps
    ensures m in indegree && indegree[m] >= 1 && m !in queued && m !in done
    ensures During(deps, indegree[m := indegree[m] - 1], done,
                   if indegree[m] == 1 then queued + {m} else queued, left - {m})
  {
    assert m !in done + queued;
    EmptyDifference(deps[m], done);
    VisitReady(deps, done, queued, left, m);
    VisitCounts(Unmet(deps, done), indegree, left, m);
  }

  lemma VisitCounts(need: map<Node, nat>, indegree: map<Node, nat>, left: set<Node>, m: Node)
    requires CountsTo(need, indegree, left) && m in left && m in need
    ensures indegree[m] == need[m] + 1
    ensures CountsTo(need, indegree[m := indegree[m] - 1], left - {m})
  {
  }

  lemma VisitReady(deps: Deps, done: set<Node>, queued: set<Node>, left: set<Node>, m: Node)
    requires Ready(deps, done, queued, left) && m in left && m in deps
    ensures Ready(deps, done, if deps[m] <= done then queued + {m} else queued, left - {m})
  {
    assert m !in done + queued;
    var queued' := if deps[m] <= done then queued + {m} else queued;
    assert done + queued' == (done + queued) + if deps[m] <= done then {m} else {};
  }

  lemma EmptyDifference(a: set<Node>, b: set<Node>)
    ensures |a - b| == 0 <==> a <= b
  {
    if a <= b {
      assert a - b == {};
    } else {
      var u :| u in a && u !in b;
      assert u in a - b;
    }
  }

  lemma Push(s: seq<Node>, x: Node)
    requires NoDup(s) && x !in Elems(s)
    ensures NoDup(s + [x]) && Elems(s + [x]) == Elems(s) + {x}
  {
  }

  lemma Pop(s: seq<Node>)
    requires NoDup(s) && s != []
    ensures NoDup(s[1..]) && Elems(s[1..]) == Elems(s) - {s[0]} && s[0] in Elems(s)
  {
    assert s == [s[0]] + s[1..];
  }

  lemma DepsFirstPush(deps: Deps, order: seq<Node>, n: Node)
    requires DepsFirst(deps, order) && n in deps && deps[n] <= Elems(order)
    ensures DepsFirst(deps, order + [n])
  {
    var order' := order + [n];
    forall p | 0 <= p < |order'|
      ensures order'[p] in deps && deps[order'[p]] <= Elems(order'[..p])
    {
      assert order'[..p] == order[..p];
      if p == |order| { assert order[..p] == order; }
    }
  }

  lemma InitialCounts(deps: Deps, indegree: map<Node, nat>)
    requires deps.Keys == indegree.Keys && forall n :: n in indegree ==> indegree[n] == |deps[n]|
    ensures Counts(deps, indegree, {}, {})
  {
    var need := Unmet(deps, {});
    forall n | n in need
      ensures need[n] == indegree[n]
    {
      NothingDone(deps[n]);
    }
    SameCounts(need, indegree);
  }

  lemma NothingDone(a: set<Node>)
    ensures |a - {}| == |a|
  {
    assert a - {} == a;
  }

  lemma SameCounts(need: map<Node, nat>, indegree: map<Node, nat>)
    requires need.Keys == indegree.Keys && forall n :: n in need ==> need[n] == indegree[n]
    ensures CountsTo(need, indegree, {})
  {
  }

  lemma InitialReady(deps: Deps, names: seq<Node>, indegree: map<Node, nat>, queue: seq<Node>)
    requires NoDup(names) && Elems(names) == deps.Keys == indegree.Keys
    requires forall n :: n in indegree ==> indegree[n] == |deps[n]|
    requires queue == Remaining(names, set n | n in indegree && indegree[n] != 0)
    ensures NoDup(queue) && Ready(deps, {}, Elems(queue), {})
  {
    var blocked := set n | n in indegree && indegree[n] != 0;
    RemainingIsExact(names, blocked);
    assert {} + Elems(queue) == Elems(queue);
    forall n
      ensures n in Elems(queue) <==> n in deps && deps[n] <= {}
    {
      assert n in Elems(queue) <==> n in queue;
      assert n in names <==> n in Elems(names);
      if n in deps {
        assert deps[n] <= {} <==> deps[n] == {};
      }
    }
  }

  lemma Progress(all: set<Node>, done: set<Node>, n: Node)
    requires n in all && n !in done
    ensures |all - (done + {n})| < |all - done|
  {
    assert all - done == (all - (done + {n})) + {n};
  }

  /** An empty queue leaves only nodes that wait for one another, and appending them splits the
      result as `KahnSplit` says. */
  lemma QueueRanDry(deps: Deps, names: seq<Node>, order: seq<Node>)
    requires Ready(deps, Elems(order), {}, {}) && NoDup(order) && DepsFirst(deps, order)
    requires NoDup(names) && Elems(names) == deps.Keys
    ensures var all := order + Remaining(names, Elems(order));
            NoDup(all) && Elems(all) == deps.Keys && KahnSplit(deps, names, all, |order|)
  {
    var done := Elems(order);
    var rest := Remaining(names, done);
    var all := order + rest;
    RemainingIsExact(names, done);
    assert all[..|order|] == order && all[|order|..] == rest;
    RestIsExact(deps, names, done);
    assert Elems(all) == done + Elems(rest);
    JoinDisjoint(order, rest);
  }

  lemma RestIsExact(deps: Deps, names: seq<Node>, done: set<Node>)
    requires Ready(deps, done, {}, {}) && Elems(names) == deps.Keys
    ensures done <= deps.Keys && Elems(Remaining(names, done)) == deps.Keys - done
    ensures forall n :: n in Remaining(names, done) ==> n in deps && n !in done && deps[n] - done != {}
  {
    var rest := Remaining(names, done);
    RemainingIsExact(names, done);
    forall n
      ensures n in rest <==> n in deps && n !in done
    {
      assert n in rest <==> n in names && n !in done;
      assert n in names <==> n in Elems(names);
    }
    forall n | n in rest
      ensures deps[n] - done != {}
    {
      StillWaiting(deps, done, n);
    }
  }

  lemma StillWaiting(deps: Deps, done: set<Node>, n: Node)
    requires Ready(deps, done, {}, {}) && n in deps && n !in done
    ensures deps[n] - done != {}
  {
    assert n !in done + {};
    EmptyDifference(deps[n], done);
  }

  lemma JoinDisjoint(a: seq<Node>, b: seq<Node>)
    requires NoDup(a) && NoDup(b) && forall n :: n in b ==> n !in Elems(a)
    ensures NoDup(a + b)
  {
    var all := a + b;
    forall i, j | 0 <= i < j < |all|
      ensures all[i] != all[j]
    {
      if i < |a| <= j { assert all[i] in Elems(a) && all[j] in b; }
    }
  }

  function TableNamed(tables: seq<TableDef>, n: Node): (t: TableDef)
    requires n in Names(tables)
    ensures t in tables && t.name == n
  {
    if tables[0].name == n then tables[0]
    else assert Names(tables)[1..] == Names(tables[1..]); TableNamed(tables[1..], n)
  }

  function ByName(tables: seq<TableDef>, order: seq<Node>): (ordered: seq<TableDef>)
    requires forall i :: 0 <= i < |order| ==> order[i] in Names(tables)
    ensures Names(ordered) == order && forall t :: t in ordered ==> t in tables
  {
    seq(|order|, i requires 0 <= i < |order| => TableNamed(tables, order[i]))
  }

  lemma SameTables(tables: seq<TableDef>, ordered: seq<TableDef>)
    requires NoDup(Names(tables)) && NoDup(Names(ordered)) && Elems(Names(tables)) == Elems(Names(ordered))
    requires forall t :: t in ordered ==> t in tables
    ensures multiset(ordered) == multiset(tables)
  {
    DistinctTables(tables);
    DistinctTables(ordered);
    forall t | t in tables
      ensures t in ordered
    {
      var i :| 0 <= i < |tables| && tables[i] == t;
      assert Names(tables)[i] in Elems(Names(ordered));
      var j :| 0 <= j < |ordered| && Names(ordered)[j] == t.name;
      SameName(tables, t, ordered[j]);
    }
    assert Elems(ordered) == Elems(tables);
    PermutationOf(ordered, tables);
  }

  lemma SameName(tables: seq<TableDef>, t: TableDef, u: TableDef)
    requires NoDup(Names(tables)) && t in tables && u in tables && t.name == u.name
    ensures t == u
  {
    var i :| 0 <= i < |tables| && tables[i] == t;
    var j :| 0 <= j < |tables| && tables[j] == u;
    assert Names(tables)[i] == Names(tables)[j];
  }

  lemma DistinctTables(tables: seq<TableDef>)
    requires NoDup(Names(tables))
    ensures NoDup(tables)
  {
    forall i, j | 0 <= i < j < |tables|
      ensures tables[i] != tables[j]
    {
      assert Names(tables)[i] != Names(tables)[j];
    }
  }

  /** Second half of `topo_sort`: Kahn's loop, then the fallback for whatever it left behind. */
  method Drain(names: seq<Node>, ghost deps: Deps, indegree0: map<Node, nat>, adj: Adjacency)
    returns (order: seq<Node>, ghost popped: nat)
    requires NoDup(names) && Elems(names) == deps.Keys == indegree0.Keys
    requires forall n :: n in indegree0 ==> indegree0[n] == |deps[n]|
    requires Recorded(deps, deps.Keys, adj)
    ensures NoDup(order) && Elems(order) == deps.Keys && KahnSplit(deps, names, order, popped)
  {
    var indegree := indegree0;
    var queue := Remaining(names, set n | n in indegree && indegree[n] != 0);
    order := [];
    InitialCounts(deps, indegree);
    InitialReady(deps, names, indegree, queue);
    assert Elems(order) == {};
    while queue != []
      invariant NoDup(order) && NoDup(queue) && DepsFirst(deps, order)
      invariant Between(deps, indegree, Elems(order), Elems(queue))
      decreases |deps.Keys - Elems(order)|
    {
      var n := queue[0];
      var users := if n in adj then adj[n] else [];
      Pop(queue);
      UsersAreExact(deps, adj, n);
      AfterPop(deps, indegree, Elems(order), Elems(queue), n, Elems(users));
      Progress(deps.Keys, Elems(order), n);
      Push(order, n);
      DepsFirstPush(deps, order, n);
      order, queue := order + [n], queue[1..];
      indegree, queue := VisitUsers(deps, indegree, Elems(order), queue, users);
    }
    QueueRanDry(deps, names, order);
    popped := |order|;
    order := AppendMissing(names, order);
  }

  /** `for m in adj[n]` */
  method VisitUsers(ghost deps: Deps, indegree0: map<Node, nat>, ghost done: set<Node>, queue0: seq<Node>, users: seq<Node>)
    returns (indegree: map<Node, nat>, queue: seq<Node>)
    requires NoDup(queue0) && NoDup(users) && Elems(users) <= deps.Keys
    requires During(deps, indegree0, done, Elems(queue0), Elems(users))
    ensures NoDup(queue) && Between(deps, indegree, done, Elems(queue))
  {
    indegree, queue := indegree0, queue0;
    assert users[0..] == users;
    for k := 0 to |users|
      invariant NoDup(queue) && During(deps, indegree, done, Elems(queue), Elems(users[k..]))
    {
      var m := users[k];
      assert users[k..][1..] == users[k + 1..];
      Pop(users[k..]);
      assert m in Elems(users);
      VisitUser(deps, indegree, done, Elems(queue), Elems(users[k..]), m);
      indegree := indegree[m := indegree[m] - 1];
      if indegree[m] == 0 {
        Push(queue, m);
        queue := queue + [m];
      }
    }
  }

  lemma UsersAreExact(deps: Deps, adj: Adjacency, n: Node)
    requires Recorded(deps, deps.Keys, adj)
    ensures var users := if n in adj then adj[n] else [];
            NoDup(users) && forall m :: m in Elems(users) <==> Follows(deps, m, n)
  {
    var users := if n in adj then adj[n] else [];
    forall m
      ensures m in Elems(users) <==> Follows(deps, m, n)
    {
      assert Lists(adj, n, m) <==> m in deps.Keys && Follows(deps, m, n);
    }
  }

  lemma RemainingStep(names: seq<Node>, i: nat, gone: set<Node>)
    requires i < |names|
    ensures Remaining(names[i..], gone) ==
            if names[i] in gone then Remaining(names[i + 1..], gone) else [names[i]] + Remaining(names[i + 1..], gone)
  {
    assert names[i..][1..] == names[i + 1..] && names[i..][0] == names[i];
  }

  lemma NextMissing(names: seq<Node>, popped: seq<Node>, appended: seq<Node>, i: nat)
    requires NoDup(names) && i < |names| && forall n :: n in appended ==> n in names[..i]
    ensures names[i] in popped + appended <==> names[i] in popped
    ensures forall n :: n in appended + [names[i]] ==> n in names[..i + 1]
    ensures var next := if names[i] in popped then appended else appended + [names[i]];
            next + Remaining(names[i + 1..], Elems(popped)) == appended + Remaining(names[i..], Elems(popped))
  {
    RemainingStep(names, i, Elems(popped));
    assert names[i] !in names[..i] && names[..i + 1] == names[..i] + [names[i]];
    Regroup(appended, [names[i]], Remaining(names[i + 1..], Elems(popped)));
  }

  method AppendMissing(names: seq<Node>, popped: seq<Node>) returns (order: seq<Node>)
    requires NoDup(names)
    ensures order == popped + Remaining(names, Elems(popped))
  {
    order := popped;
    ghost var appended := [];
    for i := 0 to |names|
      invariant order == popped + appended && forall n :: n in appended ==> n in names[..i]
      invariant appended + Remaining(names[i..], Elems(popped)) == Remaining(names, Elems(popped))
    {
      NextMissing(names, popped, appended, i);
      if names[i] !in order {
        Regroup(popped, appended, [names[i]]);
        order := order + [names[i]];
        appended := appended + [names[i]];
      }
    }
    assert names[|names|..] == [];
  }

  /** A permutation of the tables, with references first whenever the references have no cycle. */
  ghost predicate Sorted(tables: seq<TableDef>, ordered: seq<TableDef>) {
    && multiset(ordered) == multiset(tables)
    && NoDup(Names(ordered)) && Elems(Names(ordered)) == Elems(Names(tables))
    && (Acyclic(DepsOf(tables)) <==> DepsFirst(DepsOf(tables), Names(ordered)))
  }

  /** `topo_sort`: a permutation of the tables, in reference order whenever one exists. */
  method TopoSort(tables: seq<TableDef>) returns (ordered: seq<TableDef>)
    requires NoDup(Names(tables))
    ensures Sorted(tables, ordered)
    ensures exists popped :: KahnSplit(DepsOf(tables), Names(tables), Names(ordered), popped)
                             && (popped == |ordered| <==> Acyclic(DepsOf(tables)))
  {
    ghost var deps := DepsOf(tables);
    var names := Names(tables);
    DepsFromIsExact(tables, Elems(names));
    DepsAreClosed(tables);
    var indegree, adj := BuildEdges(tables, deps);
    var order;
    ghost var popped;
    order, popped := Drain(names, deps, indegree, adj);
    KahnIsComplete(deps, names, order, popped);
    forall i | 0 <= i < |order| ensures order[i] in names { assert order[i] in Elems(order) && order[i] in Elems(names); }
    ordered := ByName(tables, order);
    SameTables(tables, ordered);
  }
}
