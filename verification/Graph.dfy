/**
  Orders of a finite dependency graph: `deps[n]` are the nodes that must come
  before `n`.
 */
module Graph {
  type Node = string
  type Deps = map<Node, set<Node>>

  function Elems<T>(s: seq<T>): set<T> {
    set x | x in s
  }

  ghost predicate NoDup<T>(s: seq<T>) {
    forall i, j :: 0 <= i < j < |s| ==> s[i] != s[j]
  }

  /** Edges stay inside the graph, and no node depends on itself. */
  ghost predicate Closed(deps: Deps) {
    forall n :: n in deps ==> deps[n] <= deps.Keys && n !in deps[n]
  }

  /** Each node of `order` comes after everything it depends on. */
  ghost predicate DepsFirst(deps: Deps, order: seq<Node>) {
    forall p :: 0 <= p < |order| ==> order[p] in deps && deps[order[p]] <= Elems(order[..p])
  }

  ghost predicate Follows(deps: Deps, a: Node, b: Node) {
    a in deps && b in deps[a]
  }

  /** A closed walk along the dependencies. */
  ghost predicate Cycle(deps: Deps, walk: seq<Node>) {
    && |walk| >= 2 && walk[0] == walk[|walk| - 1]
    && (forall i :: 0 <= i < |walk| - 1 ==> Follows(deps, walk[i], walk[i + 1]))
  }

  ghost predicate Acyclic(deps: Deps) {
    forall walk :: !Cycle(deps, walk)
  }

  function Remaining(nodes: seq<Node>, gone: set<Node>): seq<Node> {
    if nodes == [] then []
    else (if nodes[0] in gone then [] else [nodes[0]]) + Remaining(nodes[1..], gone)
  }

  /** The first `popped` nodes came off the queue after all their dependencies; the others were
      appended in their original order, each still waiting for another of them. */
  ghost predicate KahnSplit(deps: Deps, nodes: seq<Node>, order: seq<Node>, popped: nat) {
    && popped <= |order|
    && DepsFirst(deps, order[..popped])
    && order[popped..] == Remaining(nodes, Elems(order[..popped]))
    && (forall n :: n in order[popped..] ==> n in deps && deps[n] - Elems(order[..popped]) != {})
  }

  lemma {:induction false} RemainingIsExact(nodes: seq<Node>, gone: set<Node>)
    ensures forall n :: n in Remaining(nodes, gone) <==> n in nodes && n !in gone
    ensures NoDup(nodes) ==> NoDup(Remaining(nodes, gone))
  {
    if nodes != [] {
      RemainingIsExact(nodes[1..], gone);
      assert nodes == [nodes[0]] + nodes[1..];
    }
  }

  lemma {:induction false} OnceEach<T>(s: seq<T>, x: T)
    requires NoDup(s)
    ensures multiset(s)[x] == if x in s then 1 else 0
  {
    if s != [] {
      assert s == [s[0]] + s[1..];
      OnceEach(s[1..], x);
    }
  }

  lemma PermutationOf<T>(a: seq<T>, b: seq<T>)
    requires NoDup(a) && NoDup(b) && Elems(a) == Elems(b)
    ensures multiset(a) == multiset(b)
  {
    forall x: T
      ensures multiset(a)[x] == multiset(b)[x]
    {
      OnceEach(a, x);
      OnceEach(b, x);
      assert x in a <==> x in Elems(a);
      assert x in b <==> x in Elems(b);
    }
  }

  ghost function Position(order: seq<Node>, n: Node): (p: nat)
    requires n in order
    ensures p < |order| && order[p] == n
  {
    var p :| 0 <= p < |order| && order[p] == n;
    p
  }

  lemma {:induction false} WalkDescends(deps: Deps, order: seq<Node>, walk: seq<Node>, i: nat)
    requires NoDup(order) && DepsFirst(deps, order) && Elems(order) == deps.Keys
    requires Cycle(deps, walk) && 1 <= i < |walk|
    ensures walk[i] in order && walk[0] in order && Position(order, walk[i]) < Position(order, walk[0])
  {
    assert Follows(deps, walk[i - 1], walk[i - 1 + 1]);
    assert walk[i - 1] in Elems(order);
    var p := Position(order, walk[i - 1]);
    assert walk[i] in Elems(order[..p]);
    var q :| 0 <= q < p && order[..p][q] == walk[i];
    if i > 1 {
      WalkDescends(deps, order, walk, i - 1);
    }
  }

  lemma OrderRulesOutCycles(deps: Deps, order: seq<Node>)
    requires NoDup(order) && DepsFirst(deps, order) && Elems(order) == deps.Keys
    ensures Acyclic(deps)
  {
    forall walk | Cycle(deps, walk)
      ensures false
    {
      WalkDescends(deps, order, walk, |walk| - 1);
    }
  }

  /** Every node of `waiting` depends on another node of `waiting`. */
  ghost predicate AllWait(deps: Deps, waiting: set<Node>) {
    forall n :: n in waiting ==> n in deps && deps[n] * waiting != {}
  }

  /** Consecutive nodes follow each other. */
  ghost predicate Path(deps: Deps, path: seq<Node>) {
    forall i :: 0 <= i < |path| - 1 ==> Follows(deps, path[i], path[i + 1])
  }

  lemma PathClosesUp(deps: Deps, path: seq<Node>, k: nat)
    requires Path(deps, path) && k < |path| && Follows(deps, path[|path| - 1], path[k])
    ensures Cycle(deps, path[k..] + [path[k]])
  {
    var walk := path[k..] + [path[k]];
    forall i | 0 <= i < |walk| - 1
      ensures Follows(deps, walk[i], walk[i + 1])
    {
      if k + i + 1 < |path| {
        assert Follows(deps, path[k + i], path[k + i + 1]);
      }
    }
  }

  lemma FewerUnvisited(waiting: set<Node>, path: seq<Node>, u: Node)
    requires u in waiting && u !in path
    ensures |waiting - Elems(path + [u])| < |waiting - Elems(path)|
    ensures Elems(path + [u]) == Elems(path) + {u}
  {
    assert Elems(path + [u]) == Elems(path) + {u};
    assert waiting - Elems(path) == (waiting - Elems(path + [u])) + {u};
  }

  lemma NextWaiting(deps: Deps, waiting: set<Node>, path: seq<Node>) returns (u: Node)
    requires AllWait(deps, waiting) && path != [] && Elems(path) <= waiting
    ensures u in waiting && Follows(deps, path[|path| - 1], u)
  {
    var last := path[|path| - 1];
    assert last in Elems(path);
    u :| u in deps[last] * waiting;
  }

  lemma PathExtends(deps: Deps, path: seq<Node>, u: Node)
    requires path != [] && Path(deps, path) && Follows(deps, path[|path| - 1], u)
    ensures Path(deps, path + [u])
  {
  }

  /** Pigeonhole: following the dependencies inside a waiting set must return to a node already visited. */
  lemma {:induction false} WaitingSetHasCycle(deps: Deps, waiting: set<Node>, path: seq<Node>) returns (walk: seq<Node>)
    requires AllWait(deps, waiting)
    requires path != [] && Elems(path) <= waiting && Path(deps, path)
    ensures Cycle(deps, walk)
    decreases |waiting - Elems(path)|
  {
    var u := NextWaiting(deps, waiting, path);
    if u in path {
      var k :| 0 <= k < |path| && path[k] == u;
      PathClosesUp(deps, path, k);
      walk := path[k..] + [path[k]];
    } else {
      FewerUnvisited(waiting, path, u);
      PathExtends(deps, path, u);
      walk := WaitingSetHasCycle(deps, waiting, path + [u]);
    }
  }

  /** The fallback appends a node only when the graph has a cycle. */
  lemma LeftoverMeansCycle(deps: Deps, nodes: seq<Node>, order: seq<Node>, popped: nat)
    requires Closed(deps) && Elems(nodes) == deps.Keys
    requires KahnSplit(deps, nodes, order, popped) && popped < |order|
    ensures !Acyclic(deps)
  {
    var done, rest := Elems(order[..popped]), order[popped..];
    var waiting := Elems(rest);
    RemainingIsExact(nodes, done);
    forall n | n in waiting
      ensures n in deps && deps[n] * waiting != {}
    {
      var m :| m in deps[n] - done;
      assert m in Elems(nodes);
      assert m in deps[n] * waiting;
    }
    assert [rest[0]][..] == [rest[0]];
    var walk := WaitingSetHasCycle(deps, waiting, [rest[0]]);
  }

  /** Kahn's order is a dependency order exactly when there is one, and then the fallback stays idle. */
  lemma KahnIsComplete(deps: Deps, nodes: seq<Node>, order: seq<Node>, popped: nat)
    requires Closed(deps) && NoDup(order) && Elems(nodes) == deps.Keys == Elems(order)
    requires KahnSplit(deps, nodes, order, popped)
    ensures Acyclic(deps) <==> DepsFirst(deps, order)
    ensures Acyclic(deps) <==> popped == |order|
  {
    if popped < |order| {
      LeftoverMeansCycle(deps, nodes, order, popped);
    } else {
      assert order[..popped] == order;
    }
    if DepsFirst(deps, order) {
      OrderRulesOutCycles(deps, order);
    }
  }
}
