/** Wait-for graphs, their cycles, and the two facts a depth-first search rests on. */
module WaitGraph {

  /** `g[u][v]`: `u` waits for `v`. */
  type Graph = seq<seq<bool>>

  ghost predicate Square(g: Graph) {
    forall u :: 0 <= u < |g| ==> |g[u]| == |g|
  }

  predicate Edge(g: Graph, u: nat, v: nat) {
    u < |g| && v < |g[u]| && g[u][v]
  }

  /** Each node waits for the next. */
  ghost predicate Walk(g: Graph, p: seq<nat>) {
    forall i :: 0 <= i < |p| - 1 ==> Edge(g, p[i], p[i + 1])
  }

  /** Nodes that wait for each other in a ring. */
  ghost predicate IsCycle(g: Graph, c: seq<nat>) {
    |c| > 0 && Walk(g, c) && Edge(g, c[|c| - 1], c[0])
  }

  ghost predicate HasCycle(g: Graph) {
    exists c :: IsCycle(g, c)
  }

  /** An edge from the end of a walk back into it closes a cycle. */
  lemma BackEdge(g: Graph, p: seq<nat>, k: nat)
    requires Walk(g, p) && k < |p| && Edge(g, p[|p| - 1], p[k])
    ensures IsCycle(g, p[k..])
  {
    var c := p[k..];
    forall i | 0 <= i < |c| - 1 ensures Edge(g, c[i], c[i + 1]) { assert Edge(g, p[k + i], p[k + i + 1]); }
  }

  /** Every node in the list waits only for nodes before it. */
  ghost predicate Sinks(g: Graph, order: seq<nat>) {
    forall i, v :: 0 <= i < |order| && Edge(g, order[i], v) ==> v in order[..i]
  }

  /** A cycle that meets such a list would lead down it forever. */
  lemma {:induction false} NoneIn(g: Graph, order: seq<nat>, c: seq<nat>, i: nat, k: nat)
    requires Sinks(g, order) && IsCycle(g, c) && i < |order| && k < |c| && order[i] == c[k]
    ensures false
    decreases i
  {
    var next := if k + 1 < |c| then k + 1 else 0;
    assert Edge(g, c[k], c[next]);
    var j :| 0 <= j < i && order[j] == c[next];
    NoneIn(g, order, c, j, next);
  }

  lemma Acyclic(g: Graph, order: seq<nat>)
    requires Sinks(g, order)
    requires forall u, v :: Edge(g, u, v) ==> u in order
    ensures !HasCycle(g)
  {
    if c :| IsCycle(g, c) {
      var next := if 1 < |c| then 1 else 0;
      assert Edge(g, c[0], c[next]);
      var i :| 0 <= i < |order| && order[i] == c[0];
      NoneIn(g, order, c, i, 0);
    }
  }

  lemma SinksAppend(g: Graph, order: seq<nat>, u: nat)
    requires Sinks(g, order) && forall v :: Edge(g, u, v) ==> v in order
    ensures Sinks(g, order + [u])
  {
    var more := order + [u];
    forall i, v | 0 <= i < |more| && Edge(g, more[i], v) ensures v in more[..i] {
      assert more[..i] == order[..i];
    }
  }

  /** Where a search stands: the nodes on the stack, and the nodes done. */
  ghost predicate Searching(g: Graph, vis: seq<bool>, stk: seq<bool>, path: seq<nat>, order: seq<nat>) {
    && |vis| == |stk| == |g|
    && Walk(g, path)
    && (forall x :: x in path ==> x < |g| && x !in order)
    && (forall x :: x in order ==> x < |g|)
    && (forall x: nat :: x < |g| ==> (stk[x] <==> x in path))
    && (forall x: nat :: x < |g| ==> (vis[x] <==> x in path || x in order))
  }

  ghost function Unseen(n: nat, path: seq<nat>, order: seq<nat>): set<nat> {
    set x: nat | x < n && x !in path && x !in order
  }

  lemma Enter(g: Graph, vis: seq<bool>, stk: seq<bool>, path: seq<nat>, order: seq<nat>, u: nat)
    requires Searching(g, vis, stk, path, order) && u < |g| && !vis[u]
    requires path == [] || Edge(g, path[|path| - 1], u)
    ensures Searching(g, vis[u := true], stk[u := true], path + [u], order)
    ensures Unseen(|g|, path + [u], order) < Unseen(|g|, path, order)
  {
    var p := path + [u];
    forall i | 0 <= i < |p| - 1
      ensures Edge(g, p[i], p[i + 1])
    {
      assert i < |path| - 1 ==> Edge(g, path[i], path[i + 1]);
    }
    assert u in Unseen(|g|, path, order) && u !in Unseen(|g|, p, order);
  }

  lemma Leave(g: Graph, vis: seq<bool>, stk: seq<bool>, path: seq<nat>, order: seq<nat>, u: nat)
    requires Searching(g, vis, stk, path + [u], order) && u < |g| && u !in path
    ensures Searching(g, vis, stk[u := false], path, order + [u])
  {
    var p := path + [u];
    forall i | 0 <= i < |path| - 1 ensures Edge(g, path[i], path[i + 1]) { assert Edge(g, p[i], p[i + 1]); }
    assert forall x :: x in p <==> x in path || x == u;
    assert forall x :: x in order + [u] <==> x in order || x == u;
  }

  /** Giving up the waits of a transaction, and the waits for it, breaks every cycle through it and makes no new one. */
  function Dropped(g: Graph, t: nat): Graph {
    seq(|g|, u requires 0 <= u < |g| => seq(|g[u]|, v requires 0 <= v < |g[u]| => g[u][v] && u != t && v != t))
  }

  lemma DroppedCycles(g: Graph, t: nat, c: seq<nat>)
    ensures IsCycle(Dropped(g, t), c) <==> IsCycle(g, c) && t !in c
  {
    var d := Dropped(g, t);
    assert forall u: nat, v: nat :: Edge(d, u, v) <==> Edge(g, u, v) && u != t && v != t;
    if IsCycle(d, c) {
      forall k | 0 <= k < |c| ensures c[k] != t {
        if k < |c| - 1 { assert Edge(d, c[k], c[k + 1]); }
      }
    }
  }
}
