/** The recursive cycle test. */
module CycleTest {
  import opened WaitGraph

  method DetectCycle(g: Graph, u: nat, vis: array<bool>, stk: array<bool>, ghost path: seq<nat>, ghost order0: seq<nat>)
    returns (found: bool, ghost order: seq<nat>)
    requires Square(g) && vis != stk && vis.Length == stk.Length == |g|
    requires Searching(g, vis[..], stk[..], path, order0) && Sinks(g, order0)
    requires u < |g| && !vis[u] && (path == [] || Edge(g, path[|path| - 1], u))
    modifies vis, stk
    ensures found ==> HasCycle(g)
    ensures !found ==> Searching(g, vis[..], stk[..], path, order) && Sinks(g, order) && order0 <= order && u in order
    decreases Unseen(|g|, path, order0)
  {
    order := order0;
    Enter(g, vis[..], stk[..], path, order, u);
    vis[u] := true;
    stk[u] := true;
    ghost var here := path + [u];
    for v := 0 to |g|
      invariant Searching(g, vis[..], stk[..], here, order) && Sinks(g, order) && order0 <= order
      invariant forall w: nat :: w < v && Edge(g, u, w) ==> w in order
    {
      if g[u][v] {
        if !vis[v] {
          Shrinks(|g|, path, here, u, order0, order);
          found, order := DetectCycle(g, v, vis, stk, here, order);
          if found { return; }
        }
        if stk[v] {
          ghost var k :| 0 <= k < |here| && here[k] == v;
          BackEdge(g, here, k);
          return true, order;
        }
      }
    }
    Leave(g, vis[..], stk[..], path, order, u);
    SinksAppend(g, order, u);
    stk[u] := false;
    order := order + [u];
    found := false;
  }

  lemma Shrinks(n: nat, path: seq<nat>, here: seq<nat>, u: nat, order0: seq<nat>, order: seq<nat>)
    requires here == path + [u] && order0 <= order && u < n && u !in path && u !in order0
    ensures Unseen(n, here, order) < Unseen(n, path, order0)
  {
    assert u in Unseen(n, path, order0) && u !in Unseen(n, here, order);
  }

  /** True exactly when some threads wait for each other in a ring. */
  method HasWaitCycle(g: Graph) returns (found: bool)
    requires Square(g)
    ensures found <==> HasCycle(g)
  {
    var vis := new bool[|g|](_ => false);
    var stk := new bool[|g|](_ => false);
    ghost var order: seq<nat> := [];
    for i := 0 to |g|
      invariant Searching(g, vis[..], stk[..], [], order) && Sinks(g, order)
      invariant forall w: nat :: w < i ==> w in order
    {
      if !vis[i] {
        found, order := DetectCycle(g, i, vis, stk, [], order);
        if found { return; }
      }
    }
    Acyclic(g, order);
    found := false;
  }
}
