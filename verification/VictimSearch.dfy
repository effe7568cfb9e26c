/** The iterative cycle test that also picks a victim. */
module VictimSearch {
  import opened WaitGraph
  import opened Pigeonholes

  /** A slot of the transaction table: empty, or a transaction with its start timestamp. */
  datatype Slot = Empty | Txn(startTs: nat)

  /** Waits are only between transactions in the table, with numbers from 1 up to `n`. */
  ghost predicate Between(g: Graph, txns: seq<Slot>, n: nat) {
    && Square(g) && |txns| == |g| && 1 <= n <= |g|
    && forall u: nat, v: nat :: Edge(g, u, v) ==> 1 <= u < n && 1 <= v < n && txns[u].Txn? && txns[v].Txn?
  }

  /** `w` is one of the transactions in `c` and none of them started later. */
  ghost predicate Latest(txns: seq<Slot>, c: seq<nat>, w: int) {
    && w in c
    && forall x :: x in c ==>
         x < |txns| && txns[x].Txn? && 0 <= w < |txns| && txns[w].Txn? && txns[x].startTs <= txns[w].startTs
  }

  /** `w` is on a cycle and the youngest on it. */
  ghost predicate GoodVictim(g: Graph, txns: seq<Slot>, w: int) {
    exists c :: IsCycle(g, c) && Latest(txns, c, w)
  }

  /** Neither of the two started after `w`. */
  predicate Covered(txns: seq<Slot>, w: int, u: nat, v: nat) {
    && 0 <= w < |txns| && txns[w].Txn?
    && u < |txns| && txns[u].Txn? && txns[u].startTs <= txns[w].startTs
    && v < |txns| && txns[v].Txn? && txns[v].startTs <= txns[w].startTs
  }

  /** The waits of which one side started after `w`; all waits while there is no `w`. */
  ghost function Open(g: Graph, txns: seq<Slot>, w: int): Graph {
    seq(|g|, u requires 0 <= u < |g| =>
      seq(|g[u]|, v requires 0 <= v < |g[u]| => g[u][v] && !Covered(txns, w, u, v)))
  }

  lemma OpenEdge(g: Graph, txns: seq<Slot>, w: int, u: nat, v: nat)
    ensures Edge(Open(g, txns, w), u, v) <==> Edge(g, u, v) && !Covered(txns, w, u, v)
  { }

  /** `w` replaces `w0` only if it is younger; of equals the first one stays. */
  ghost predicate Younger(txns: seq<Slot>, w0: int, w: int) {
    w0 == w || w0 == -1 ||
    (0 <= w0 < |txns| && 0 <= w < |txns| && txns[w0].Txn? && txns[w].Txn? && txns[w0].startTs < txns[w].startTs)
  }

  lemma OpenShrinks(g: Graph, txns: seq<Slot>, w0: int, w: int, u: nat, v: nat)
    requires Younger(txns, w0, w) && Edge(Open(g, txns, w), u, v)
    ensures Edge(Open(g, txns, w0), u, v)
  {
    OpenEdge(g, txns, w, u, v);
    OpenEdge(g, txns, w0, u, v);
  }

  /** On every cycle two transactions, one waiting for the other, are not younger than the victim. */
  ghost predicate Answers(g: Graph, txns: seq<Slot>, w: int) {
    forall c :: IsCycle(g, c) ==>
      exists i :: 0 <= i < |c| && Covered(txns, w, c[i], c[if i + 1 < |c| then i + 1 else 0])
  }

  lemma CycleAnswered(g: Graph, txns: seq<Slot>, w: int)
    requires !HasCycle(Open(g, txns, w))
    ensures Answers(g, txns, w)
  {
    forall c | IsCycle(g, c)
      ensures exists i :: 0 <= i < |c| && Covered(txns, w, c[i], c[if i + 1 < |c| then i + 1 else 0])
    {
      if forall i :: 0 <= i < |c| ==> !Covered(txns, w, c[i], c[if i + 1 < |c| then i + 1 else 0]) {
        var d := Open(g, txns, w);
        forall i | 0 <= i < |c| - 1 ensures Edge(d, c[i], c[i + 1]) { OpenEdge(g, txns, w, c[i], c[i + 1]); }
        var n := |c| - 1;
        assert !Covered(txns, w, c[n], c[if n + 1 < |c| then n + 1 else 0]);
        OpenEdge(g, txns, w, c[n], c[0]);
        assert IsCycle(d, c);
      }
    }
  }

  ghost predicate AllTxns(txns: seq<Slot>, p: seq<nat>) {
    forall x :: x in p ==> x < |txns| && txns[x].Txn?
  }

  lemma LatestAppend(txns: seq<Slot>, c: seq<nat>, w: int, x: nat)
    requires x < |txns| && txns[x].Txn? && (c == [] || Latest(txns, c, w))
    ensures c == [] || txns[x].startTs > txns[w].startTs ==> Latest(txns, c + [x], x)
    ensures c != [] && txns[x].startTs <= txns[w].startTs ==> Latest(txns, c + [x], w)
  { }

  /** All in `c` started before `w`. */
  ghost predicate Older(txns: seq<Slot>, c: seq<nat>, w: int) {
    && 0 <= w < |txns| && txns[w].Txn?
    && forall x :: x in c ==> x < |txns| && txns[x].Txn? && txns[x].startTs < txns[w].startTs
  }

  /** The youngest transaction on the path from `u` on, and the first one of equals. */
  method PickVictim(path: array<nat>, len: nat, u: nat, txns: seq<Slot>) returns (picked: int, ghost k: nat)
    requires len <= path.Length && u in path[..len] && AllTxns(txns, path[..len])
    ensures k < len && path[k] == u && Latest(txns, path[k..len], picked)
    ensures exists m :: k <= m < len && path[m] == picked && Older(txns, path[k..m], picked)
  {
    picked := -1;
    var i := 0;
    while path[i] != u
      invariant i < len && u in path[i..len]
      decreases len - i
    {
      i := i + 1;
    }
    k := i;
    var pickedTs := 0;
    ghost var m := i;
    for j := i to len
      invariant j == i <==> picked == -1
      invariant j > i ==> i <= m < j && path[m] == picked && Older(txns, path[i..m], picked)
      invariant j > i ==> Latest(txns, path[i..j], picked) && 0 <= picked < |txns| && txns[picked] == Txn(pickedTs)
    {
      var node := path[j];
      assert node in path[..len];
      assert path[i..j + 1] == path[i..j] + [node];
      LatestAppend(txns, path[i..j], picked, node);
      if picked == -1 || txns[node].startTs > pickedTs {
        picked, pickedTs, m := node, txns[node].startTs, j;
      }
    }
  }

  lemma PickedIsGood(g: Graph, txns: seq<Slot>, p: seq<nat>, k: nat, picked: int)
    requires Walk(g, p) && k < |p| && Edge(g, p[|p| - 1], p[k]) && Latest(txns, p[k..], picked)
    ensures GoodVictim(g, txns, picked)
  {
    BackEdge(g, p, k);
  }

  lemma PickedCovers(txns: seq<Slot>, p: seq<nat>, k: nat, picked: int)
    requires k < |p| && Latest(txns, p[k..], picked)
    ensures Covered(txns, picked, p[|p| - 1], p[k])
  {
    assert p[k..][0] == p[k] && p[k..][|p| - 1 - k] == p[|p| - 1];
    assert p[k] in p[k..] && p[|p| - 1] in p[k..];
  }

  /** A wait that leads back to the path is covered by the victim picked there, and stays so. */
  lemma SeenMore(g: Graph, txns: seq<Slot>, w0: int, w: int, v: nat, from: nat, u: nat, order: seq<nat>)
    requires Younger(txns, w0, w) && Covered(txns, w, v, u) && Seen(g, txns, w0, v, from, u, order)
    ensures Seen(g, txns, w, v, from, u + 1, order)
  {
    forall x: nat | from <= x < u + 1 && Edge(Open(g, txns, w), v, x) ensures x in order {
      OpenShrinks(g, txns, w0, w, v, x);
      OpenEdge(g, txns, w, v, x);
    }
  }

  /** The edges of `v` from `from` on, up to the first that leads to a new node. */
  method ScanEdges(g: Graph, txns: seq<Slot>, n: nat, v: nat, from: nat, visited: array<bool>, recstack: array<bool>,
                   path: array<nat>, len: nat, found0: bool, victim0: int, ghost order: seq<nat>)
    returns (next: nat, deeper: bool, found: bool, victim: int)
    requires Between(g, txns, n) && v < |g| && from <= n && 0 < len <= path.Length && path[len - 1] == v
    requires Searching(g, visited[..], recstack[..], path[..len], order) && AllTxns(txns, path[..len])
    requires VictimOk(g, txns, found0, victim0)
    ensures from <= next <= n && (deeper ==> from < next && Edge(g, v, next - 1) && !visited[next - 1])
            && (!deeper ==> next == n)
    ensures VictimOk(g, txns, found, victim) && Younger(txns, victim0, victim)
    ensures Seen(g, txns, victim, v, from, if deeper then next - 1 else next, order)
  {
    next, deeper, found, victim := from, false, found0, victim0;
    while next < n
      invariant from <= next <= n && !deeper
      invariant VictimOk(g, txns, found, victim) && Younger(txns, victim0, victim)
      invariant Seen(g, txns, victim, v, from, next, order)
    {
      var u := next;
      next := u + 1;
      if g[v][u] {
        if !visited[u] {
          deeper := true;
          break;
        } else if recstack[u] {
          var picked;
          ghost var k;
          picked, k := PickVictim(path, len, u, txns);
          assert path[..len][k..] == path[k..len];
          PickedIsGood(g, txns, path[..len], k, picked);
          PickedCovers(txns, path[..len], k, picked);
          ghost var before := victim;
          if victim == -1 || txns[picked].startTs > txns[victim].startTs {
            victim := picked;
          }
          found := true;
          SeenMore(g, txns, before, victim, v, from, u, order);
        }
      }
    }
  }

  /** The waits of `v` from `from` up to `to` that are still open lead to finished nodes. */
  ghost predicate Seen(g: Graph, txns: seq<Slot>, w: int, v: nat, from: nat, to: int, order: seq<nat>) {
    forall u: nat :: from <= u < to && Edge(Open(g, txns, w), v, u) ==> u in order
  }


  /**
   Where the search from `s` stands: the path is the explicit stack but for a node just pushed, each node has
   its edges looked at up to its mark, and with the waits covered by the victim left out every finished node waits
   only for nodes finished before.
   */
  ghost predicate InStep(g: Graph, txns: seq<Slot>, n: nat, s: nat, vis: seq<bool>, rec: seq<bool>,
                         p: seq<nat>, st: seq<nat>, marks: seq<nat>, order: seq<nat>, w: int)
  {
    && Between(g, txns, n) && Searching(g, vis, rec, p, order) && Different(p)
    && AllTxns(txns, st) && (st == [] ==> s in order) && (st != [] ==> st[0] == s)
    && (st == p || (|st| == |p| + 1 && st[..|p|] == p && Fresh(g, vis, p, st[|p|])))
    && Marked(Open(g, txns, w), n, |p|, st, marks, order)
  }

  /** The marks of the first `k` stack entries; a new entry above them has none. */
  ghost predicate Marked(g: Graph, n: nat, k: nat, st: seq<nat>, marks: seq<nat>, order: seq<nat>) {
    && |marks| == |st| && k <= |st| && (forall i :: 0 <= i < |marks| ==> marks[i] <= n)
    && (k < |st| ==> marks[k] == 0)
    && Sinks(g, order) && forall i :: 0 <= i < k ==> Looked(g, st, marks, order, i)
  }

  ghost predicate Fresh(g: Graph, vis: seq<bool>, p: seq<nat>, u: nat) {
    u < |g| && u < |vis| && !vis[u] && (p == [] || Edge(g, p[|p| - 1], u))
  }

  /** The edges of stack entry `i` below its mark lead to finished nodes or up the stack. */
  ghost predicate Looked(g: Graph, st: seq<nat>, marks: seq<nat>, order: seq<nat>, i: nat)
    requires i < |st| == |marks|
  {
    forall w: nat :: w < marks[i] && Edge(g, st[i], w) ==> w in order || (i + 1 < |st| && w == st[i + 1])
  }

  lemma EnterTop(g: Graph, txns: seq<Slot>, n: nat, s: nat, vis: seq<bool>, rec: seq<bool>, vis': seq<bool>,
                 rec': seq<bool>,
                 p: seq<nat>, st: seq<nat>, marks: seq<nat>, order: seq<nat>, w: int)
    requires InStep(g, txns, n, s, vis, rec, p, st, marks, order, w) && |st| == |p| + 1
    requires vis' == vis[st[|p|] := true] && rec' == rec[st[|p|] := true]
    ensures InStep(g, txns, n, s, vis', rec', st, st, marks, order, w)
    ensures Unseen(|g|, st, order) < Unseen(|g|, p, order) && |st| <= |g|
  {
    EnterNode(g, vis, rec, vis', rec', p, st, order);
    MarkTop(Open(g, txns, w), n, st, marks, order);
  }

  lemma EnterNode(g: Graph, vis: seq<bool>, rec: seq<bool>, vis': seq<bool>, rec': seq<bool>, p: seq<nat>, st: seq<nat>,
                  order: seq<nat>)
    requires Searching(g, vis, rec, p, order) && Different(p) && |st| == |p| + 1 && st[..|p|] == p
             && Fresh(g, vis, p, st[|p|])
    requires st[|p|] < |rec| && vis' == vis[st[|p|] := true] && rec' == rec[st[|p|] := true]
    ensures Searching(g, vis', rec', st, order) && Different(st)
    ensures Unseen(|g|, st, order) < Unseen(|g|, p, order) && |st| <= |g|
  {
    var u := st[|p|];
    assert st == p + [u];
    Enter(g, vis, rec, p, order, u);
    OneMore(p, u, |g|);
  }

  lemma MarkTop(g: Graph, n: nat, st: seq<nat>, marks: seq<nat>, order: seq<nat>)
    requires st != [] && Marked(g, n, |st| - 1, st, marks, order)
    ensures Marked(g, n, |st|, st, marks, order)
  {
    assert Looked(g, st, marks, order, |st| - 1);
  }

  lemma OneMore(p: seq<nat>, u: nat, n: nat)
    requires Different(p) && u !in p && u < n && forall x :: x in p ==> x < n
    ensures Different(p + [u]) && |p| < n
  {
    assert forall i :: 0 <= i < |p| ==> p[i] in p;
    Pigeonhole(p + [u], n);
  }

  lemma {:induction false} SinksShrink(g: Graph, txns: seq<Slot>, w0: int, w: int, order: seq<nat>)
    requires Younger(txns, w0, w) && Sinks(Open(g, txns, w0), order)
    ensures Sinks(Open(g, txns, w), order)
  {
    forall i, v | 0 <= i < |order| && Edge(Open(g, txns, w), order[i], v) ensures v in order[..i] {
      OpenShrinks(g, txns, w0, w, order[i], v);
    }
  }

  lemma LookedShrink(g: Graph, txns: seq<Slot>, w0: int, w: int, st: seq<nat>, marks: seq<nat>, order: seq<nat>, i: nat)
    requires Younger(txns, w0, w) && i < |st| == |marks| && Looked(Open(g, txns, w0), st, marks, order, i)
    ensures Looked(Open(g, txns, w), st, marks, order, i)
  {
    forall u: nat | u < marks[i] && Edge(Open(g, txns, w), st[i], u)
      ensures u in order || (i + 1 < |st| && u == st[i + 1])
    {
      OpenShrinks(g, txns, w0, w, st[i], u);
    }
  }

  /** A younger victim leaves fewer waits open. */
  lemma MarkedShrink(g: Graph, txns: seq<Slot>, w0: int, w: int, n: nat, st: seq<nat>, marks: seq<nat>, order: seq<nat>)
    requires Younger(txns, w0, w) && Marked(Open(g, txns, w0), n, |st|, st, marks, order)
    ensures Marked(Open(g, txns, w), n, |st|, st, marks, order)
  {
    SinksShrink(g, txns, w0, w, order);
    forall i | 0 <= i < |st| ensures Looked(Open(g, txns, w), st, marks, order, i) {
      LookedShrink(g, txns, w0, w, st, marks, order, i);
    }
  }

  lemma PushMarked(g: Graph, n: nat, p: seq<nat>, marks: seq<nat>, order: seq<nat>, next: nat)
    requires Marked(g, n, |p|, p, marks, order) && p != [] && 0 < next <= n
    requires forall u: nat :: marks[|p| - 1] <= u < next - 1 && Edge(g, p[|p| - 1], u) ==> u in order
    ensures Marked(g, n, |p|, p + [next - 1], marks[|p| - 1 := next] + [0], order)
  {
    var st, marks' := p + [next - 1], marks[|p| - 1 := next] + [0];
    forall i | 0 <= i < |p| ensures Looked(g, st, marks', order, i) {
      assert Looked(g, p, marks, order, i);
    }
  }

  lemma PopMarked(g: Graph, n: nat, p: seq<nat>, marks: seq<nat>, order: seq<nat>)
    requires Marked(g, n, |p|, p, marks, order) && p != []
    requires forall u: nat :: marks[|p| - 1] <= u && Edge(g, p[|p| - 1], u) ==> u in order
    ensures var k := |p| - 1; Marked(g, n, k, p[..k], marks[..k], order + [p[k]])
  {
    var k := |p| - 1;
    var v, q := p[k], p[..k];
    assert Looked(g, p, marks, order, k);
    SinksAppend(g, order, v);
    forall i | 0 <= i < k ensures Looked(g, q, marks[..k], order + [v], i) {
      assert Looked(g, p, marks, order, i);
    }
  }

  lemma PushChild(g: Graph, txns: seq<Slot>, n: nat, s: nat, vis: seq<bool>, rec: seq<bool>,
                  p: seq<nat>, marks: seq<nat>, order: seq<nat>, w0: int, next: nat, w: int)
    requires InStep(g, txns, n, s, vis, rec, p, p, marks, order, w0) && p != [] && Younger(txns, w0, w)
    requires 0 < next <= n && Fresh(g, vis, p, next - 1) && marks[|p| - 1] < next
    requires Seen(g, txns, w, p[|p| - 1], marks[|p| - 1], next - 1, order)
    ensures InStep(g, txns, n, s, vis, rec, p, p + [next - 1], marks[|p| - 1 := next] + [0], order, w)
    ensures |p| < |g|
  {
    OneMore(p, next - 1, |g|);
    MarkedShrink(g, txns, w0, w, n, p, marks, order);
    PushMarked(Open(g, txns, w), n, p, marks, order, next);
  }

  lemma PopTop(g: Graph, txns: seq<Slot>, n: nat, s: nat, vis: seq<bool>, rec: seq<bool>,
               p: seq<nat>, marks: seq<nat>, order: seq<nat>, w0: int, w: int)
    requires InStep(g, txns, n, s, vis, rec, p, p, marks, order, w0) && p != [] && Younger(txns, w0, w)
    requires Seen(g, txns, w, p[|p| - 1], marks[|p| - 1], n, order)
    ensures var k := |p| - 1; p[k] < |rec|
    ensures var k := |p| - 1;
            InStep(g, txns, n, s, vis, rec[p[k] := false], p[..k], p[..k], marks[..k], order + [p[k]], w)
  {
    var k := |p| - 1;
    var v, q := p[k], p[..k];
    assert p == q + [v] && v in p;
    Leave(g, vis, rec, q, order, v);
    MarkedShrink(g, txns, w0, w, n, p, marks, order);
    forall u: nat | marks[k] <= u && Edge(Open(g, txns, w), v, u) ensures u in order { OpenEdge(g, txns, w, v, u); }
    PopMarked(Open(g, txns, w), n, p, marks, order);
  }

  /** Put the top of the stack on the path. */
  method Mark(visited: array<bool>, recstack: array<bool>, path: array<nat>, len: nat, v: nat)
    requires visited != recstack && v < visited.Length == recstack.Length && len < path.Length
    modifies visited, recstack, path
    ensures visited[..] == old(visited[..])[v := true] && recstack[..] == old(recstack[..])[v := true]
    ensures path[..len + 1] == old(path[..len]) + [v]
  {
    visited[v], recstack[v] := true, true;
    path[len] := v;
  }

  method Push(stack: array<nat>, edgeIdx: array<nat>, sp: nat, next: nat)
    requires stack != edgeIdx && 0 < sp < stack.Length == edgeIdx.Length && 0 < next
    modifies stack, edgeIdx
    ensures stack[..sp + 1] == old(stack[..sp]) + [next - 1]
    ensures edgeIdx[..sp + 1] == old(edgeIdx[..sp])[sp - 1 := next] + [0]
  {
    edgeIdx[sp - 1] := next;
    stack[sp], edgeIdx[sp] := next - 1, 0;
  }

  method Pop(recstack: array<bool>, stack: array<nat>, edgeIdx: array<nat>, sp: nat, v: nat, next: nat)
    requires stack != edgeIdx && 0 < sp <= stack.Length == edgeIdx.Length && v < recstack.Length
    modifies recstack, stack, edgeIdx
    ensures recstack[..] == old(recstack[..])[v := false]
    ensures stack[..sp - 1] == old(stack[..sp])[..sp - 1] && edgeIdx[..sp - 1] == old(edgeIdx[..sp])[..sp - 1]
  {
    recstack[v] := false;
    edgeIdx[sp - 1], stack[sp - 1] := next, 0;
  }

  ghost predicate VictimOk(g: Graph, txns: seq<Slot>, found: bool, victim: int) {
    if found then GoodVictim(g, txns, victim) else victim == -1
  }

  /** The edges of the node on top of the stack, from its mark on. */
  method ScanTop(g: Graph, txns: seq<Slot>, n: nat, ghost s: nat, visited: array<bool>, recstack: array<bool>,
                 path: array<nat>, stack: array<nat>, edgeIdx: array<nat>, len: nat, found0: bool, victim0: int,
                 ghost order: seq<nat>)
    returns (next: nat, deeper: bool, found: bool, victim: int)
    requires 0 < len <= path.Length == stack.Length == edgeIdx.Length == |g| && path[..len] == stack[..len]
    requires InStep(g, txns, n, s, visited[..], recstack[..], path[..len], path[..len], edgeIdx[..len], order, victim0)
    requires VictimOk(g, txns, found0, victim0)
    ensures VictimOk(g, txns, found, victim) && next <= n
    ensures deeper ==> edgeIdx[len - 1] < next && Fresh(g, visited[..], path[..len], next - 1)
    ensures Younger(txns, victim0, victim)
            && Seen(g, txns, victim, path[len - 1], edgeIdx[len - 1], if deeper then next - 1 else n, order)
  {
    var v := stack[len - 1];
    assert v == path[..len][len - 1] && v in path[..len] && v == stack[..len][len - 1];
    assert edgeIdx[..len][len - 1] == edgeIdx[len - 1];
    next, deeper, found,
      victim := ScanEdges(g, txns, n, v, edgeIdx[len - 1], visited, recstack, path, len, found0, victim0, order);
  }

  /** One round at the node on top of the stack, which is on the path. */
  method Round(g: Graph, txns: seq<Slot>, n: nat, ghost s: nat, visited: array<bool>, recstack: array<bool>,
               path: array<nat>, stack: array<nat>, edgeIdx: array<nat>, len: nat, found0: bool, victim0: int,
               ghost order0: seq<nat>)
    returns (sp: nat, found: bool, victim: int, ghost order: seq<nat>)
    requires visited != recstack && path != stack && stack != edgeIdx && path != edgeIdx
    requires 0 < len <= path.Length == stack.Length == edgeIdx.Length == |g| && path[..len] == stack[..len]
    requires InStep(g, txns, n, s, visited[..], recstack[..], path[..len], path[..len], edgeIdx[..len], order0, victim0)
    requires VictimOk(g, txns, found0, victim0)
    modifies recstack, stack, edgeIdx
    ensures sp <= |g| && VictimOk(g, txns, found, victim)
    ensures sp == len + 1 || sp == len - 1
    ensures sp > len ==>
              order == order0
              && InStep(g, txns, n, s, visited[..], recstack[..], path[..len], stack[..sp], edgeIdx[..sp], order,
                        victim)
    ensures Unseen(|g|, path[..if sp < len then sp else len], order) == Unseen(|g|, path[..len], order0)
    ensures sp < len ==> order0 <= order && stack[..sp] == path[..sp]
                         && InStep(g, txns, n, s, visited[..], recstack[..], path[..sp], path[..sp], edgeIdx[..sp],
                                   order, victim)
  {
    var next, deeper;
    next, deeper, found,
      victim := ScanTop(g, txns, n, s, visited, recstack, path, stack, edgeIdx, len, found0, victim0, order0);
    if deeper {
      sp, order := len + 1, order0;
      Deepen(g, txns, n, s, visited, recstack, path, stack, edgeIdx, len, victim0, next, victim, order0);
    } else {
      sp := len - 1;
      order := Retreat(g, txns, n, s, visited, recstack, path, stack, edgeIdx, len, victim0, next, victim, order0);
    }
  }

  /** An edge to a new node: the node goes on the stack. */
  method Deepen(g: Graph, ghost txns: seq<Slot>, ghost n: nat, ghost s: nat, ghost visited: array<bool>,
                ghost recstack: array<bool>,
                ghost path: array<nat>, stack: array<nat>, edgeIdx: array<nat>, len: nat, ghost w0: int, next: nat,
                ghost w: int, ghost order: seq<nat>)
    requires path != stack && stack != edgeIdx && path != edgeIdx
    requires 0 < len <= path.Length == stack.Length == edgeIdx.Length == |g| && path[..len] == stack[..len]
    requires InStep(g, txns, n, s, visited[..], recstack[..], path[..len], path[..len], edgeIdx[..len], order, w0)
             && Younger(txns, w0, w)
    requires edgeIdx[len - 1] < next <= n && Fresh(g, visited[..], path[..len], next - 1)
    requires Seen(g, txns, w, path[len - 1], edgeIdx[len - 1], next - 1, order)
    modifies stack, edgeIdx
    ensures len < |g|
    ensures InStep(g, txns, n, s, visited[..], recstack[..], path[..len], stack[..len + 1], edgeIdx[..len + 1], order,
                   w)
  {
    PushChild(g, txns, n, s, visited[..], recstack[..], path[..len], edgeIdx[..len], order, w0, next, w);
    Push(stack, edgeIdx, len, next);
  }

  /** All edges seen: the node leaves the stack and the path. */
  method Retreat(g: Graph, ghost txns: seq<Slot>, n: nat, ghost s: nat, ghost visited: array<bool>,
                 recstack: array<bool>,
                 ghost path: array<nat>, stack: array<nat>, edgeIdx: array<nat>, len: nat, ghost w0: int,
                 next: nat, ghost w: int, ghost order0: seq<nat>)
    returns (ghost order: seq<nat>)
    requires visited != recstack && path != stack && stack != edgeIdx && path != edgeIdx
    requires 0 < len <= path.Length == stack.Length == edgeIdx.Length == |g| && path[..len] == stack[..len]
    requires InStep(g, txns, n, s, visited[..], recstack[..], path[..len], path[..len], edgeIdx[..len], order0, w0)
    requires Younger(txns, w0, w) && Seen(g, txns, w, path[len - 1], edgeIdx[len - 1], n, order0)
    modifies recstack, stack, edgeIdx
    ensures order0 <= order && stack[..len - 1] == path[..len - 1]
    ensures Unseen(|g|, path[..len - 1], order) == Unseen(|g|, path[..len], order0)
    ensures InStep(g, txns, n, s, visited[..], recstack[..], path[..len - 1], path[..len - 1], edgeIdx[..len - 1],
                   order, w)
  {
    ghost var p := path[..len];
    var v := stack[len - 1];
    assert v == p[len - 1];
    PopTop(g, txns, n, s, visited[..], recstack[..], p, edgeIdx[..len], order0, w0, w);
    Pop(recstack, stack, edgeIdx, len, v, next);
    order := order0 + [v];
    assert path[..len - 1] == p[..len - 1];
    Fewer(|g|, p, order0);
  }

  /** Search everything that can be reached from `s`. */
  method SearchFrom(g: Graph, txns: seq<Slot>, n: nat, s: nat, visited: array<bool>, recstack: array<bool>,
                    path: array<nat>, stack: array<nat>, edgeIdx: array<nat>, found0: bool, victim0: int,
                    ghost order0: seq<nat>)
    returns (found: bool, victim: int, ghost order: seq<nat>)
    requires Between(g, txns, n) && 1 <= s < n && txns[s].Txn? && s < visited.Length && !visited[s]
    requires visited != recstack && path != stack && stack != edgeIdx && path != edgeIdx
    requires path.Length == stack.Length == edgeIdx.Length == |g|
    requires Searching(g, visited[..], recstack[..], [], order0) && Sinks(Open(g, txns, victim0), order0)
    requires VictimOk(g, txns, found0, victim0)
    modifies visited, recstack, path, stack, edgeIdx
    ensures Searching(g, visited[..], recstack[..], [], order) && Sinks(Open(g, txns, victim), order)
    ensures VictimOk(g, txns, found, victim)
    ensures order0 <= order && s in order
  {
    found, victim, order := found0, victim0, order0;
    var pathLen: nat := 0;
    stack[0], edgeIdx[0] := s, 0;
    var sp: nat := 1;
    assert stack[..1] == [s] && edgeIdx[..1] == [0] && path[..0] == [];
    while sp > 0
      invariant pathLen <= sp <= |g| && sp <= pathLen + 1
      invariant InStep(g, txns, n, s, visited[..], recstack[..], path[..pathLen], stack[..sp], edgeIdx[..sp], order,
                       victim)
      invariant VictimOk(g, txns, found, victim) && order0 <= order
      decreases Unseen(|g|, path[..pathLen], order), if sp == pathLen then 1 else 0, sp
    {
      pathLen := EnterNew(g, txns, n, s, visited, recstack, path, stack, edgeIdx, pathLen, sp, victim, order);
      sp, found, victim,
        order := Round(g, txns, n, s, visited, recstack, path, stack, edgeIdx, pathLen, found, victim, order);
      if sp < pathLen { pathLen := sp; }
    }
  }

  /** A new node on top of the stack is visited and put on the path. */
  method EnterNew(g: Graph, txns: seq<Slot>, n: nat, ghost s: nat, visited: array<bool>, recstack: array<bool>,
                  path: array<nat>, stack: array<nat>, ghost edgeIdx: array<nat>, len0: nat, sp: nat, ghost w: int,
                  ghost order: seq<nat>)
    returns (len: nat)
    requires visited != recstack && path != stack && path != edgeIdx
    requires len0 <= sp <= path.Length == stack.Length == edgeIdx.Length == |g| && 0 < sp
    requires InStep(g, txns, n, s, visited[..], recstack[..], path[..len0], stack[..sp], edgeIdx[..sp], order, w)
    modifies visited, recstack, path
    ensures len == sp && path[..len] == stack[..len]
    ensures InStep(g, txns, n, s, visited[..], recstack[..], path[..len], path[..len], edgeIdx[..len], order, w)
    ensures len0 != sp ==> Unseen(|g|, path[..len], order) < Unseen(|g|, old(path[..len0]), order)
    ensures len0 == sp ==> path[..len] == old(path[..len0])
  {
    var v := stack[sp - 1];
    TopState(g, txns, n, s, visited[..], recstack[..], path[..len0], stack[..sp], edgeIdx[..sp], order, w);
    len := len0;
    if !visited[v] {
      EnterTop(g, txns, n, s, visited[..], recstack[..], visited[..][v := true], recstack[..][v := true], path[..len0],
               stack[..sp], edgeIdx[..sp], order, w);
      Mark(visited, recstack, path, len0, v);
      len := len0 + 1;
    }
  }

  /** The top of the stack is new exactly when it is not on the path yet. */
  lemma TopState(g: Graph, txns: seq<Slot>, n: nat, s: nat, vis: seq<bool>, rec: seq<bool>,
                 p: seq<nat>, st: seq<nat>, marks: seq<nat>, order: seq<nat>, w: int)
    requires InStep(g, txns, n, s, vis, rec, p, st, marks, order, w) && st != []
    ensures var v := st[|st| - 1];
            v < |g| == |vis| == |rec| && (vis[v] ==> st == p) && (!vis[v] ==> |st| == |p| + 1 && st == p + [v])
  {
    assert st == p ==> st[|st| - 1] in p;
  }

  lemma Fewer(n: nat, p: seq<nat>, order: seq<nat>)
    requires p != []
    ensures Unseen(n, p[..|p| - 1], order + [p[|p| - 1]]) == Unseen(n, p, order)
  {
    var q, v := p[..|p| - 1], p[|p| - 1];
    assert p == q + [v];
  }

  ghost predicate AllDone(txns: seq<Slot>, n: nat, order: seq<nat>) {
    forall w: nat :: 1 <= w < n && w < |txns| && txns[w].Txn? ==> w in order
  }

  lemma NoWaitsLeft(g: Graph, txns: seq<Slot>, n: nat, order: seq<nat>, w: int)
    requires Between(g, txns, n) && AllDone(txns, n, order) && Sinks(Open(g, txns, w), order)
    ensures Answers(g, txns, w) && (w == -1 ==> !HasCycle(g))
  {
    forall u, v | Edge(Open(g, txns, w), u, v) ensures u in order { OpenEdge(g, txns, w, u, v); }
    Acyclic(Open(g, txns, w), order);
    CycleAnswered(g, txns, w);
  }

  /** Search from `s` unless it is no transaction or was reached before. */
  method SearchNew(g: Graph, txns: seq<Slot>, n: nat, s: nat, visited: array<bool>, recstack: array<bool>,
                   path: array<nat>, stack: array<nat>, edgeIdx: array<nat>, found0: bool, victim0: int,
                   ghost order0: seq<nat>)
    returns (found: bool, victim: int, ghost order: seq<nat>)
    requires Between(g, txns, n) && 1 <= s < n
    requires visited != recstack && path != stack && stack != edgeIdx && path != edgeIdx
    requires path.Length == stack.Length == edgeIdx.Length == |g|
    requires Searching(g, visited[..], recstack[..], [], order0) && Sinks(Open(g, txns, victim0), order0)
    requires VictimOk(g, txns, found0, victim0) && AllDone(txns, s, order0)
    modifies visited, recstack, path, stack, edgeIdx
    ensures Searching(g, visited[..], recstack[..], [], order) && Sinks(Open(g, txns, victim), order)
    ensures VictimOk(g, txns, found, victim) && AllDone(txns, s + 1, order)
  {
    found, victim, order := found0, victim0, order0;
    if txns[s].Txn? && !visited[s] {
      found, victim, order := SearchFrom(g, txns, n, s, visited, recstack, path, stack, edgeIdx, found, victim, order);
    }
  }

  /**
   Finds a cycle of waits exactly when there is one; the victim is then a transaction on a cycle, and the
   youngest on it.  On every other cycle, too, there is a wait between two transactions not younger than the victim.
   */
  method DetectAndPick(g: Graph, txns: seq<Slot>, n: nat) returns (found: bool, victim: int)
    requires Between(g, txns, n)
    ensures found <==> HasCycle(g)
    ensures found ==> GoodVictim(g, txns, victim) && Answers(g, txns, victim)
  {
    var visited := new bool[|g|](_ => false);
    var recstack := new bool[|g|](_ => false);
    var path := new nat[|g|](_ => 0);
    var stack := new nat[|g|](_ => 0);
    var edgeIdx := new nat[|g|](_ => 0);
    ghost var order: seq<nat> := [];
    found, victim := false, -1;
    for s := 1 to n
      invariant Searching(g, visited[..], recstack[..], [], order) && Sinks(Open(g, txns, victim), order)
      invariant VictimOk(g, txns, found, victim)
      invariant AllDone(txns, s, order)
    {
      found, victim, order := SearchNew(g, txns, n, s, visited, recstack, path, stack, edgeIdx, found, victim, order);
    }
    NoWaitsLeft(g, txns, n, order, victim);
  }
}
