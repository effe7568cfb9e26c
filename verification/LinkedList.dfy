/** The doubly linked list of the cache: nodes in an arena, index 0 standing for the null pointer. */
module LinkedList {
  import opened Pigeonholes

  type Ref = nat
  const NULL: Ref := 0

  datatype Node = Node(key: int, value: int, prev: Ref, next: Ref)

  /** Entry `i` of a list, or null outside it. */
  function At(l: seq<Ref>, i: int): Ref {
    if 0 <= i < |l| then l[i] else NULL
  }

  /** The nodes of `l`, in this order, are linked both ways between `head` and `tail`. */
  ghost predicate Links(nodes: seq<Node>, head: Ref, tail: Ref, l: seq<Ref>) {
    && head == At(l, 0) && tail == At(l, |l| - 1) && Different(l)
    && forall i :: 0 <= i < |l| ==> Linked(nodes, l, i)
  }

  ghost predicate Linked(nodes: seq<Node>, l: seq<Ref>, i: nat)
    requires i < |l|
  {
    0 < l[i] < |nodes| && nodes[l[i]].prev == At(l, i - 1) && nodes[l[i]].next == At(l, i + 1)
  }

  // ---------------------------------------------------------------- addToHead

  function Added(nodes: seq<Node>, head: Ref, n: Ref): seq<Node>
    requires n < |nodes| && head < |nodes|
  {
    var g := nodes[n := nodes[n].(next := head, prev := NULL)];
    if head != NULL then g[head := g[head].(prev := n)] else g
  }

  lemma AddedLinks(nodes: seq<Node>, head: Ref, tail: Ref, l: seq<Ref>, n: Ref)
    requires Links(nodes, head, tail, l) && 0 < n < |nodes| && n !in l
    ensures head < |nodes|
    ensures Links(Added(nodes, head, n), n, if tail == NULL then n else tail, [n] + l)
  {
    assert l != [] ==> Linked(nodes, l, 0) && Linked(nodes, l, |l| - 1);
    var g, m := Added(nodes, head, n), [n] + l;
    forall i | 0 <= i < |m| ensures Linked(g, m, i) {
      if i > 0 { assert Linked(nodes, l, i - 1) && m[i] == l[i - 1]; }
    }
  }

  // ---------------------------------------------------------------- removeNode

  function Unlinked(nodes: seq<Node>, n: Ref): seq<Node>
    requires n < |nodes| && nodes[n].prev < |nodes| && nodes[n].next < |nodes|
  {
    var p, q := nodes[n].prev, nodes[n].next;
    var g := if p != NULL then nodes[p := nodes[p].(next := q)] else nodes;
    if q != NULL then g[q := g[q].(prev := p)] else g
  }

  lemma Around(nodes: seq<Node>, head: Ref, tail: Ref, l: seq<Ref>, k: nat)
    requires Links(nodes, head, tail, l) && k < |l|
    ensures 0 < l[k] < |nodes| && nodes[l[k]].prev == At(l, k - 1) < |nodes|
            && nodes[l[k]].next == At(l, k + 1) < |nodes|
    ensures (nodes[l[k]].prev == NULL <==> k == 0) && (nodes[l[k]].next == NULL <==> k == |l| - 1)
    ensures nodes[l[k]].prev != l[k] && nodes[l[k]].next != l[k]
    ensures nodes[l[k]].prev != NULL ==> nodes[l[k]].prev != nodes[l[k]].next
  {
    assert Linked(nodes, l, k);
    assert k > 0 ==> Linked(nodes, l, k - 1);
    assert k < |l| - 1 ==> Linked(nodes, l, k + 1);
  }

  lemma UnlinkedAt(nodes: seq<Node>, head: Ref, tail: Ref, l: seq<Ref>, k: nat, i: nat)
    requires Links(nodes, head, tail, l) && k < |l| && i < |l| - 1
    requires l[k] < |nodes| && nodes[l[k]].prev < |nodes| && nodes[l[k]].next < |nodes|
    ensures Linked(Unlinked(nodes, l[k]), Cut(l, k), i)
  {
    Around(nodes, head, tail, l, k);
    var j := if i < k then i else i + 1;
    assert Linked(nodes, l, j) && Cut(l, k)[i] == l[j];
    assert i + 1 < k ==> Cut(l, k)[i + 1] == l[j + 1];
  }

  lemma CutEnds(l: seq<Ref>, k: nat)
    requires k < |l| && Different(l)
    ensures Different(Cut(l, k)) && l[k] !in Cut(l, k)
    ensures At(Cut(l, k), 0) == (if k == 0 then At(l, 1) else At(l, 0))
    ensures At(Cut(l, k), |l| - 2) == (if k == |l| - 1 then At(l, |l| - 2) else At(l, |l| - 1))
  { }

  lemma UnlinkedLinks(nodes: seq<Node>, head: Ref, tail: Ref, l: seq<Ref>, k: nat)
    requires Links(nodes, head, tail, l) && k < |l|
    ensures 0 < l[k] < |nodes| && nodes[l[k]].prev < |nodes| && nodes[l[k]].next < |nodes|
    ensures var n := nodes[l[k]];
            Links(Unlinked(nodes, l[k]),
                  if n.prev == NULL then n.next else head, if n.next == NULL then n.prev else tail, Cut(l, k))
    ensures l[k] !in Cut(l, k)
  {
    Around(nodes, head, tail, l, k);
    CutEnds(l, k);
    forall i | 0 <= i < |l| - 1
      ensures Linked(Unlinked(nodes, l[k]), Cut(l, k), i)
    {
      UnlinkedAt(nodes, head, tail, l, k, i);
    }
  }

  /** Links are the same when other nodes, keys or values change. */
  lemma SameLinks(nodes: seq<Node>, g: seq<Node>, head: Ref, tail: Ref, l: seq<Ref>)
    requires Links(nodes, head, tail, l) && |nodes| <= |g|
    requires forall i :: 0 <= i < |l| && l[i] < |nodes| ==>
               g[l[i]].prev == nodes[l[i]].prev && g[l[i]].next == nodes[l[i]].next
    ensures Links(g, head, tail, l)
  {
    forall i | 0 <= i < |l| ensures Linked(g, l, i) { assert Linked(nodes, l, i); }
  }
}
