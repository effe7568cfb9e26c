/** The node arena, and when it holds a given tree at a given place. */
module RbHeap {
  import opened RbModel

  datatype RBNode = RBNode(key: int, color: Color, left: Ref, right: Ref, parent: Ref)

  type Heap = seq<RBNode>

  /** The arena holds the tree, its root under parent `p`. */
  predicate Rep(h: Heap, t: Tree, p: Ref) {
    t.Leaf? ||
    (&& 0 < t.ref < |h|
     && h[t.ref] == RBNode(t.key, t.color, Root(t.left), Root(t.right), p)
     && Rep(h, t.left, t.ref) && Rep(h, t.right, t.ref))
  }

  /** The arena holds the path, above a subtree whose root is `child`. */
  predicate RepPath(h: Heap, path: Path, child: Ref) {
    path.Top? ||
    (&& 0 < path.ref < |h|
     && h[path.ref] == (if path.LeftOf?
                        then RBNode(path.key, path.color, child, Root(path.sibling), ParentRef(path.up))
                        else RBNode(path.key, path.color, Root(path.sibling), child, ParentRef(path.up)))
     && Rep(h, path.sibling, path.ref) && RepPath(h, path.up, path.ref))
  }

  function TopRef(path: Path, child: Ref): Ref {
    if path.Top? then child else TopRef(path.up, path.ref)
  }

  /** The sentinel is black and childless; its parent field may be anything. */
  predicate NilOk(h: Heap) {
    |h| > 0 && h[NIL].color == Black && h[NIL].left == NIL && h[NIL].right == NIL
  }

  /** The arena and root hold `t` at the end of `path`. */
  predicate Holds(h: Heap, root: Ref, t: Tree, path: Path) {
    && NilOk(h)
    && Rep(h, t, ParentRef(path)) && RepPath(h, path, Root(t))
    && root == TopRef(path, Root(t))
    && Unshared(t) && UnsharedPath(path) && Refs(t) !! PathRefs(path)
  }

  // ---------------------------------------------------------------- what a change of nodes leaves alone

  lemma {:induction false} FrameRep(h: Heap, g: Heap, t: Tree, p: Ref)
    requires Rep(h, t, p) && |h| <= |g|
    requires forall r :: r in Refs(t) && r < |h| ==> g[r] == h[r]
    ensures Rep(g, t, p)
  {
    if t.Node? {
      FrameRep(h, g, t.left, t.ref);
      FrameRep(h, g, t.right, t.ref);
    }
  }

  /** Giving a subtree another parent. */
  lemma ReparentRep(h: Heap, g: Heap, t: Tree, p: Ref, q: Ref)
    requires Rep(h, t, p) && Unshared(t) && |h| <= |g|
    requires t.Node? ==> t.ref < |h| && g[t.ref] == h[t.ref].(parent := q)
    requires forall r :: r in Refs(t) && r < |h| && r != Root(t) ==> g[r] == h[r]
    ensures Rep(g, t, q)
  {
    if t.Node? {
      FrameRep(h, g, t.left, t.ref);
      FrameRep(h, g, t.right, t.ref);
    }
  }

  lemma {:induction false} FramePath(h: Heap, g: Heap, path: Path, child: Ref)
    requires RepPath(h, path, child) && |h| <= |g|
    requires forall r :: r in PathRefs(path) && r < |h| ==> g[r] == h[r]
    ensures RepPath(g, path, child)
  {
    if !path.Top? {
      FrameRep(h, g, path.sibling, path.ref);
      FramePath(h, g, path.up, path.ref);
    }
  }

  /** Hanging another subtree at the end of a path. */
  lemma RechildPath(h: Heap, g: Heap, path: Path, child: Ref, new_: Ref)
    requires RepPath(h, path, child) && UnsharedPath(path) && |h| <= |g|
    requires path.LeftOf? ==> path.ref < |h| && g[path.ref] == h[path.ref].(left := new_)
    requires path.RightOf? ==> path.ref < |h| && g[path.ref] == h[path.ref].(right := new_)
    requires forall r :: r in PathRefs(path) && r < |h| && r != ParentRef(path) ==> g[r] == h[r]
    ensures RepPath(g, path, new_)
  {
    if !path.Top? {
      FrameRep(h, g, path.sibling, path.ref);
      FramePath(h, g, path.up, path.ref);
    }
  }

  lemma {:induction false} RefsInRange(h: Heap, t: Tree, p: Ref)
    requires Rep(h, t, p)
    ensures forall r :: r in Refs(t) ==> 0 < r < |h|
  {
    if t.Node? {
      RefsInRange(h, t.left, t.ref);
      RefsInRange(h, t.right, t.ref);
    }
  }

  lemma {:induction false} PathRefsInRange(h: Heap, path: Path, child: Ref)
    requires RepPath(h, path, child)
    ensures forall r :: r in PathRefs(path) ==> 0 < r < |h|
  {
    if !path.Top? {
      RefsInRange(h, path.sibling, path.ref);
      PathRefsInRange(h, path.up, path.ref);
    }
  }

  lemma {:induction false} TopRefOf(path: Path, a: Ref, b: Ref)
    ensures TopRef(path, b) == if path.Top? then b else TopRef(path, a)
  {
    if !path.Top? { TopRefOf(path.up, path.ref, path.ref); }
  }

  // ---------------------------------------------------------------- moving the focus

  function Raised(t: Tree, path: Path): Tree
    requires !path.Top?
  {
    if path.LeftOf? then Node(path.ref, path.color, t, path.key, path.sibling)
    else Node(path.ref, path.color, path.sibling, path.key, t)
  }

  lemma FocusUp(h: Heap, root: Ref, t: Tree, path: Path)
    requires Holds(h, root, t, path) && !path.Top?
    ensures Holds(h, root, Raised(t, path), path.up)
  { }

  lemma FocusLeft(h: Heap, root: Ref, t: Tree, path: Path)
    requires Holds(h, root, t, path) && t.Node?
    ensures Holds(h, root, t.left, LeftOf(t.ref, t.color, t.key, t.right, path))
  { }

  lemma FocusRight(h: Heap, root: Ref, t: Tree, path: Path)
    requires Holds(h, root, t, path) && t.Node?
    ensures Holds(h, root, t.right, RightOf(t.ref, t.color, t.key, t.left, path))
  { }

  /** Painting the focused node. */
  lemma PaintFocus(h: Heap, root: Ref, t: Tree, path: Path, c: Color)
    requires Holds(h, root, t, path) && t.Node?
    ensures t.ref < |h| && Holds(h[t.ref := h[t.ref].(color := c)], root, Painted(t, c), path)
  {
    var g := h[t.ref := h[t.ref].(color := c)];
    FrameRep(h, g, t.left, t.ref);
    FrameRep(h, g, t.right, t.ref);
    FramePath(h, g, path, t.ref);
  }
}
