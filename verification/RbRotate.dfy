/** What a rotation does to the arena is the rotation of the tree it holds. */
module RbRotate {
  import opened RbModel
  import opened RbHeap

  /** The test by which the code tells a left child from a right one. */
  lemma SideOfParent(h: Heap, root: Ref, t: Tree, path: Path)
    requires Holds(h, root, t, path) && t.Node?
    ensures !path.Top? ==> 0 < path.ref < |h| && path.ref !in Refs(t)
    ensures path.LeftOf? ==> h[path.ref].left == t.ref
    ensures path.RightOf? ==> h[path.ref].left != t.ref
  {
    if !path.Top? {
      assert path.ref in PathRefs(path);
      assert path.sibling.Node? ==> path.sibling.ref in PathRefs(path);
      assert t.ref in Refs(t);
    }
  }

  /** The fields after the pointer changes of a left rotation. */
  ghost predicate RotatedLeft(h: Heap, g: Heap, root: Ref, root': Ref, t: Tree, path: Path)
    requires t.Node? && t.right.Node?
  {
    var y := t.right;
    && |g| == |h| && t.ref < |h| && y.ref < |h|
    && (forall r :: 0 <= r < |h| && r != t.ref && r != y.ref && r != ParentRef(path) && r != Root(y.left) ==>
          g[r] == h[r])
    && (y.left.Node? ==> y.left.ref < |h| && g[y.left.ref] == h[y.left.ref].(parent := t.ref))
    && g[t.ref] == h[t.ref].(right := Root(y.left), parent := y.ref)
    && g[y.ref] == h[y.ref].(left := t.ref, parent := ParentRef(path))
    && (path.LeftOf? ==> path.ref < |h| && g[path.ref] == h[path.ref].(left := y.ref))
    && (path.RightOf? ==> path.ref < |h| && g[path.ref] == h[path.ref].(right := y.ref))
    && (path.Top? ==> root' == y.ref) && (!path.Top? ==> root' == root)
    && g[NIL] == h[NIL]
  }

  /** The nodes a left rotation touches, and that they are all different. */
  lemma AroundLeft(h: Heap, root: Ref, t: Tree, path: Path)
    requires Holds(h, root, t, path) && t.Node? && t.right.Node?
    ensures var y := t.right;
            && 0 < t.ref < |h| && h[t.ref] == RBNode(t.key, t.color, Root(t.left), y.ref, ParentRef(path))
            && 0 < y.ref < |h| && h[y.ref] == RBNode(y.key, y.color, Root(y.left), Root(y.right), t.ref)
            && Rep(h, t.left, t.ref) && Rep(h, y.left, y.ref) && Rep(h, y.right, y.ref)
            && (y.left.Node? ==> 0 < y.left.ref < |h|)
            && t.ref != y.ref && t.ref != Root(y.left) && y.ref != Root(y.left)
            && Unshared(t.left) && Unshared(y.left) && Unshared(y.right)
            && ParentRef(path) !in {t.ref, y.ref} && (!path.Top? ==> path.ref != Root(y.left) && 0 < path.ref < |h|)
            && {t.ref, y.ref} !! Refs(t.left) && {t.ref, y.ref} !! Refs(y.left) && {t.ref, y.ref} !! Refs(y.right)
            && Refs(t.left) !! Refs(y.left) !! Refs(y.right)
            && Refs(t) == {t.ref, y.ref} + Refs(t.left) + Refs(y.left) + Refs(y.right)
            && ParentRef(path) !in Refs(t)
            && (y.left.Node? ==> y.left.ref in Refs(y.left))
            && (path.LeftOf? ==> h[path.ref].left == t.ref) && (path.RightOf? ==> h[path.ref].left != t.ref)
  {
    var y := t.right;
    assert Rep(h, y, t.ref) && Unshared(y);
    assert y.left.Node? ==> Rep(h, y.left, y.ref) && y.left.ref in Refs(y.left);
    assert y.ref in Refs(y) && Refs(y.left) <= Refs(y) && Refs(y.right) <= Refs(y);
    RefsInRange(h, t, ParentRef(path));
    SideOfParent(h, root, t, path);
  }

  /** The fields a left rotation reads. */
  ghost predicate LeftFields(h: Heap, t: Tree, path: Path)
    requires t.Node? && t.right.Node?
  {
    var y := t.right;
    && 0 < t.ref < |h| && h[t.ref] == RBNode(t.key, t.color, Root(t.left), y.ref, ParentRef(path))
    && 0 < y.ref < |h| && h[y.ref] == RBNode(y.key, y.color, Root(y.left), Root(y.right), t.ref)
    && (y.left.Node? ==> 0 < y.left.ref < |h|)
    && t.ref != y.ref && t.ref != Root(y.left) && y.ref != Root(y.left)
    && ParentRef(path) != t.ref && ParentRef(path) != y.ref
    && (!path.Top? ==> path.ref != Root(y.left) && 0 < path.ref < |h|)
    && (path.LeftOf? ==> h[path.ref].left == t.ref) && (path.RightOf? ==> h[path.ref].left != t.ref)
  }

  lemma FieldsLeft(h: Heap, root: Ref, t: Tree, path: Path)
    requires Holds(h, root, t, path) && t.Node? && t.right.Node?
    ensures LeftFields(h, t, path)
  {
    AroundLeft(h, root, t, path);
  }

  lemma RotatedLeftRep(h: Heap, g: Heap, root: Ref, root': Ref, t: Tree, path: Path)
    requires Holds(h, root, t, path) && t.Node? && t.right.Node? && RotatedLeft(h, g, root, root', t, path)
    ensures Rep(g, RotateLeft(t), ParentRef(path)) && Unshared(RotateLeft(t))
  {
    var y := t.right;
    AroundLeft(h, root, t, path);
    FrameRep(h, g, t.left, t.ref);
    ReparentRep(h, g, y.left, y.ref, t.ref);
    FrameRep(h, g, y.right, y.ref);
    var low := Node(t.ref, t.color, t.left, t.key, y.left);
    assert Rep(g, low, y.ref) && Unshared(low);
    assert Refs(low) == {t.ref} + Refs(t.left) + Refs(y.left);
  }

  lemma RotatedLeftHolds(h: Heap, g: Heap, root: Ref, root': Ref, t: Tree, path: Path)
    requires Holds(h, root, t, path) && t.Node? && t.right.Node? && RotatedLeft(h, g, root, root', t, path)
    ensures Holds(g, root', RotateLeft(t), path)
  {
    var y := t.right;
    AroundLeft(h, root, t, path);
    RotatedLeftRep(h, g, root, root', t, path);
    RechildPath(h, g, path, t.ref, y.ref);
    TopRefOf(path, t.ref, y.ref);
    assert Refs(RotateLeft(t)) == Refs(t);
  }

  /** The fields after the pointer changes of a right rotation. */
  ghost predicate RotatedRight(h: Heap, g: Heap, root: Ref, root': Ref, t: Tree, path: Path)
    requires t.Node? && t.left.Node?
  {
    var y := t.left;
    && |g| == |h| && t.ref < |h| && y.ref < |h|
    && (forall r :: 0 <= r < |h| && r != t.ref && r != y.ref && r != ParentRef(path) && r != Root(y.right) ==>
          g[r] == h[r])
    && (y.right.Node? ==> y.right.ref < |h| && g[y.right.ref] == h[y.right.ref].(parent := t.ref))
    && g[t.ref] == h[t.ref].(left := Root(y.right), parent := y.ref)
    && g[y.ref] == h[y.ref].(right := t.ref, parent := ParentRef(path))
    && (path.LeftOf? ==> path.ref < |h| && g[path.ref] == h[path.ref].(left := y.ref))
    && (path.RightOf? ==> path.ref < |h| && g[path.ref] == h[path.ref].(right := y.ref))
    && (path.Top? ==> root' == y.ref) && (!path.Top? ==> root' == root)
    && g[NIL] == h[NIL]
  }

  /** The nodes a right rotation touches, and that they are all different. */
  lemma AroundRight(h: Heap, root: Ref, t: Tree, path: Path)
    requires Holds(h, root, t, path) && t.Node? && t.left.Node?
    ensures var y := t.left;
            && 0 < t.ref < |h| && h[t.ref] == RBNode(t.key, t.color, y.ref, Root(t.right), ParentRef(path))
            && 0 < y.ref < |h| && h[y.ref] == RBNode(y.key, y.color, Root(y.left), Root(y.right), t.ref)
            && Rep(h, t.right, t.ref) && Rep(h, y.right, y.ref) && Rep(h, y.left, y.ref)
            && (y.right.Node? ==> 0 < y.right.ref < |h|)
            && t.ref != y.ref && t.ref != Root(y.right) && y.ref != Root(y.right)
            && Unshared(t.right) && Unshared(y.right) && Unshared(y.left)
            && ParentRef(path) !in {t.ref, y.ref} && (!path.Top? ==> path.ref != Root(y.right) && 0 < path.ref < |h|)
            && {t.ref, y.ref} !! Refs(t.right) && {t.ref, y.ref} !! Refs(y.right) && {t.ref, y.ref} !! Refs(y.left)
            && Refs(t.right) !! Refs(y.right) !! Refs(y.left)
            && Refs(t) == {t.ref, y.ref} + Refs(t.right) + Refs(y.right) + Refs(y.left)
            && ParentRef(path) !in Refs(t)
            && (y.right.Node? ==> y.right.ref in Refs(y.right))
            && (path.LeftOf? ==> h[path.ref].left == t.ref) && (path.RightOf? ==> h[path.ref].left != t.ref)
  {
    var y := t.left;
    assert Rep(h, y, t.ref) && Unshared(y);
    assert y.right.Node? ==> Rep(h, y.right, y.ref) && y.right.ref in Refs(y.right);
    assert y.ref in Refs(y) && Refs(y.right) <= Refs(y) && Refs(y.left) <= Refs(y);
    RefsInRange(h, t, ParentRef(path));
    SideOfParent(h, root, t, path);
  }

  /** The fields a right rotation reads. */
  ghost predicate RightFields(h: Heap, t: Tree, path: Path)
    requires t.Node? && t.left.Node?
  {
    var y := t.left;
    && 0 < t.ref < |h| && h[t.ref] == RBNode(t.key, t.color, y.ref, Root(t.right), ParentRef(path))
    && 0 < y.ref < |h| && h[y.ref] == RBNode(y.key, y.color, Root(y.left), Root(y.right), t.ref)
    && (y.right.Node? ==> 0 < y.right.ref < |h|)
    && t.ref != y.ref && t.ref != Root(y.right) && y.ref != Root(y.right)
    && ParentRef(path) != t.ref && ParentRef(path) != y.ref
    && (!path.Top? ==> path.ref != Root(y.right) && 0 < path.ref < |h|)
    && (path.LeftOf? ==> h[path.ref].left == t.ref) && (path.RightOf? ==> h[path.ref].left != t.ref)
  }

  lemma FieldsRight(h: Heap, root: Ref, t: Tree, path: Path)
    requires Holds(h, root, t, path) && t.Node? && t.left.Node?
    ensures RightFields(h, t, path)
  {
    AroundRight(h, root, t, path);
  }

  lemma RotatedRightRep(h: Heap, g: Heap, root: Ref, root': Ref, t: Tree, path: Path)
    requires Holds(h, root, t, path) && t.Node? && t.left.Node? && RotatedRight(h, g, root, root', t, path)
    ensures Rep(g, RotateRight(t), ParentRef(path)) && Unshared(RotateRight(t))
  {
    var y := t.left;
    AroundRight(h, root, t, path);
    FrameRep(h, g, t.right, t.ref);
    ReparentRep(h, g, y.right, y.ref, t.ref);
    FrameRep(h, g, y.left, y.ref);
    var low := Node(t.ref, t.color, y.right, t.key, t.right);
    assert Rep(g, low, y.ref) && Unshared(low);
    assert Refs(low) == {t.ref} + Refs(t.right) + Refs(y.right);
  }

  lemma RotatedRightHolds(h: Heap, g: Heap, root: Ref, root': Ref, t: Tree, path: Path)
    requires Holds(h, root, t, path) && t.Node? && t.left.Node? && RotatedRight(h, g, root, root', t, path)
    ensures Holds(g, root', RotateRight(t), path)
  {
    var y := t.left;
    AroundRight(h, root, t, path);
    RotatedRightRep(h, g, root, root', t, path);
    RechildPath(h, g, path, t.ref, y.ref);
    TopRefOf(path, t.ref, y.ref);
    assert Refs(RotateRight(t)) == Refs(t);
  }

}
