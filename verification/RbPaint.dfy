/** Painting nodes around the focus, and finding the focus's place from the arena. */
module RbPaint {
  import opened RbModel
  import opened RbHeap
  import opened RbFix

  function PaintedHeap(h: Heap, r: Ref, c: Color): Heap
    requires r < |h|
  {
    h[r := h[r].(color := c)]
  }

  lemma PaintParent(h: Heap, root: Ref, t: Tree, path: Path, c: Color)
    requires Holds(h, root, t, path) && !path.Top?
    ensures 0 < path.ref < |h| && Holds(PaintedHeap(h, path.ref, c), root, t, WithColor(path, c))
  {
    FocusUp(h, root, t, path);
    var p := Raised(t, path);
    PaintFocus(h, root, p, path.up, c);
    var g := PaintedHeap(h, path.ref, c);
    if path.LeftOf? {
      FocusLeft(g, root, Painted(p, c), path.up);
    } else {
      FocusRight(g, root, Painted(p, c), path.up);
    }
  }

  /** The focus seen from its sibling. */
  function Across(t: Tree, path: Path): Path
    requires !path.Top?
  {
    if path.LeftOf? then RightOf(path.ref, path.color, path.key, t, path.up)
    else LeftOf(path.ref, path.color, path.key, t, path.up)
  }

  lemma FocusAcross(h: Heap, root: Ref, t: Tree, path: Path)
    requires Holds(h, root, t, path) && !path.Top?
    ensures Holds(h, root, path.sibling, Across(t, path))
  {
    FocusUp(h, root, t, path);
    if path.LeftOf? {
      FocusRight(h, root, Raised(t, path), path.up);
    } else {
      FocusLeft(h, root, Raised(t, path), path.up);
    }
  }

  lemma PaintSibling(h: Heap, root: Ref, t: Tree, path: Path, c: Color)
    requires Holds(h, root, t, path) && !path.Top? && path.sibling.Node?
    ensures 0 < path.sibling.ref < |h|
    ensures Holds(PaintedHeap(h, path.sibling.ref, c), root, t, WithSibling(path, Painted(path.sibling, c)))
  {
    FocusAcross(h, root, t, path);
    PaintFocus(h, root, path.sibling, Across(t, path), c);
    FocusAcross(PaintedHeap(h, path.sibling.ref, c), root, Painted(path.sibling, c), Across(t, path));
  }

  lemma PaintLeftNephew(h: Heap, root: Ref, t: Tree, path: Path, c: Color)
    requires Holds(h, root, t, path) && !path.Top? && path.sibling.Node? && path.sibling.left.Node?
    ensures 0 < path.sibling.left.ref < |h|
    ensures Holds(PaintedHeap(h, path.sibling.left.ref, c), root, t,
                  WithSibling(path, path.sibling.(left := Painted(path.sibling.left, c))))
  {
    var w := path.sibling;
    FocusAcross(h, root, t, path);
    FocusLeft(h, root, w, Across(t, path));
    var down := LeftOf(w.ref, w.color, w.key, w.right, Across(t, path));
    PaintFocus(h, root, w.left, down, c);
    var g := PaintedHeap(h, w.left.ref, c);
    FocusUp(g, root, Painted(w.left, c), down);
    FocusAcross(g, root, w.(left := Painted(w.left, c)), Across(t, path));
  }

  lemma PaintRightNephew(h: Heap, root: Ref, t: Tree, path: Path, c: Color)
    requires Holds(h, root, t, path) && !path.Top? && path.sibling.Node? && path.sibling.right.Node?
    ensures 0 < path.sibling.right.ref < |h|
    ensures Holds(PaintedHeap(h, path.sibling.right.ref, c), root, t,
                  WithSibling(path, path.sibling.(right := Painted(path.sibling.right, c))))
  {
    var w := path.sibling;
    FocusAcross(h, root, t, path);
    FocusRight(h, root, w, Across(t, path));
    var down := RightOf(w.ref, w.color, w.key, w.left, Across(t, path));
    PaintFocus(h, root, w.right, down, c);
    var g := PaintedHeap(h, w.right.ref, c);
    FocusUp(g, root, Painted(w.right, c), down);
    FocusAcross(g, root, w.(right := Painted(w.right, c)), Across(t, path));
  }

  // ---------------------------------------------------------------- reading the arena around the focus

  /** The colour field tells the colour, of the sentinel too. */
  lemma ColorField(h: Heap, root: Ref, t: Tree, path: Path)
    requires Holds(h, root, t, path)
    ensures Root(t) < |h| && h[Root(t)].color == ColorOf(t)
  { }

  /** The sibling and its children, as fields. */
  lemma SiblingFields(h: Heap, root: Ref, t: Tree, path: Path)
    requires Holds(h, root, t, path) && !path.Top? && path.sibling.Node?
    ensures var w := path.sibling;
            && 0 < path.ref < |h| && 0 < w.ref < |h|
            && h[path.ref].color == path.color && h[path.ref].parent == ParentRef(path.up)
            && (path.LeftOf? ==> h[path.ref].left == Root(t) && h[path.ref].right == w.ref)
            && (path.RightOf? ==> h[path.ref].right == Root(t) && h[path.ref].left == w.ref)
            && h[w.ref].color == w.color && h[w.ref].left == Root(w.left) && h[w.ref].right == Root(w.right)
            && Root(w.left) < |h| && h[Root(w.left)].color == ColorOf(w.left)
            && Root(w.right) < |h| && h[Root(w.right)].color == ColorOf(w.right)
            && Root(t) != w.ref
  {
    var w := path.sibling;
    FocusAcross(h, root, t, path);
    FocusLeft(h, root, w, Across(t, path));
    FocusRight(h, root, w, Across(t, path));
    ColorField(h, root, w.left, LeftOf(w.ref, w.color, w.key, w.right, Across(t, path)));
    ColorField(h, root, w.right, RightOf(w.ref, w.color, w.key, w.left, Across(t, path)));
    assert w.ref in PathRefs(path);
    assert t.Node? ==> t.ref in Refs(t);
  }

  lemma {:induction false} TopRefInPath(path: Path, child: Ref)
    requires !path.Top?
    ensures TopRef(path, child) in PathRefs(path)
  {
    if !path.up.Top? { TopRefInPath(path.up, path.ref); }
  }

  /** The focus is at the root exactly when the root field says so. */
  lemma AtRoot(h: Heap, root: Ref, t: Tree, path: Path)
    requires Holds(h, root, t, path)
    ensures root == Root(t) <==> path.Top?
  {
    if !path.Top? {
      TopRefInPath(path, Root(t));
      PathRefsInRange(h, path, Root(t));
      assert t.Node? ==> t.ref in Refs(t);
    }
  }

  /** The whole tree, seen from the root. */
  lemma {:induction false} FocusTop(h: Heap, root: Ref, t: Tree, path: Path)
    requires Holds(h, root, t, path)
    ensures Holds(h, root, Zip(t, path), Top)
    decreases path
  {
    if !path.Top? {
      FocusUp(h, root, t, path);
      FocusTop(h, root, Raised(t, path), path.up);
    }
  }
}
