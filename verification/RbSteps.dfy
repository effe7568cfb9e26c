/** Steps of insertion and deletion: what each pointer change or repaint makes of the tree in the arena. */
module RbSteps {
  import opened RbModel
  import opened RbHeap
  import opened RbRotate
  import opened RbPaint
  import opened RbFix
  import opened RbSplice
  import opened RbSearch

  /** All keys of a tree in order, seen from the focus. */
  function AllKeys(t: Tree, path: Path): seq<int> {
    KeysBefore(path) + Keys(t) + KeysAfter(path)
  }

  /** What lowers with every round of the deletion loop. */
  function Rounds(t: Tree, path: Path): nat {
    Length(path) + Blacks(ColorOf(t))
  }

  /** Painting changes no parent field. */
  lemma ParentStays(h: Heap, g: Heap, x: Ref, r: Ref)
    requires r < |h| && x < |h| && exists c :: g == PaintedHeap(h, r, c)
    ensures g[x].parent == h[x].parent
  { }

  lemma ParentField(h: Heap, root: Ref, t: Tree, path: Path)
    requires Holds(h, root, t, path)
    ensures Root(t) < |h| && (t.Node? ==> h[t.ref].parent == ParentRef(path))
  { }

  /** The fields around a node and its successor. */
  lemma SuccessorFields(h: Heap, root: Ref, t: Tree, path: Path, m: Tree, rel: Path)
    requires Successor(h, root, t, path, m, rel) && t.left.Node?
    ensures NilOk(h) && 0 < t.ref < |h| && 0 < m.ref < |h| && t.ref != m.ref
    ensures h[t.ref] == RBNode(t.key, t.color, t.left.ref, Root(t.right), ParentRef(path))
    ensures h[m.ref] == RBNode(m.key, m.color, NIL, Root(m.right),
                               ParentRef(Append(rel, RightOf(t.ref, t.color, t.key, t.left, path))))
    ensures 0 < t.left.ref < |h| && t.left.ref != m.ref && t.left.ref != t.ref && t.left.ref != Root(m.right)
    ensures Root(m.right) < |h|
            && (m.right.Node? ==>
                  0 < m.right.ref && h[m.right.ref].parent == m.ref && m.right.ref != m.ref && m.right.ref != t.ref)
    ensures !path.Top? ==>
              0 < path.ref < |h| && path.ref != m.ref && path.ref != t.ref && path.ref != t.left.ref
              && path.ref != Root(m.right)
    ensures path.LeftOf? ==> h[path.ref].left == t.ref
    ensures path.RightOf? ==> h[path.ref].left != t.ref
  {
    var base := RightOf(t.ref, t.color, t.key, t.left, path);
    SuccessorApart(h, root, t, path, m, rel);
    SideOfParent(h, root, t, path);
    FocusRight(h, root, m, Append(rel, base));
    ParentField(h, root, m.right, RightOf(m.ref, m.color, m.key, m.left, Append(rel, base)));
    RefsAppend(m, rel, base);
    assert m.right.Node? ==> m.right.ref in Refs(m);
    assert t.left.ref in Refs(t.left) && Refs(t.left) <= PathRefs(base);
    assert !path.Top? ==> path.ref in PathRefs(path) && path.ref in PathRefs(base);
    assert t.ref in PathRefs(base);
    FocusBase(h, root, m, rel, base);
    AppendApart(rel, base);
  }

  /** What is in the base of a path is in the path. */
  lemma {:induction false} AppendApart(rel: Path, base: Path)
    ensures PathRefs(base) <= PathRefs(Append(rel, base))
  {
    if !rel.Top? { AppendApart(rel.up, base); }
  }

  /** The arena after `y` has taken the place of another node. */
  function PlaceTaken(h: Heap, y: Ref, node: RBNode, l: Ref, path: Path): Heap
    requires y < |h| && l < |h| && (path.Top? || path.ref < |h|)
  {
    Transplanted(h, y, path)[y := node][l := h[l].(parent := y)]
  }

  lemma PlaceTakenSeated(h: Heap, root: Ref, y: Ref, c: Color, l: Tree, k: int, r: Tree, path: Path)
    requires NilOk(h) && 0 < y < |h|
    requires l.Node? && 0 < l.ref < |h| && l.ref != y && l.ref != Root(r)
    requires r.Node? ==> 0 < r.ref < |h| && h[r.ref].parent == y && r.ref != y
    requires !path.Top? ==> 0 < path.ref < |h| && path.ref != y && path.ref != l.ref && path.ref != Root(r)
    ensures var g := PlaceTaken(h, y, RBNode(k, c, l.ref, Root(r), ParentRef(path)), l.ref, path);
            Seated(h, g, root, if path.Top? then y else root, y, c, l, k, r, path) && g[NIL] == h[NIL]
  {
    var g := PlaceTaken(h, y, RBNode(k, c, l.ref, Root(r), ParentRef(path)), l.ref, path);
    assert r.Node? ==> g[r.ref] == h[r.ref] == h[r.ref].(parent := y);
  }

  lemma SeatChild(h: Heap, g: Heap, root: Ref, root': Ref, t: Tree, path: Path, m: Tree)
    requires Successor(h, root, t, path, m, Top) && t.left.Node?
    requires Root(m.right) < |h|
    requires Seated(h[Root(m.right) := h[Root(m.right)].(parent := m.ref)], g, root, root', m.ref, t.color, t.left,
                    m.key, m.right, path)
    ensures Holds(g, root', Node(m.ref, t.color, t.left, m.key, m.right), path)
  {
    SuccessorApart(h, root, t, path, m, Top);
    var base := RightOf(t.ref, t.color, t.key, t.left, path);
    assert Rep(h, t.left, t.ref) && RepPath(h, path, t.ref) && root == TopRef(path, t.ref);
    assert Rep(h, m.right, m.ref);
    assert Seated(h, g, root, root', m.ref, t.color, t.left, m.key, m.right, path);
    SeatedHolds(h, g, root, root', t.ref, m.ref, t.color, t.left, t.ref, m.key, m.right, m.ref, path);
  }

  /** The arena once the right side of the successor hangs in its place. */
  function Bypassed(h: Heap, t: Tree, path: Path, m: Tree, rel: Path): Heap
    requires t.Node? && m.Node? && Root(m.right) < |h|
    requires Append(rel, RightOf(t.ref, t.color, t.key, t.left, path)).Top?
             || Append(rel, RightOf(t.ref, t.color, t.key, t.left, path)).ref < |h|
  {
    Transplanted(h, Root(m.right), Append(rel, RightOf(t.ref, t.color, t.key, t.left, path)))
  }

  /** The tree `t` with right side `r` is in the arena at the end of `path`, and node `m` is apart from it. */
  ghost predicate Detached(g: Heap, root: Ref, t: Tree, path: Path, m: Tree, r: Tree) {
    && t.Node? && t.left.Node? && m.Node? && r.Node?
    && NilOk(g) && 0 < t.ref < |g| && 0 < m.ref < |g| && t.ref != m.ref
    && g[m.ref].key == m.key
    && Rep(g, t.left, t.ref) && Rep(g, r, t.ref) && RepPath(g, path, t.ref) && root == TopRef(path, t.ref)
    && 0 < r.ref < |g| && r.ref != m.ref && r.ref != t.ref && r.ref != t.left.ref
    && g[t.ref] == RBNode(t.key, t.color, t.left.ref, r.ref, ParentRef(path))
    && 0 < t.left.ref < |g| && t.left.ref != m.ref && t.left.ref != t.ref
    && (!path.Top? ==>
          0 < path.ref < |g| && path.ref != m.ref && path.ref != t.ref && path.ref != t.left.ref && path.ref != r.ref)
    && (path.LeftOf? ==> g[path.ref].left == t.ref) && (path.RightOf? ==> g[path.ref].left != t.ref)
    && Apart(m.ref, t.left, r, path)
  }

  /** Then the tree without the successor is in the arena, and the successor is untouched. */
  lemma WithoutSuccessor(h: Heap, root: Ref, t: Tree, path: Path, m: Tree, rel: Path)
    requires Successor(h, root, t, path, m, rel) && !rel.Top? && t.left.Node?
    ensures Root(m.right) < |h| && Append(rel, RightOf(t.ref, t.color, t.key, t.left, path)).ref < |h|
    ensures var g := Bypassed(h, t, path, m, rel); var r := Zip(m.right, rel);
            && |g| == |h| && Detached(g, root, t, path, m, r)
            && g[NIL].parent == if m.right.Leaf? then rel.ref else h[NIL].parent
  {
    var base := RightOf(t.ref, t.color, t.key, t.left, path);
    var way := Append(rel, base);
    SuccessorApart(h, root, t, path, m, rel);
    SuccessorFields(h, root, t, path, m, rel);
    TransplantChild(h, root, m, m.right, way);
    var g := Bypassed(h, t, path, m, rel);
    FocusBase(g, root, m.right, rel, base);
    var r := Zip(m.right, rel);
    ZipRoot(m.right, rel);
    FocusUp(g, root, r, base);
    SideOfParent(g, root, Raised(r, base), path);
    assert r.ref in Refs(r) && t.left.ref in Refs(t.left);
    RefsInRange(g, r, t.ref);
    PathRefsInRange(h, way, m.ref);
    assert way.ref in PathRefs(way) && m.ref in Refs(m) && m.ref !in Refs(m.right);
    assert m.right.Node? ==> m.right.ref in Refs(m.right);
  }

  lemma {:induction false} ZipRoot(t: Tree, path: Path)
    requires !path.Top?
    ensures Zip(t, path).Node?
    decreases path
  {
    if !path.up.Top? { ZipRoot(Raised(t, path), path.up); }
  }

  lemma SeatDeep(h1: Heap, h2: Heap, g: Heap, root: Ref, root': Ref, t: Tree, path: Path, m: Tree, r: Tree)
    requires Detached(h1, root, t, path, m, r) && |h1| == |h2|
    requires h2[r.ref] == h1[r.ref].(parent := m.ref)
    requires forall i :: 0 <= i < |h1| && i != m.ref && i != r.ref ==> h2[i] == h1[i]
    requires Seated(h2, g, root, root', m.ref, t.color, t.left, m.key, r, path)
    ensures Holds(g, root', Node(m.ref, t.color, t.left, m.key, r), path)
  {
    assert r.ref in Refs(r);
    ReparentRep(h1, h2, r, t.ref, m.ref);
    FrameRep(h1, h2, t.left, t.ref);
    FramePath(h1, h2, path, t.ref);
    SeatedHolds(h2, g, root, root', t.ref, m.ref, t.color, t.left, t.ref, m.key, r, m.ref, path);
  }

  /** A child field is NIL exactly for an empty subtree. */
  lemma LeafField(h: Heap, root: Ref, t: Tree, path: Path)
    requires Holds(h, root, t, path) && t.Node?
    ensures t.ref < |h| && h[t.ref].left == Root(t.left) && h[t.ref].right == Root(t.right)
    ensures h[t.ref].left == NIL <==> t.left.Leaf?
    ensures h[t.ref].right == NIL <==> t.right.Leaf?
  {
    assert Rep(h, t.left, t.ref) && Rep(h, t.right, t.ref);
  }

  lemma SideApart(h: Heap, root: Ref, t: Tree, s: Tree, path: Path)
    requires Holds(h, root, t, path) && t.Node? && (s == t.left || s == t.right)
    ensures !path.Top? ==> Root(s) != path.ref
  {
    assert s.Node? ==> s.ref in Refs(s) && Refs(s) <= Refs(t);
    assert !path.Top? ==> path.ref in PathRefs(path);
  }

  /** The successor hangs under `z` itself exactly when it is the right child. */
  lemma SuccessorParent(h: Heap, root: Ref, t: Tree, path: Path, m: Tree, rel: Path)
    requires Successor(h, root, t, path, m, rel)
    ensures 0 < m.ref < |h| && (h[m.ref].parent == t.ref <==> rel.Top?)
  {
    var base := RightOf(t.ref, t.color, t.key, t.left, path);
    ParentField(h, root, m, Append(rel, base));
    assert Rep(h, m, ParentRef(Append(rel, base)));
    if !rel.Top? {
      AppendApart(rel.up, base);
      assert t.ref in PathRefs(base) && rel.ref !in PathRefs(Append(rel.up, base));
    }
  }

  /** After the successor has moved, the focus is on what was its right side. */
  lemma Landed(g: Heap, root: Ref, t: Tree, path: Path, m: Tree, rel: Path)
    requires t.Node? && m.Node? && Holds(g, root, Node(m.ref, t.color, t.left, m.key, Zip(m.right, rel)), path)
    ensures Holds(g, root, m.right, Append(rel, RightOf(m.ref, t.color, m.key, t.left, path)))
  {
    FocusRight(g, root, Node(m.ref, t.color, t.left, m.key, Zip(m.right, rel)), path);
    FocusBase(g, root, m.right, rel, RightOf(m.ref, t.color, m.key, t.left, path));
  }

  /** Colours and heights when a node with an empty side is removed. */
  lemma OneChild(t: Tree, path: Path, s: Tree)
    requires t.Node? && RedBlack(t) && PathOk(path, BlackHeight(t))
             && (ColorOf(t).Red? ==> PathColor(path).Black? && !path.Top?)
    requires (t.left.Leaf? && s == t.right) || (t.right.Leaf? && s == t.left)
    ensures t.color.Black? ==> Short(s, path)
    ensures t.color.Red? ==> RedBlack(Zip(s, path)) && ColorOf(Zip(s, path)).Black?
  {
    if t.color.Red? { ZipRedBlack(s, path); }
  }

  lemma OneChildKeys(t: Tree, path: Path, s: Tree)
    requires t.Node? && ((t.left.Leaf? && s == t.right) || (t.right.Leaf? && s == t.left))
    ensures AllKeys(s, path) == KeysBefore(path) + Keys(t.left) + Keys(t.right) + KeysAfter(path)
  {
    JoinEmpty(KeysBefore(path), Keys(s), KeysAfter(path));
  }

  lemma JoinEmpty(a: seq<int>, b: seq<int>, c: seq<int>)
    ensures a + b + c == a + [] + b + c == a + b + [] + c
  { }

  /** Colours and heights when the successor is taken out and reseated. */
  lemma TwoChildren(t: Tree, path: Path, m: Tree, rel: Path)
    requires t.Node? && m.Node? && m.left.Leaf? && t.right == Zip(m, rel)
    requires RedBlack(Zip(t, path)) && ColorOf(Zip(t, path)).Black?
    ensures var way := Append(rel, RightOf(m.ref, t.color, m.key, t.left, path));
            && (m.color.Black? ==> Short(m.right, way))
            && (m.color.Red? ==> RedBlack(Zip(m.right, way)) && ColorOf(Zip(m.right, way)).Black?)
  {
    var base := RightOf(t.ref, t.color, t.key, t.left, path);
    ZipAppend(m, rel, base);
    UnzipRedBlack(m, Append(rel, base));
    PathOkReseated(rel, t.ref, t.key, m.ref, m.key, t.color, t.left, path, BlackHeight(m));
    var way := Append(rel, RightOf(m.ref, t.color, m.key, t.left, path));
    if m.color.Red? { ZipRedBlack(m.right, way); }
  }

  lemma TwoChildrenKeys(t: Tree, path: Path, m: Tree, rel: Path)
    requires t.Node? && m.Node? && m.left.Leaf? && OnlyLeft(rel) && t.right == Zip(m, rel)
    ensures AllKeys(m.right, Append(rel, RightOf(m.ref, t.color, m.key, t.left, path)))
         == KeysBefore(path) + Keys(t.left) + Keys(t.right) + KeysAfter(path)
  {
    AppendKeys(rel, RightOf(m.ref, t.color, m.key, t.left, path));
    SuccessorKeys(t, m, rel);
    Join6(KeysBefore(path), Keys(t.left), [m.key], Keys(m.right), KeysAfter(rel), KeysAfter(path));
  }

  /** Going only left ends at the smallest key. */
  lemma FirstKey(m: Tree, rel: Path)
    requires m.Node? && m.left.Leaf? && OnlyLeft(rel)
    ensures Keys(Zip(m, rel)) != [] && Keys(Zip(m, rel))[0] == m.key
  {
    AppendKeys(rel, Top);
    AppendTop(rel);
    ZipKeys(m, rel);
    assert Keys(m)[0] == m.key && KeysBefore(rel) == [];
  }

  /** The successor's key is the first on the right. */
  lemma SuccessorKeys(t: Tree, m: Tree, rel: Path)
    requires t.Node? && m.Node? && m.left.Leaf? && OnlyLeft(rel) && t.right == Zip(m, rel)
    ensures Keys(t.right) == [m.key] + Keys(m.right) + KeysAfter(rel)
  {
    AppendKeys(rel, Top);
    AppendTop(rel);
    ZipKeys(m, rel);
    assert Keys(m) == [] + [m.key] + Keys(m.right);
    assert KeysBefore(rel) == [];
  }

  lemma {:induction false} AppendTop(rel: Path)
    ensures Append(rel, Top) == rel
  {
    if !rel.Top? { AppendTop(rel.up); }
  }

  lemma Join6(a: seq<int>, b: seq<int>, c: seq<int>, d: seq<int>, e: seq<int>, f: seq<int>)
    ensures (a + b + c) + d + (e + f) == a + b + (c + d + e) + f
  { }

  /** Once the black height is right, the whole tree is the focus. */
  lemma AllRestored(h: Heap, root: Ref, t: Tree, path: Path) returns (t': Tree, path': Path)
    requires Holds(h, root, t, path) && t.Node?
    requires RedBlack(t) && PathOk(path, BlackHeight(t)) && (PathColor(path).Red? ==> ColorOf(t).Black?)
    requires path.Top? ==> ColorOf(t).Black?
    ensures path' == Top && t' == Zip(t, path) && Holds(h, root, t', path') && Short(t', path')
    ensures root == Root(t') && t'.Node? && root < |h| && h[root].parent == NIL
    ensures AllKeys(t', path') == AllKeys(t, path)
  {
    t', path' := Zip(t, path), Top;
    FocusTop(h, root, t, path);
    ZipRedBlack(t, path);
    ZipKeys(t, path);
    ZipNode(t, path);
    assert Painted(t', Black) == t';
  }

  /** When the loop ends, painting the focus black finishes the tree. */
  lemma BlackFocus(h: Heap, g: Heap, root: Ref, t: Tree, path: Path) returns (t': Tree)
    requires Holds(h, root, t, path) && Short(t, path) && (path.Top? || ColorOf(t).Red?)
    requires Root(t) < |h| && g == PaintedHeap(h, Root(t), Black)
    ensures Holds(g, root, t', Top) && RedBlack(t') && ColorOf(t').Black?
    ensures Keys(t') == AllKeys(t, path)
  {
    var u := Painted(t, Black);
    if t.Node? { PaintFocus(h, root, t, path, Black); } else { assert g == h; }
    t' := Zip(u, path);
    FocusTop(g, root, u, path);
    ZipRedBlack(u, path);
    ZipKeys(u, path);
    PaintKeys(t, Black);
  }

  /** When the insertion loop ends, painting the root black finishes the tree. */
  lemma BlackRoot(h: Heap, g: Heap, root: Ref, t: Tree, path: Path) returns (t': Tree)
    requires Holds(h, root, t, path) && Clash(t, path) && PathColor(path).Black?
    requires root < |h| && g == PaintedHeap(h, root, Black)
    ensures Holds(g, root, t', Top) && RedBlack(t') && ColorOf(t').Black?
    ensures Keys(t') == AllKeys(t, path)
  {
    var u := Zip(t, path);
    FocusTop(h, root, t, path);
    ZipNode(t, path);
    ZipRedBlack(t, path);
    ZipKeys(t, path);
    t' := Painted(u, Black);
    PaintFocus(h, root, u, Top, Black);
    PaintKeys(u, Black);
  }

  /** Which child of `y` the empty place is, by the keys. */
  lemma SideByKey(h: Heap, root: Ref, path: Path, whole: Tree, k: int)
    requires Looking(h, root, Leaf, path, whole, k)
    ensures ParentRef(path) == NIL <==> path.Top?
    ensures !path.Top? ==> path.ref < |h| && h[path.ref].key == path.key && (path.LeftOf? <==> k < path.key)
  {
    if path.LeftOf? { assert KeysAfter(path)[0] == path.key; }
    if path.RightOf? { assert KeysBefore(path)[|KeysBefore(path)| - 1] == path.key; }
  }

  /** All indices of a tree are in the focus or on the way to it. */
  lemma {:induction false} RefsOnWay(t: Tree, path: Path)
    ensures Refs(t) + PathRefs(path) == Refs(Zip(t, path))
    decreases path
  {
    if !path.Top? { RefsOnWay(Raised(t, path), path.up); }
  }

  /** A red leaf fits an empty place of a red-black tree. */
  lemma ZipsLeaf(path: Path, whole: Tree)
    requires Zip(Leaf, path) == whole && RedBlack(whole) && ColorOf(whole).Black?
    ensures forall z, k :: Clash(Node(z, Red, Leaf, k, Leaf), path)
  {
    UnzipRedBlack(Leaf, path);
  }

  lemma {:induction false} RootInRange(h: Heap, root: Ref, t: Tree, path: Path)
    requires Holds(h, root, t, path)
    ensures root < |h|
    decreases path
  {
    if !path.Top? {
      FocusUp(h, root, t, path);
      RootInRange(h, root, Raised(t, path), path.up);
    }
  }

  /** The fields above a red node: its parent's colour, and the grandparent and uncle of a clash. */
  lemma ClashFields(h: Heap, root: Ref, t: Tree, path: Path)
    requires Holds(h, root, t, path) && Clash(t, path)
    ensures 0 < t.ref < |h| && h[t.ref].parent == ParentRef(path) < |h| && h[ParentRef(path)].color == PathColor(path)
    ensures PathColor(path).Red? ==>
              && !path.Top? && !path.up.Top? && path.up.color.Black? && 0 < path.up.ref < |h|
              && h[path.ref].parent == path.up.ref
              && (path.up.LeftOf? ==> h[path.up.ref].left == path.ref && h[path.up.ref].right == Root(path.up.sibling))
              && (path.up.RightOf? ==>
                    h[path.up.ref].left == Root(path.up.sibling) && h[path.up.ref].right == path.ref
                    && h[path.up.ref].left != path.ref)
              && (path.LeftOf? ==> h[path.ref].left == t.ref && h[path.ref].right != t.ref)
              && (path.RightOf? ==> h[path.ref].right == t.ref && h[path.ref].left != t.ref)
              && Root(path.up.sibling) < |h| && h[Root(path.up.sibling)].color == ColorOf(path.up.sibling)
  {
    if PathColor(path).Red? {
      GrandparentExists(t, path);
      FocusAcross(h, root, t, path);
      FocusUp(h, root, t, path);
      FocusAcross(h, root, Raised(t, path), path.up);
      ColorField(h, root, path.up.sibling, Across(Raised(t, path), path.up));
      assert path.sibling.Node? ==> path.sibling.ref in Refs(path.sibling);
      assert t.ref in Refs(t);
      assert path.up.sibling.Node? ==>
               path.up.sibling.ref in Refs(path.up.sibling) && path.up.sibling.ref in PathRefs(path.up);
    }
  }

  lemma {:induction false} ZipNode(t: Tree, path: Path)
    requires t.Node?
    ensures Zip(t, path).Node?
    decreases path
  {
    if !path.Top? { ZipNode(Raised(t, path), path.up); }
  }
}
