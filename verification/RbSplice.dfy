/** Taking a node out of the tree: relative paths, and seating one node in another's place. */
module RbSplice {
  import opened RbModel
  import opened RbHeap

  /** The way from a subtree up to the base, then along the base's own path. */
  function Append(rel: Path, base: Path): Path {
    match rel
    case Top => base
    case LeftOf(r, c, k, s, up) => LeftOf(r, c, k, s, Append(up, base))
    case RightOf(r, c, k, s, up) => RightOf(r, c, k, s, Append(up, base))
  }

  /** A way that only went left, as the search for the minimum does. */
  predicate OnlyLeft(rel: Path) {
    rel.Top? || (rel.LeftOf? && OnlyLeft(rel.up))
  }

  lemma {:induction false} FocusBase(h: Heap, root: Ref, t: Tree, rel: Path, base: Path)
    ensures Holds(h, root, t, Append(rel, base)) <==> Holds(h, root, Zip(t, rel), base)
    decreases rel
  {
    match rel
    case Top =>
    case LeftOf(r, c, k, s, up) =>
      FocusBase(h, root, Node(r, c, t, k, s), up, base);
      if Holds(h, root, t, Append(rel, base)) { FocusUp(h, root, t, Append(rel, base)); }
      if Holds(h, root, Node(r, c, t, k, s), Append(up, base)) {
        FocusLeft(h, root, Node(r, c, t, k, s), Append(up, base));
      }
    case RightOf(r, c, k, s, up) =>
      FocusBase(h, root, Node(r, c, s, k, t), up, base);
      if Holds(h, root, t, Append(rel, base)) { FocusUp(h, root, t, Append(rel, base)); }
      if Holds(h, root, Node(r, c, s, k, t), Append(up, base)) {
        FocusRight(h, root, Node(r, c, s, k, t), Append(up, base));
      }
  }

  lemma {:induction false} ZipAppend(t: Tree, rel: Path, base: Path)
    ensures Zip(t, Append(rel, base)) == Zip(Zip(t, rel), base)
    decreases rel
  {
    match rel
    case Top =>
    case LeftOf(r, c, k, s, up) => ZipAppend(Node(r, c, t, k, s), up, base);
    case RightOf(r, c, k, s, up) => ZipAppend(Node(r, c, s, k, t), up, base);
  }

  lemma {:induction false} AppendKeys(rel: Path, base: Path)
    requires OnlyLeft(rel)
    ensures KeysBefore(Append(rel, base)) == KeysBefore(base)
    ensures KeysAfter(Append(rel, base)) == KeysAfter(rel) + KeysAfter(base)
  {
    if rel.LeftOf? {
      AppendKeys(rel.up, base);
      assert [rel.key] + Keys(rel.sibling) + (KeysAfter(rel.up) + KeysAfter(base)) ==
               [rel.key] + Keys(rel.sibling) + KeysAfter(rel.up) + KeysAfter(base);
    }
  }

  /** The red-black conditions on a path do not depend on which node sits in a frame. */
  lemma {:induction false} PathOkReseated(rel: Path, z: Ref, kz: int, y: Ref, ky: int, c: Color, s: Tree, up: Path,
                                          h: nat)
    requires PathOk(Append(rel, RightOf(z, c, kz, s, up)), h)
    ensures PathOk(Append(rel, RightOf(y, c, ky, s, up)), h)
    ensures PathColor(Append(rel, RightOf(y, c, ky, s, up))) == PathColor(Append(rel, RightOf(z, c, kz, s, up)))
    ensures !Append(rel, RightOf(y, c, ky, s, up)).Top?
  {
    if !rel.Top? { PathOkReseated(rel.up, z, kz, y, ky, c, s, up, h + Blacks(rel.color)); }
  }

  /** The fields after node `y` has taken the place, colour and children of another node. */
  ghost predicate Seated(h: Heap, g: Heap, root: Ref, root': Ref, y: Ref, c: Color, l: Tree, k: int, r: Tree,
                         path: Path) {
    && |g| == |h| && 0 < y < |h|
    && g[y] == RBNode(k, c, Root(l), Root(r), ParentRef(path))
    && (l.Node? ==> l.ref < |h| && g[l.ref] == h[l.ref].(parent := y))
    && (r.Node? ==> r.ref < |h| && g[r.ref] == h[r.ref].(parent := y))
    && (path.LeftOf? ==> path.ref < |h| && g[path.ref] == h[path.ref].(left := y))
    && (path.RightOf? ==> path.ref < |h| && g[path.ref] == h[path.ref].(right := y))
    && (path.Top? ==> root' == y) && (!path.Top? ==> root' == root)
    && (forall i :: 0 < i < |h| && i != y && i != Root(l) && i != Root(r) && i != ParentRef(path) ==> g[i] == h[i])
    && NilOk(g)
  }

  /** Two subtrees and a path apart from each other and from node `y`. */
  ghost predicate Apart(y: Ref, l: Tree, r: Tree, path: Path) {
    && Unshared(l) && Unshared(r) && UnsharedPath(path)
    && Refs(l) !! Refs(r) && Refs(l) !! PathRefs(path) && Refs(r) !! PathRefs(path)
    && y !in Refs(l) && y !in Refs(r) && y !in PathRefs(path)
  }

  lemma SeatedPath(h: Heap, g: Heap, root: Ref, root': Ref, z: Ref, y: Ref, c: Color, l: Tree, k: int, r: Tree,
                   path: Path)
    requires Seated(h, g, root, root', y, c, l, k, r, path) && Apart(y, l, r, path)
    requires RepPath(h, path, z)
    ensures RepPath(g, path, y)
  {
    PathRefsInRange(h, path, z);
    assert l.Node? ==> l.ref in Refs(l);
    assert r.Node? ==> r.ref in Refs(r);
    RechildPath(h, g, path, z, y);
  }

  lemma SeatedHolds(h: Heap, g: Heap, root: Ref, root': Ref, z: Ref, y: Ref, c: Color, l: Tree, lp: Ref, k: int,
                    r: Tree, rp: Ref, path: Path)
    requires Seated(h, g, root, root', y, c, l, k, r, path) && Apart(y, l, r, path)
    requires Rep(h, l, lp) && Rep(h, r, rp) && RepPath(h, path, z) && root == TopRef(path, z)
    ensures Holds(g, root', Node(y, c, l, k, r), path)
  {
    SeatedRep(h, g, y, l, lp, r, path);
    SeatedRep(h, g, y, r, rp, l, path);
    SeatedPath(h, g, root, root', z, y, c, l, k, r, path);
    TopRefOf(path, z, y);
    Assembled(g, root', y, c, l, k, r, path);
  }

  lemma Assembled(g: Heap, root: Ref, y: Ref, c: Color, l: Tree, k: int, r: Tree, path: Path)
    requires NilOk(g) && 0 < y < |g| && g[y] == RBNode(k, c, Root(l), Root(r), ParentRef(path))
    requires Rep(g, l, y) && Rep(g, r, y) && RepPath(g, path, y) && root == TopRef(path, y) && Apart(y, l, r, path)
    ensures Holds(g, root, Node(y, c, l, k, r), path)
  {
    assert Refs(Node(y, c, l, k, r)) == {y} + Refs(l) + Refs(r);
  }

  lemma SeatedRep(h: Heap, g: Heap, y: Ref, l: Tree, lp: Ref, r: Tree, path: Path)
    requires |g| == |h| && Rep(h, l, lp) && Unshared(l) && Refs(l) !! Refs(r) && Refs(l) !! PathRefs(path)
             && y !in Refs(l)
    requires l.Node? ==> l.ref < |h| && g[l.ref] == h[l.ref].(parent := y)
    requires forall i :: 0 < i < |h| && i != y && i != Root(l) && i != Root(r) && i != ParentRef(path) ==> g[i] == h[i]
    ensures Rep(g, l, y)
  {
    RefsInRange(h, l, lp);
    assert r.Node? ==> r.ref in Refs(r);
    assert !path.Top? ==> path.ref in PathRefs(path);
    ReparentRep(h, g, l, lp, y);
  }

  /** Taking out a node with at most one child: the child hangs where the node was. */
  lemma TransplantedHolds(h: Heap, g: Heap, root: Ref, root': Ref, t: Tree, s: Tree, path: Path)
    requires Holds(h, root, t, path) && t.Node? && Rep(h, s, t.ref) && Unshared(s) && Refs(s) <= Refs(t)
    requires |g| == |h| && NilOk(g)
    requires s.Node? ==> s.ref < |h| && g[s.ref] == h[s.ref].(parent := ParentRef(path))
    requires path.LeftOf? ==> path.ref < |h| && g[path.ref] == h[path.ref].(left := Root(s))
    requires path.RightOf? ==> path.ref < |h| && g[path.ref] == h[path.ref].(right := Root(s))
    requires root' == if path.Top? then Root(s) else root
    requires forall i :: 0 < i < |h| && i != Root(s) && i != ParentRef(path) ==> g[i] == h[i]
    ensures Holds(g, root', s, path)
  {
    RefsInRange(h, s, t.ref);
    PathRefsInRange(h, path, t.ref);
    assert !path.Top? ==> path.ref in PathRefs(path);
    assert s.Node? ==> s.ref in Refs(s);
    ReparentRep(h, g, s, t.ref, ParentRef(path));
    RechildPath(h, g, path, t.ref, Root(s));
    TopRefOf(path, t.ref, Root(s));
  }

  lemma {:induction false} RefsAppend(t: Tree, rel: Path, base: Path)
    ensures Refs(Zip(t, rel)) + PathRefs(base) == Refs(t) + PathRefs(Append(rel, base))
    decreases rel
  {
    match rel
    case Top =>
    case LeftOf(r, c, k, s, up) => RefsAppend(Node(r, c, t, k, s), up, base);
    case RightOf(r, c, k, s, up) => RefsAppend(Node(r, c, s, k, t), up, base);
  }

  /** The fields `transplant` writes. */
  function Transplanted(h: Heap, v: Ref, path: Path): Heap
    requires v < |h| && (path.Top? || path.ref < |h|)
  {
    var g := match path
             case Top => h
             case LeftOf(r, _, _, _, _) => h[r := h[r].(left := v)]
             case RightOf(r, _, _, _, _) => h[r := h[r].(right := v)];
    g[v := g[v].(parent := ParentRef(path))]
  }

  /** `transplant` of a child over its only parent. */
  lemma TransplantChild(h: Heap, root: Ref, t: Tree, s: Tree, path: Path)
    requires Holds(h, root, t, path) && t.Node? && (s == t.left || s == t.right)
    ensures Root(s) < |h| && (path.Top? || path.ref < |h|)
    ensures Holds(Transplanted(h, Root(s), path), if path.Top? then Root(s) else root, s, path)
  {
    assert Rep(h, s, t.ref) && Unshared(s) && Refs(s) <= Refs(t);
    RefsInRange(h, s, t.ref);
    PathRefsInRange(h, path, t.ref);
    assert s.Node? ==> s.ref in Refs(s);
    assert !path.Top? ==> path.ref in PathRefs(path);
    TransplantedHolds(h, Transplanted(h, Root(s), path), root, if path.Top? then Root(s) else root, t, s, path);
  }

  /** A node `y` with no left child, below the right child of `z` or that child itself. */
  ghost predicate Successor(h: Heap, root: Ref, z: Tree, path: Path, m: Tree, rel: Path) {
    && z.Node? && m.Node? && m.left.Leaf? && OnlyLeft(rel) && z.right == Zip(m, rel)
    && Holds(h, root, m, Append(rel, RightOf(z.ref, z.color, z.key, z.left, path)))
  }

  /** Around the successor: all parts are apart. */
  lemma SuccessorApart(h: Heap, root: Ref, z: Tree, path: Path, m: Tree, rel: Path)
    requires Successor(h, root, z, path, m, rel)
    ensures Apart(m.ref, z.left, Zip(m.right, rel), path) && m.ref != z.ref && 0 < m.ref < |h| && 0 < z.ref < |h|
    ensures z.ref !in Refs(Zip(m.right, rel)) && z.ref !in Refs(z.left) && z.ref !in PathRefs(path)
    ensures Holds(h, root, z, path)
  {
    var base := RightOf(z.ref, z.color, z.key, z.left, path);
    FocusBase(h, root, m, rel, base);
    FocusUp(h, root, z.right, base);
    TransplantChild(h, root, m, m.right, Append(rel, base));
    var g := Transplanted(h, Root(m.right), Append(rel, base));
    FocusBase(g, root, m.right, rel, base);
    FocusUp(g, root, Zip(m.right, rel), base);
    RefsAppend(m.right, rel, base);
    assert m.ref in Refs(m) && m.ref !in PathRefs(Append(rel, base)) && m.ref !in Refs(m.right);
  }
}
