/** The cases of the two fixup loops, as changes of a tree and its path, and what they keep. */
module RbFix {
  import opened RbModel
  import opened Rows

  function WithSibling(path: Path, s: Tree): Path
    requires !path.Top?
  {
    if path.LeftOf? then LeftOf(path.ref, path.color, path.key, s, path.up)
    else RightOf(path.ref, path.color, path.key, s, path.up)
  }

  function WithColor(path: Path, c: Color): Path
    requires !path.Top?
  {
    if path.LeftOf? then LeftOf(path.ref, c, path.key, path.sibling, path.up)
    else RightOf(path.ref, c, path.key, path.sibling, path.up)
  }

  lemma PaintKeys(t: Tree, c: Color)
    ensures Keys(Painted(t, c)) == Keys(t)
  { }

  // ---------------------------------------------------------------- deletion

  /** The subtree is one black short of what its path expects; only its root may clash in colour. */
  predicate Short(t: Tree, path: Path) {
    RedBlack(Painted(t, Black)) && PathOk(path, BlackHeight(t) + 1)
  }

  /** The sibling of a short subtree is a node. */
  lemma SiblingIsNode(t: Tree, path: Path)
    requires Short(t, path) && !path.Top?
    ensures path.sibling.Node?
  { }

  /** Case 1, the sibling is red: rotate it above the parent. */
  function RedSibling(path: Path): Path
    requires !path.Top? && path.sibling.Node?
  {
    var w := path.sibling;
    if path.LeftOf?
    then LeftOf(path.ref, Red, path.key, w.left, LeftOf(w.ref, Black, w.key, w.right, path.up))
    else RightOf(path.ref, Red, path.key, w.right, RightOf(w.ref, Black, w.key, w.left, path.up))
  }

  lemma RedSiblingKeeps(t: Tree, path: Path)
    requires Short(t, path) && !path.Top? && path.sibling.Node? && path.sibling.color.Red?
    ensures Short(t, RedSibling(path)) && ColorOf(RedSibling(path).sibling).Black? && RedSibling(path).sibling.Node?
    ensures Length(RedSibling(path)) == Length(path) + 1
  {
    var w := path.sibling;
    assert RedBlack(w) && BlackHeight(w) == BlackHeight(t) + 1 && path.color.Black?;
    assert BlackHeight(w.left) == BlackHeight(w) == BlackHeight(w.right);
    var up := RedSibling(path).up;
    assert PathOk(up, BlackHeight(t) + 1);
  }

  lemma RedSiblingKeys(path: Path)
    requires !path.Top? && path.sibling.Node?
    ensures KeysBefore(RedSibling(path)) == KeysBefore(path) && KeysAfter(RedSibling(path)) == KeysAfter(path)
  {
    var w := path.sibling;
    var up := RedSibling(path).up;
    if path.LeftOf? {
      assert KeysAfter(up) == [w.key] + Keys(w.right) + KeysAfter(path.up);
      assert KeysAfter(RedSibling(path)) == [path.key] + Keys(w.left) + KeysAfter(up);
      Rebracket([path.key], Keys(w.left), [w.key], Keys(w.right), KeysAfter(path.up));
    } else {
      assert KeysBefore(up) == KeysBefore(path.up) + Keys(w.left) + [w.key];
      assert KeysBefore(RedSibling(path)) == KeysBefore(up) + Keys(w.right) + [path.key];
      Rebracket(KeysBefore(path.up), Keys(w.left), [w.key], Keys(w.right), [path.key]);
    }
  }

  /** Case 2, the sibling's children are black: paint it red and go up. */
  function PassUp(t: Tree, path: Path): Tree
    requires !path.Top?
  {
    var s := Painted(path.sibling, Red);
    if path.LeftOf? then Node(path.ref, path.color, t, path.key, s) else Node(path.ref, path.color, s, path.key, t)
  }

  lemma PassUpKeeps(t: Tree, path: Path)
    requires Short(t, path) && !path.Top? && ColorOf(t).Black?
    requires path.sibling.Node? && path.sibling.color.Black?
    requires ColorOf(path.sibling.left).Black? && ColorOf(path.sibling.right).Black?
    ensures Short(PassUp(t, path), path.up)
  { }

  /** Case 3, the far nephew is black and the near one red: rotate the near one up. */
  function NearNephew(path: Path): Path
    requires !path.Top? && path.sibling.Node?
    requires if path.LeftOf? then path.sibling.left.Node? else path.sibling.right.Node?
  {
    var w := path.sibling;
    if path.LeftOf?
    then WithSibling(path, Node(w.left.ref, Black, w.left.left, w.left.key,
                                Node(w.ref, Red, w.left.right, w.key, w.right)))
    else WithSibling(path, Node(w.right.ref, Black, Node(w.ref, Red, w.left, w.key, w.right.left), w.right.key,
                                w.right.right))
  }

  predicate NearRed(path: Path) {
    && !path.Top? && path.sibling.Node? && path.sibling.color.Black?
    && (path.LeftOf? ==> ColorOf(path.sibling.left).Red? && ColorOf(path.sibling.right).Black?)
    && (path.RightOf? ==> ColorOf(path.sibling.right).Red? && ColorOf(path.sibling.left).Black?)
  }

  predicate FarRed(path: Path) {
    && !path.Top? && path.sibling.Node? && path.sibling.color.Black?
    && (path.LeftOf? ==> ColorOf(path.sibling.right).Red?)
    && (path.RightOf? ==> ColorOf(path.sibling.left).Red?)
  }

  lemma NearNephewKeeps(t: Tree, path: Path)
    requires Short(t, path) && NearRed(path)
    ensures Short(t, NearNephew(path)) && FarRed(NearNephew(path))
  {
    var w := path.sibling;
    var n := if path.LeftOf? then w.left else w.right;
    assert RedBlack(w) && RedBlack(n) && RedBlack(n.left) && RedBlack(n.right);
    assert BlackHeight(n.left) == BlackHeight(n.right) == BlackHeight(n) == BlackHeight(w.left) == BlackHeight(w.right);
    var s := NearNephew(path).sibling;
    var low := if path.LeftOf? then s.right else s.left;
    assert RedBlack(low) && BlackHeight(low) == BlackHeight(n);
    assert RedBlack(s) && BlackHeight(s) == BlackHeight(w);
  }

  lemma NearNephewKeys(path: Path)
    requires NearRed(path)
    ensures Keys(NearNephew(path).sibling) == Keys(path.sibling)
    ensures KeysBefore(NearNephew(path)) == KeysBefore(path) && KeysAfter(NearNephew(path)) == KeysAfter(path)
  {
    var w := path.sibling;
    if path.LeftOf? {
      Rebracket(Keys(w.left.left), [w.left.key], Keys(w.left.right), [w.key], Keys(w.right));
    } else {
      Rebracket(Keys(w.left), [w.key], Keys(w.right.left), [w.right.key], Keys(w.right.right));
    }
  }

  /** Case 4, the far nephew is red: one rotation makes up for the missing black. */
  function FarNephew(t: Tree, path: Path): Tree
    requires !path.Top? && path.sibling.Node?
  {
    var w := path.sibling;
    if path.LeftOf?
    then Node(w.ref, path.color, Node(path.ref, Black, t, path.key, w.left), w.key, Painted(w.right, Black))
    else Node(w.ref, path.color, Painted(w.left, Black), w.key, Node(path.ref, Black, w.right, path.key, t))
  }

  lemma FarNephewKeeps(t: Tree, path: Path)
    requires Short(t, path) && ColorOf(t).Black? && FarRed(path)
    ensures RedBlack(FarNephew(t, path)) && PathOk(path.up, BlackHeight(FarNephew(t, path)))
    ensures PathColor(path.up).Red? ==> ColorOf(FarNephew(t, path)).Black?
    ensures path.up.Top? ==> ColorOf(FarNephew(t, path)).Black?
  {
    var w := path.sibling;
    assert RedBlack(w) && BlackHeight(w.left) == BlackHeight(w.right) == BlackHeight(t);
    var far := if path.LeftOf? then w.right else w.left;
    assert RedBlack(far) && RedBlack(Painted(far, Black)) && BlackHeight(Painted(far, Black)) == BlackHeight(t) + 1;
    var low := if path.LeftOf? then FarNephew(t, path).left else FarNephew(t, path).right;
    assert Painted(t, Black) == t;
    assert RedBlack(low) && BlackHeight(low) == BlackHeight(t) + 1;
  }

  lemma PassUpKeys(t: Tree, path: Path)
    requires !path.Top?
    ensures KeysBefore(path.up) + Keys(PassUp(t, path)) + KeysAfter(path.up) ==
              KeysBefore(path) + Keys(t) + KeysAfter(path)
  {
    PaintKeys(path.sibling, Red);
    if path.LeftOf? {
      Rebracket(KeysBefore(path.up), Keys(t), [path.key], Keys(path.sibling), KeysAfter(path.up));
    } else {
      Rebracket(KeysBefore(path.up), Keys(path.sibling), [path.key], Keys(t), KeysAfter(path.up));
    }
  }

  lemma FarNephewInner(t: Tree, path: Path)
    requires !path.Top? && path.sibling.Node?
    ensures Keys(FarNephew(t, path)) == Keys(PassUp(t, path))
  {
    var w := path.sibling;
    PaintKeys(w, Red);
    if path.LeftOf? {
      PaintKeys(w.right, Black);
      Rebracket(Keys(t), [path.key], Keys(w.left), [w.key], Keys(w.right));
    } else {
      PaintKeys(w.left, Black);
      Rebracket(Keys(w.left), [w.key], Keys(w.right), [path.key], Keys(t));
    }
  }

  lemma FarNephewKeys(t: Tree, path: Path)
    requires !path.Top? && path.sibling.Node?
    ensures KeysBefore(path.up) + Keys(FarNephew(t, path)) + KeysAfter(path.up) ==
              KeysBefore(path) + Keys(t) + KeysAfter(path)
  {
    PassUpKeys(t, path);
    FarNephewInner(t, path);
  }

  // ---------------------------------------------------------------- insertion

  /** A red subtree that fits its path but may hang under a red parent. */
  predicate Clash(t: Tree, path: Path) {
    t.Node? && t.color.Red? && RedBlack(t) && PathOk(path, BlackHeight(t))
  }

  /** A red parent is not the root: there is a black grandparent. */
  lemma GrandparentExists(t: Tree, path: Path)
    requires Clash(t, path) && PathColor(path).Red?
    ensures !path.Top? && !path.up.Top? && path.up.color.Black?
  { }

  function Under(t: Tree, path: Path, c: Color): Tree
    requires !path.Top?
  {
    if path.LeftOf? then Node(path.ref, c, t, path.key, path.sibling) else Node(path.ref, c, path.sibling, path.key, t)
  }

  lemma UnderKeys(t: Tree, path: Path, c: Color)
    requires !path.Top?
    ensures KeysBefore(path.up) + Keys(Under(t, path, c)) + KeysAfter(path.up) ==
              KeysBefore(path) + Keys(t) + KeysAfter(path)
  {
    if path.LeftOf? {
      Rebracket(KeysBefore(path.up), Keys(t), [path.key], Keys(path.sibling), KeysAfter(path.up));
    } else {
      Rebracket(KeysBefore(path.up), Keys(path.sibling), [path.key], Keys(t), KeysAfter(path.up));
    }
  }

  /** Case 1, the uncle is red: move the red up two levels. */
  function RedUncle(t: Tree, path: Path): Tree
    requires !path.Top? && !path.up.Top?
  {
    Under(Under(t, path, Black), WithSibling(path.up, Painted(path.up.sibling, Black)), Red)
  }

  lemma RedUncleKeeps(t: Tree, path: Path)
    requires Clash(t, path) && PathColor(path).Red? && !path.up.Top? && ColorOf(path.up.sibling).Red?
    ensures Clash(RedUncle(t, path), path.up.up)
  {
    var p := Under(t, path, Black);
    var u := path.up.sibling;
    assert PathOk(path.up, BlackHeight(t));
    assert RedBlack(p) && BlackHeight(p) == BlackHeight(t) + 1;
    assert RedBlack(u) && BlackHeight(u) == BlackHeight(t);
    assert RedBlack(Painted(u, Black)) && BlackHeight(Painted(u, Black)) == BlackHeight(t) + 1;
  }

  lemma RedUncleKeys(t: Tree, path: Path)
    requires !path.Top? && !path.up.Top?
    ensures KeysBefore(path.up.up) + Keys(RedUncle(t, path)) + KeysAfter(path.up.up) ==
              KeysBefore(path) + Keys(t) + KeysAfter(path)
  {
    var up := WithSibling(path.up, Painted(path.up.sibling, Black));
    PaintKeys(path.up.sibling, Black);
    UnderKeys(t, path, Black);
    UnderKeys(Under(t, path, Black), up, Red);
    assert KeysBefore(up) == KeysBefore(path.up) && KeysAfter(up) == KeysAfter(path.up);
  }

  /** An inner grandchild: a left child's right child, or the mirror image. */
  predicate Inner(path: Path) {
    (path.RightOf? && path.up.LeftOf?) || (path.LeftOf? && path.up.RightOf?)
  }

  /** Case 2, an inner grandchild: rotate it above its parent; the parent is the new focus. */
  function TurnedOut(t: Tree, path: Path): (r: (Tree, Path))
    requires !path.Top? && t.Node?
  {
    if path.RightOf?
    then (Node(path.ref, path.color, path.sibling, path.key, t.left), LeftOf(t.ref, t.color, t.key, t.right, path.up))
    else (Node(path.ref, path.color, t.right, path.key, path.sibling), RightOf(t.ref, t.color, t.key, t.left, path.up))
  }

  lemma TurnedOutKeeps(t: Tree, path: Path)
    requires Clash(t, path) && PathColor(path).Red? && Inner(path)
    ensures var (u, out) := TurnedOut(t, path); Clash(u, out) && PathColor(out).Red? && out.up == path.up && !Inner(out)
  {
    assert RedBlack(t.left) && RedBlack(t.right);
  }

  lemma TurnedOutKeys(t: Tree, path: Path)
    requires !path.Top? && t.Node?
    ensures var (u, out) := TurnedOut(t, path);
            KeysBefore(out) + Keys(u) + KeysAfter(out) == KeysBefore(path) + Keys(t) + KeysAfter(path)
  {
    var b, a := KeysBefore(path.up), KeysAfter(path.up);
    if path.RightOf? {
      Join7(b, Keys(path.sibling), [path.key], Keys(t.left), [t.key], Keys(t.right), a);
    } else {
      Join7(b, Keys(t.left), [t.key], Keys(t.right), [path.key], Keys(path.sibling), a);
    }
  }

  lemma Join7(a: seq<int>, b: seq<int>, c: seq<int>, d: seq<int>, e: seq<int>, f: seq<int>, g: seq<int>)
    ensures a + (b + c + d) + (e + f + g) == (a + b + c) + (d + e + f) + g
  { }

  /** Case 3, an outer grandchild: rotate its parent above the grandparent. */
  function Rebalanced(path: Path): Path
    requires !path.Top? && !path.up.Top?
  {
    var g := path.up;
    if path.LeftOf?
    then LeftOf(path.ref, Black, path.key, Node(g.ref, Red, path.sibling, g.key, g.sibling), g.up)
    else RightOf(path.ref, Black, path.key, Node(g.ref, Red, g.sibling, g.key, path.sibling), g.up)
  }

  lemma RebalancedKeeps(t: Tree, path: Path)
    requires Clash(t, path) && PathColor(path).Red? && !path.up.Top? && !Inner(path) && ColorOf(path.up.sibling).Black?
    ensures Clash(t, Rebalanced(path)) && PathColor(Rebalanced(path)).Black?
  {
    var s := Rebalanced(path).sibling;
    assert PathOk(path.up, BlackHeight(t));
    assert RedBlack(s) && BlackHeight(s) == BlackHeight(t);
  }

  lemma RebalancedKeys(path: Path)
    requires !path.Top? && !path.up.Top? && !Inner(path)
    ensures KeysBefore(Rebalanced(path)) == KeysBefore(path) && KeysAfter(Rebalanced(path)) == KeysAfter(path)
  {
    var g := path.up;
    if path.LeftOf? {
      Rebracket([path.key], Keys(path.sibling), [g.key], Keys(g.sibling), KeysAfter(g.up));
    } else {
      Rebracket(KeysBefore(g.up), Keys(g.sibling), [g.key], Keys(path.sibling), [path.key]);
    }
  }
}
