/**
 Red-black trees as values: trees whose nodes carry their arena index, paths from a subtree up to
 the root (zippers), and the red-black conditions on both.
 */
module RbModel {
  import opened Rows

  datatype Color = Red | Black

  type Ref = nat
  const NIL: Ref := 0

  datatype Tree = Leaf | Node(ref: Ref, color: Color, left: Tree, key: int, right: Tree)

  /** The way up from a subtree: it is the left, or the right, child of the nearest frame. */
  datatype Path =
    | Top
    | LeftOf(ref: Ref, color: Color, key: int, sibling: Tree, up: Path)
    | RightOf(ref: Ref, color: Color, key: int, sibling: Tree, up: Path)

  function Root(t: Tree): Ref {
    if t.Leaf? then NIL else t.ref
  }

  function ParentRef(path: Path): Ref {
    if path.Top? then NIL else path.ref
  }

  function Zip(t: Tree, path: Path): Tree
    decreases path
  {
    match path
    case Top => t
    case LeftOf(r, c, k, s, up) => Zip(Node(r, c, t, k, s), up)
    case RightOf(r, c, k, s, up) => Zip(Node(r, c, s, k, t), up)
  }

  function Length(path: Path): nat {
    if path.Top? then 0 else 1 + Length(path.up)
  }

  // ---------------------------------------------------------------- keys in order

  function Keys(t: Tree): seq<int> {
    if t.Leaf? then [] else Keys(t.left) + [t.key] + Keys(t.right)
  }

  function KeysBefore(path: Path): seq<int> {
    match path
    case Top => []
    case LeftOf(_, _, _, _, up) => KeysBefore(up)
    case RightOf(_, _, k, s, up) => KeysBefore(up) + Keys(s) + [k]
  }

  function KeysAfter(path: Path): seq<int> {
    match path
    case Top => []
    case LeftOf(_, _, k, s, up) => [k] + Keys(s) + KeysAfter(up)
    case RightOf(_, _, _, _, up) => KeysAfter(up)
  }

  lemma {:induction false} ZipKeys(t: Tree, path: Path)
    ensures Keys(Zip(t, path)) == KeysBefore(path) + Keys(t) + KeysAfter(path)
    decreases path
  {
    match path
    case Top =>
    case LeftOf(r, c, k, s, up) =>
      ZipKeys(Node(r, c, t, k, s), up);
      Rebracket(KeysBefore(up), Keys(t), [k], Keys(s), KeysAfter(up));
    case RightOf(r, c, k, s, up) =>
      ZipKeys(Node(r, c, s, k, t), up);
      Rebracket(KeysBefore(up), Keys(s), [k], Keys(t), KeysAfter(up));
  }

  predicate Ascending(s: seq<int>) {
    forall i, j :: 0 <= i < j < |s| ==> s[i] < s[j]
  }

  // ---------------------------------------------------------------- red-black conditions

  function ColorOf(t: Tree): Color {
    if t.Leaf? then Black else t.color
  }

  function PathColor(path: Path): Color {
    if path.Top? then Black else path.color
  }

  function Blacks(c: Color): nat {
    if c.Black? then 1 else 0
  }

  /** Black nodes on the way down the left side. */
  function BlackHeight(t: Tree): nat {
    if t.Leaf? then 0 else BlackHeight(t.left) + Blacks(t.color)
  }

  /** Equal black height on all ways down, and no red node with a red child. */
  predicate RedBlack(t: Tree) {
    t.Leaf? ||
    (&& RedBlack(t.left) && RedBlack(t.right)
     && BlackHeight(t.left) == BlackHeight(t.right)
     && (t.color.Red? ==> ColorOf(t.left).Black? && ColorOf(t.right).Black?))
  }

  function Painted(t: Tree, c: Color): Tree {
    if t.Leaf? then t else t.(color := c)
  }

  /** A path that is red-black around a subtree of black height `h`, whatever that subtree's colour. */
  predicate PathOk(path: Path, h: nat) {
    path.Top? ||
    (&& RedBlack(path.sibling) && BlackHeight(path.sibling) == h
     && (path.color.Red? ==> ColorOf(path.sibling).Black? && PathColor(path.up).Black? && !path.up.Top?)
     && PathOk(path.up, h + Blacks(path.color)))
  }

  /** A fitting subtree in a fitting path makes a red-black tree. */
  lemma {:induction false} ZipRedBlack(t: Tree, path: Path)
    requires RedBlack(t) && PathOk(path, BlackHeight(t))
    requires PathColor(path).Red? ==> ColorOf(t).Black?
    ensures RedBlack(Zip(t, path))
    ensures !path.Top? ==> ColorOf(Zip(t, path)).Black?
    decreases path
  {
    match path
    case Top =>
    case LeftOf(r, c, k, s, up) => ZipRedBlack(Node(r, c, t, k, s), up);
    case RightOf(r, c, k, s, up) => ZipRedBlack(Node(r, c, s, k, t), up);
  }

  /** Conversely, what surrounds any subtree of a red-black tree with a black root. */
  lemma {:induction false} UnzipRedBlack(t: Tree, path: Path)
    requires RedBlack(Zip(t, path)) && ColorOf(Zip(t, path)).Black?
    ensures RedBlack(t) && PathOk(path, BlackHeight(t))
    ensures ColorOf(t).Red? ==> PathColor(path).Black? && !path.Top?
    decreases path
  {
    match path
    case Top =>
    case LeftOf(r, c, k, s, up) => UnzipRedBlack(Node(r, c, t, k, s), up);
    case RightOf(r, c, k, s, up) => UnzipRedBlack(Node(r, c, s, k, t), up);
  }

  // ---------------------------------------------------------------- rotations

  function RotateLeft(t: Tree): Tree
    requires t.Node? && t.right.Node?
  {
    var y := t.right;
    Node(y.ref, y.color, Node(t.ref, t.color, t.left, t.key, y.left), y.key, y.right)
  }

  function RotateRight(t: Tree): Tree
    requires t.Node? && t.left.Node?
  {
    var x := t.left;
    Node(x.ref, x.color, x.left, x.key, Node(t.ref, t.color, x.right, t.key, t.right))
  }

  // ---------------------------------------------------------------- arena indices

  function Refs(t: Tree): set<Ref> {
    if t.Leaf? then {} else {t.ref} + Refs(t.left) + Refs(t.right)
  }

  function PathRefs(path: Path): set<Ref> {
    if path.Top? then {} else {path.ref} + Refs(path.sibling) + PathRefs(path.up)
  }

  /** No index occurs twice, and none is NIL. */
  predicate Unshared(t: Tree) {
    t.Leaf? ||
    (&& t.ref != NIL && t.ref !in Refs(t.left) && t.ref !in Refs(t.right)
     && Refs(t.left) !! Refs(t.right) && Unshared(t.left) && Unshared(t.right))
  }

  predicate UnsharedPath(path: Path) {
    path.Top? ||
    (&& path.ref != NIL && path.ref !in Refs(path.sibling) && path.ref !in PathRefs(path.up)
     && Refs(path.sibling) !! PathRefs(path.up) && Unshared(path.sibling) && UnsharedPath(path.up))
  }
}
