/** The order of keys around the focus, what adding and removing a key does to it, and the height bound. */
module RbSearch {
  import opened RbModel
  import opened RbHeap
  import opened RbSplice

  // ---------------------------------------------------------------- looking for a key

  /** The arena focused on `t` while looking for `k` in the tree `whole`. */
  ghost predicate Looking(h: Heap, root: Ref, t: Tree, path: Path, whole: Tree, k: int) {
    Holds(h, root, t, path) && Zip(t, path) == whole && Between(path, k)
  }

  lemma DownLeft(h: Heap, root: Ref, t: Tree, path: Path, whole: Tree, k: int)
    requires Looking(h, root, t, path, whole, k) && Ascending(Keys(whole)) && t.Node? && k < t.key
    ensures Looking(h, root, t.left, LeftOf(t.ref, t.color, t.key, t.right, path), whole, k)
  {
    GoLeft(t, path, k);
    FocusLeft(h, root, t, path);
  }

  lemma DownRight(h: Heap, root: Ref, t: Tree, path: Path, whole: Tree, k: int)
    requires Looking(h, root, t, path, whole, k) && Ascending(Keys(whole)) && t.Node? && t.key < k
    ensures Looking(h, root, t.right, RightOf(t.ref, t.color, t.key, t.left, path), whole, k)
  {
    GoRight(t, path, k);
    FocusRight(h, root, t, path);
  }

  /** The fields of the node looked at. */
  lemma LookFields(h: Heap, root: Ref, t: Tree, path: Path, whole: Tree, k: int)
    requires Looking(h, root, t, path, whole, k)
    ensures Root(t) < |h| && (Root(t) == NIL <==> t.Leaf?)
    ensures t.Node? ==> h[t.ref].key == t.key && h[t.ref].left == Root(t.left) && h[t.ref].right == Root(t.right)
  { }

  /** Where a search for `k` may be: everything before the focus is smaller, everything after larger. */
  ghost predicate Between(path: Path, k: int) {
    && (forall i :: 0 <= i < |KeysBefore(path)| ==> KeysBefore(path)[i] < k)
    && (forall i :: 0 <= i < |KeysAfter(path)| ==> k < KeysAfter(path)[i])
  }

  lemma GoLeft(t: Tree, path: Path, k: int)
    requires t.Node? && Between(path, k) && k < t.key && Ascending(Keys(Zip(t, path)))
    ensures Between(LeftOf(t.ref, t.color, t.key, t.right, path), k)
  {
    ZipKeys(t, path);
    SplitRight(KeysBefore(path), Keys(t.left), t.key, Keys(t.right), KeysAfter(path));
  }

  lemma GoRight(t: Tree, path: Path, k: int)
    requires t.Node? && Between(path, k) && t.key < k && Ascending(Keys(Zip(t, path)))
    ensures Between(RightOf(t.ref, t.color, t.key, t.left, path), k)
  {
    ZipKeys(t, path);
    SplitLeft(KeysBefore(path), Keys(t.left), t.key, Keys(t.right), KeysAfter(path));
  }

  lemma SplitRight(a: seq<int>, l: seq<int>, k: int, r: seq<int>, b: seq<int>)
    requires Ascending(a + (l + [k] + r) + b)
    ensures forall i :: 0 <= i < |r| ==> k < r[i]
  {
    var s := a + (l + [k] + r) + b;
    var at := |a| + |l|;
    forall i | 0 <= i < |r| ensures k < r[i] { assert s[at] == k && s[at + 1 + i] == r[i]; }
  }

  lemma SplitLeft(a: seq<int>, l: seq<int>, k: int, r: seq<int>, b: seq<int>)
    requires Ascending(a + (l + [k] + r) + b)
    ensures forall i :: 0 <= i < |l| ==> l[i] < k
  {
    var s := a + (l + [k] + r) + b;
    var at := |a| + |l|;
    forall i | 0 <= i < |l| ensures l[i] < k { assert s[at] == k && s[|a| + i] == l[i]; }
  }

  ghost function KeySet(s: seq<int>): set<int> {
    set k | k in s
  }

  /** A search that runs out of nodes has shown the key is absent. */
  lemma Absent(path: Path, k: int)
    requires Between(path, k)
    ensures k !in Keys(Zip(Leaf, path))
  {
    ZipKeys(Leaf, path);
    assert KeysBefore(path) + [] + KeysAfter(path) == KeysBefore(path) + KeysAfter(path);
  }

  lemma Present(t: Tree, path: Path)
    requires t.Node?
    ensures t.key in Keys(Zip(t, path))
  {
    ZipKeys(t, path);
    assert t.key in Keys(t);
  }

  // ---------------------------------------------------------------- one key more, one key less

  lemma OneMore(a: seq<int>, k: int, b: seq<int>)
    requires Ascending(a + b)
    requires (forall i :: 0 <= i < |a| ==> a[i] < k) && (forall i :: 0 <= i < |b| ==> k < b[i])
    ensures Ascending(a + [k] + b) && KeySet(a + [k] + b) == KeySet(a + b) + {k}
  {
    var s, u := a + [k] + b, a + b;
    forall i, j | 0 <= i < j < |s| ensures s[i] < s[j] {
      assert i != |a| ==> s[i] == u[if i < |a| then i else i - 1];
      assert j != |a| ==> s[j] == u[if j < |a| then j else j - 1];
    }
  }

  lemma OneLess(a: seq<int>, k: int, b: seq<int>)
    requires Ascending(a + [k] + b)
    ensures Ascending(a + b) && KeySet(a + b) == KeySet(a + [k] + b) - {k}
  {
    var s, u := a + [k] + b, a + b;
    assert s[|a|] == k;
    forall i, j | 0 <= i < j < |u| ensures u[i] < u[j] {
      assert u[i] == s[if i < |a| then i else i + 1] && u[j] == s[if j < |a| then j else j + 1];
    }
    forall i | 0 <= i < |u| ensures u[i] != k {
      assert u[i] == s[if i < |a| then i else i + 1];
    }
  }

  /** Planting a new node at an empty place. */
  lemma OneMoreAt(path: Path, z: Ref, k: int)
    requires Between(path, k) && Ascending(Keys(Zip(Leaf, path)))
    ensures var s := KeysBefore(path) + Keys(Node(z, Red, Leaf, k, Leaf)) + KeysAfter(path);
            Ascending(s) && KeySet(s) == KeySet(Keys(Zip(Leaf, path))) + {k}
  {
    ZipKeys(Leaf, path);
    assert KeysBefore(path) + [] + KeysAfter(path) == KeysBefore(path) + KeysAfter(path);
    assert Keys(Node(z, Red, Leaf, k, Leaf)) == [k];
    OneMore(KeysBefore(path), k, KeysAfter(path));
  }

  /** Taking out the node at the focus. */
  lemma OneLessAt(t: Tree, path: Path)
    requires t.Node? && Ascending(Keys(Zip(t, path)))
    ensures var s := KeysBefore(path) + Keys(t.left) + Keys(t.right) + KeysAfter(path);
            Ascending(s) && KeySet(s) == KeySet(Keys(Zip(t, path))) - {t.key}
  {
    ZipKeys(t, path);
    Regroup(KeysBefore(path), Keys(t.left), [t.key], Keys(t.right), KeysAfter(path));
    OneLess(KeysBefore(path) + Keys(t.left), t.key, Keys(t.right) + KeysAfter(path));
  }

  lemma Regroup(a: seq<int>, l: seq<int>, k: seq<int>, r: seq<int>, b: seq<int>)
    ensures a + (l + k + r) + b == (a + l) + k + (r + b)
    ensures a + l + r + b == (a + l) + (r + b)
  { }

  // ---------------------------------------------------------------- a new node in the arena

  lemma Grown(h: Heap, root: Ref, t: Tree, path: Path, n: RBNode)
    requires Holds(h, root, t, path)
    ensures Holds(h + [n], root, t, path)
    ensures |h| !in Refs(t) && |h| !in PathRefs(path)
  {
    FrameRep(h, h + [n], t, ParentRef(path));
    FramePath(h, h + [n], path, Root(t));
    RefsInRange(h, t, ParentRef(path));
    PathRefsInRange(h, path, Root(t));
  }

  /** The arena after hanging the fresh node `z` at the end of a path. */
  function Hung(h: Heap, z: Ref, k: int, path: Path): Heap
    requires z < |h| && (path.Top? || path.ref < |h|)
  {
    var g := h[z := RBNode(k, Red, NIL, NIL, ParentRef(path))];
    match path
    case Top => g
    case LeftOf(r, _, _, _, _) => g[r := g[r].(left := z)]
    case RightOf(r, _, _, _, _) => g[r := g[r].(right := z)]
  }

  lemma HungHolds(h: Heap, root: Ref, z: Ref, k: int, path: Path)
    requires Holds(h, root, Leaf, path) && 0 < z < |h| && z !in PathRefs(path)
    ensures path.Top? || 0 < path.ref < |h|
    ensures Holds(Hung(h, z, k, path), if path.Top? then z else root, Node(z, Red, Leaf, k, Leaf), path)
  {
    PathRefsInRange(h, path, NIL);
    assert !path.Top? ==> path.ref in PathRefs(path);
    var g := Hung(h, z, k, path);
    RechildPath(h, g, path, NIL, z);
    TopRefOf(path, NIL, z);
    Assembled(g, if path.Top? then z else root, z, Red, Leaf, k, Leaf, path);
  }

  // ---------------------------------------------------------------- height

  /** Nodes on the longest way down. */
  function Height(t: Tree): nat {
    if t.Leaf? then 0 else 1 + if Height(t.left) > Height(t.right) then Height(t.left) else Height(t.right)
  }

  function Pow2(n: nat): nat {
    if n == 0 then 1 else 2 * Pow2(n - 1)
  }

  lemma {:induction false} HeightByBlacks(t: Tree)
    requires RedBlack(t)
    ensures Height(t) <= 2 * BlackHeight(t) + 1 - Blacks(ColorOf(t))
    ensures Pow2(BlackHeight(t)) <= |Keys(t)| + 1
  {
    if t.Node? {
      HeightByBlacks(t.left);
      HeightByBlacks(t.right);
    }
  }

  lemma {:induction false} Pow2Add(a: nat, b: nat)
    ensures Pow2(a + b) == Pow2(a) * Pow2(b)
    decreases a
  {
    if a > 0 { Pow2Add(a - 1, b); }
  }

  lemma {:induction false} Pow2Grows(a: nat, b: nat)
    requires a <= b
    ensures Pow2(a) <= Pow2(b)
    decreases b
  {
    if a < b { Pow2Grows(a, b - 1); }
  }

  /** A depth of at most 2 log2(n + 1). */
  predicate Shallow(depth: nat, n: nat) {
    Pow2(depth) <= (n + 1) * (n + 1)
  }

  /** A red-black tree of n keys has height at most 2 log2(n + 1). */
  lemma HeightBound(t: Tree)
    requires RedBlack(t) && ColorOf(t).Black?
    ensures Shallow(Height(t), |Keys(t)|)
  {
    var b, n := BlackHeight(t), |Keys(t)| + 1;
    HeightByBlacks(t);
    Pow2Grows(Height(t), b + b);
    Pow2Add(b, b);
    assert Pow2(b) * Pow2(b) <= n * n by { Squares(Pow2(b), n); }
  }

  lemma Squares(a: nat, b: nat)
    requires a <= b
    ensures a * a <= b * b
  { }

  /** No way down is longer than the height. */
  lemma {:induction false} DepthWithin(t: Tree, path: Path)
    ensures Length(path) + Height(t) <= Height(Zip(t, path))
    decreases path
  {
    if !path.Top? { DepthWithin(Raised(t, path), path.up); }
  }

  lemma ShallowPath(t: Tree, path: Path)
    requires RedBlack(Zip(t, path)) && ColorOf(Zip(t, path)).Black?
    ensures Shallow(Length(path), |Keys(Zip(t, path))|)
  {
    DepthWithin(t, path);
    HeightBound(Zip(t, path));
    Pow2Grows(Length(path), Height(Zip(t, path)));
  }
}
