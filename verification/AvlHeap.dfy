/**
 The AVL tree in place: nodes are entries of an arena and pointers are indices into it, with 0 for
 the null pointer.  Every method is proved to do to its nodes what the function of the same name does to a tree.
 */
module AvlHeap {
  import opened Arenas
  import opened Avl

  datatype Record = Record(key: int, left: Ref, right: Ref, height: int)

  /** Which entries make up a tree. */
  datatype Frame = Nil | At(ref: Ref, left: Frame, right: Frame)

  function Top(f: Frame): Ref {
    if f.Nil? then NIL else f.ref
  }

  function Refs(f: Frame): set<Ref> {
    if f.Nil? then {} else {f.ref} + Refs(f.left) + Refs(f.right)
  }

  /** The pointers are those of the frame, and no entry is used twice. */
  ghost predicate Laid(h: seq<Record>, f: Frame) {
    f.At? ==>
      && NIL < f.ref < |h| && h[f.ref].left == Top(f.left) && h[f.ref].right == Top(f.right)
      && Laid(h, f.left) && Laid(h, f.right)
      && f.ref !in Refs(f.left) && f.ref !in Refs(f.right) && Refs(f.left) !! Refs(f.right)
  }

  /** The tree that the entries of a frame hold. */
  function Value(h: seq<Record>, f: Frame): Tree {
    if f.Nil? || f.ref >= |h| then Empty
    else Node(h[f.ref].key, Value(h, f.left), Value(h, f.right), h[f.ref].height)
  }

  lemma {:induction false} LaidRange(h: seq<Record>, f: Frame)
    requires Laid(h, f)
    ensures forall i :: i in Refs(f) ==> NIL < i < |h|
  {
    if f.At? {
      LaidRange(h, f.left);
      LaidRange(h, f.right);
    }
  }

  /** A tree none of whose entries is touched stays as it is. */
  lemma {:induction false} Untouched(h: seq<Record>, g: seq<Record>, rs: set<Ref>, f: Frame)
    requires Laid(h, f) && Within(h, g, rs) && Refs(f) !! rs
    ensures Laid(g, f) && Value(g, f) == Value(h, f)
  {
    if f.At? {
      assert f.ref in Refs(f);
      Untouched(h, g, rs, f.left);
      Untouched(h, g, rs, f.right);
    }
  }

  /** A node over two trees. */
  lemma Joined(h: seq<Record>, r: Ref, l: Frame, q: Frame)
    requires NIL < r < |h| && h[r].left == Top(l) && h[r].right == Top(q) && Laid(h, l) && Laid(h, q)
    requires r !in Refs(l) && r !in Refs(q) && Refs(l) !! Refs(q)
    ensures Laid(h, At(r, l, q)) && Value(h, At(r, l, q)) == Node(h[r].key, Value(h, l), Value(h, q), h[r].height)
  { }

  lemma Heights(h: seq<Record>, f: Frame)
    requires Laid(h, f)
    ensures (f.Nil? <==> Top(f) == NIL) && (f.Nil? <==> Value(h, f).Empty?)
    ensures f.At? ==> Height(Value(h, f)) == h[f.ref].height
  { }

  /** Two entries changed, neither of them in the three trees below. */
  lemma ThreeStay(h: seq<Record>, g: seq<Record>, rs: set<Ref>, a: Frame, b: Frame, c: Frame)
    requires Laid(h, a) && Laid(h, b) && Laid(h, c) && Within(h, g, rs)
    requires Refs(a) !! rs && Refs(b) !! rs && Refs(c) !! rs
    ensures Laid(g, a) && Laid(g, b) && Laid(g, c)
    ensures Value(g, a) == Value(h, a) && Value(g, b) == Value(h, b) && Value(g, c) == Value(h, c)
  {
    Untouched(h, g, rs, a);
    Untouched(h, g, rs, b);
    Untouched(h, g, rs, c);
  }

  /** New entries on one side do not meet the other side. */
  lemma ApartLeft(h: seq<Record>, f: Frame, fl: Frame)
    requires Laid(h, f) && f.At? && OldOrNew(h, Refs(f.left), Refs(fl))
    ensures Refs(fl) !! Refs(f.right) && f.ref !in Refs(fl) && OldOrNew(h, Refs(f), Refs(At(f.ref, fl, f.right)))
  {
    LaidRange(h, f.right);
    forall i | i in Refs(fl) ensures i !in Refs(f.right) && i != f.ref { }
  }

  lemma ApartRight(h: seq<Record>, f: Frame, fr: Frame)
    requires Laid(h, f) && f.At? && OldOrNew(h, Refs(f.right), Refs(fr))
    ensures Refs(f.left) !! Refs(fr) && f.ref !in Refs(fr) && OldOrNew(h, Refs(f), Refs(At(f.ref, f.left, fr)))
  {
    LaidRange(h, f.left);
    forall i | i in Refs(fr) ensures i !in Refs(f.left) && i != f.ref { }
  }

  /** What the rotations after an insertion dereference is there. */
  predicate InsertReady(t: Tree, key: int) {
    && t.Node?
    && (Balance(t) > 1 ==> t.left.Node? && (key > t.left.key ==> t.left.right.Node?))
    && (Balance(t) < -1 ==> t.right.Node? && (key < t.right.key ==> t.right.left.Node?))
  }

  lemma LeftGrewReady(t: Tree, l: Tree, key: int)
    requires t.Node? && Balanced(t) && Grew(t.left, l, key)
    ensures InsertReady(Make(t.key, l, t.right), key)
  {
    Positive(t.left);
    Positive(t.right);
    Positive(l.left);
    Positive(l.right);
  }

  lemma RightGrewReady(t: Tree, r: Tree, key: int)
    requires t.Node? && Balanced(t) && Grew(t.right, r, key)
    ensures InsertReady(Make(t.key, t.left, r), key)
  {
    Positive(t.left);
    Positive(t.right);
    Positive(r.left);
    Positive(r.right);
  }

  predicate DeleteReady(t: Tree) {
    && t.Node?
    && (Balance(t) > 1 ==> t.left.Node? && (Balance(t.left) < 0 ==> t.left.right.Node?))
    && (Balance(t) < -1 ==> t.right.Node? && (Balance(t.right) > 0 ==> t.right.left.Node?))
  }

  lemma BalancedReady(key: int, l: Tree, r: Tree)
    requires Balanced(l) && Balanced(r)
    ensures DeleteReady(Make(key, l, r))
  {
    Positive(l);
    Positive(r);
    if l.Node? { Positive(l.left); Positive(l.right); }
    if r.Node? { Positive(r.left); Positive(r.right); }
  }

  class AVLTree {
    var nodes: seq<Record>
    var root: Ref
    ghost var frame: Frame

    ghost predicate Valid()
      reads this
    {
      && nodes != [] && Laid(nodes, frame) && root == Top(frame)
      && Ordered(Value(nodes, frame)) && Balanced(Value(nodes, frame))
    }

    ghost function Contents(): Tree
      reads this
    {
      Value(nodes, frame)
    }

    constructor ()
      ensures Valid() && Contents() == Empty
    {
      nodes, root, frame := [Record(0, NIL, NIL, 0)], NIL, Nil;
    }

    function HeightOf(r: Ref): int
      reads this
      requires r < |nodes|
    {
      if r == NIL then 0 else nodes[r].height
    }

    /** The height field of a node, from its children's. */
    method UpdateHeight(r: Ref, ghost l: Frame, ghost q: Frame)
      requires NIL < r < |nodes| && nodes[r].left == Top(l) && nodes[r].right == Top(q) && Laid(nodes, l)
               && Laid(nodes, q)
      requires r !in Refs(l) && r !in Refs(q) && Refs(l) !! Refs(q)
      modifies this`nodes
      ensures Within(old(nodes), nodes, {r}) && |nodes| == old(|nodes|) && Laid(nodes, At(r, l, q))
      ensures Value(nodes, At(r, l, q)) == Make(old(nodes[r].key), old(Value(nodes, l)), old(Value(nodes, q)))
    {
      ghost var h := nodes;
      Heights(nodes, l);
      Heights(nodes, q);
      nodes := nodes[r := nodes[r].(height := 1 + Max(HeightOf(nodes[r].left), HeightOf(nodes[r].right)))];
      Untouched(h, nodes, {r}, l);
      Untouched(h, nodes, {r}, q);
      Joined(nodes, r, l, q);
    }

    method RightRotate(y: Ref, ghost f: Frame) returns (x: Ref, ghost f': Frame)
      requires Laid(nodes, f) && f.At? && f.left.At? && y == f.ref
      modifies this`nodes
      ensures Laid(nodes, f') && x == Top(f') && Refs(f') == Refs(f)
      ensures Within(old(nodes), nodes, Refs(f)) && |nodes| == old(|nodes|)
      ensures old(Value(nodes, f)).left.Node? && Value(nodes, f') == Avl.RightRotate(old(Value(nodes, f)))
    {
      ghost var h, a, b, c := nodes, f.left.left, f.left.right, f.right;
      LaidRange(nodes, f);
      x := nodes[y].left;
      var t2 := nodes[x].right;
      nodes := nodes[x := nodes[x].(right := y)];
      nodes := nodes[y := nodes[y].(left := t2)];
      ThreeStay(h, nodes, {x, y}, a, b, c);
      ghost var g := nodes;
      UpdateHeight(y, b, c);
      Untouched(g, nodes, {y}, a);
      UpdateHeight(x, a, At(y, b, c));
      f' := At(x, a, At(y, b, c));
    }

    method LeftRotate(x: Ref, ghost f: Frame) returns (y: Ref, ghost f': Frame)
      requires Laid(nodes, f) && f.At? && f.right.At? && x == f.ref
      modifies this`nodes
      ensures Laid(nodes, f') && y == Top(f') && Refs(f') == Refs(f)
      ensures Within(old(nodes), nodes, Refs(f)) && |nodes| == old(|nodes|)
      ensures old(Value(nodes, f)).right.Node? && Value(nodes, f') == Avl.LeftRotate(old(Value(nodes, f)))
    {
      ghost var h, a, b, c := nodes, f.left, f.right.left, f.right.right;
      LaidRange(nodes, f);
      y := nodes[x].right;
      var t2 := nodes[y].left;
      nodes := nodes[y := nodes[y].(left := x)];
      nodes := nodes[x := nodes[x].(right := t2)];
      ThreeStay(h, nodes, {x, y}, a, b, c);
      ghost var g := nodes;
      UpdateHeight(x, a, b);
      Untouched(g, nodes, {x}, c);
      UpdateHeight(y, At(x, a, b), c);
      f' := At(y, At(x, a, b), c);
    }

    /** `node->left = leftRotate(node->left)`. */
    method TurnLeftChild(node: Ref, ghost f: Frame) returns (ghost f': Frame)
      requires Laid(nodes, f) && f.At? && f.left.At? && f.left.right.At? && node == f.ref
      modifies this`nodes
      ensures Laid(nodes, f') && f'.At? && f'.left.At? && f'.ref == node && Refs(f') == Refs(f)
      ensures Within(old(nodes), nodes, Refs(f)) && |nodes| == old(|nodes|)
      ensures var t := old(Value(nodes, f));
              t.left.Node? && t.left.right.Node?
              && Value(nodes, f') == Node(t.key, Avl.LeftRotate(t.left), t.right, t.height)
    {
      ghost var h := nodes;
      var l;
      ghost var fl;
      l, fl := LeftRotate(nodes[node].left, f.left);
      Untouched(h, nodes, Refs(f.left), f.right);
      ghost var g := nodes;
      nodes := nodes[node := nodes[node].(left := l)];
      Untouched(g, nodes, {node}, fl);
      Untouched(g, nodes, {node}, f.right);
      f' := At(node, fl, f.right);
      Joined(nodes, node, fl, f.right);
    }

    method TurnRightChild(node: Ref, ghost f: Frame) returns (ghost f': Frame)
      requires Laid(nodes, f) && f.At? && f.right.At? && f.right.left.At? && node == f.ref
      modifies this`nodes
      ensures Laid(nodes, f') && f'.At? && f'.right.At? && f'.ref == node && Refs(f') == Refs(f)
      ensures Within(old(nodes), nodes, Refs(f)) && |nodes| == old(|nodes|)
      ensures var t := old(Value(nodes, f));
              t.right.Node? && t.right.left.Node?
              && Value(nodes, f') == Node(t.key, t.left, Avl.RightRotate(t.right), t.height)
    {
      ghost var h := nodes;
      var r;
      ghost var fr;
      r, fr := RightRotate(nodes[node].right, f.right);
      Untouched(h, nodes, Refs(f.right), f.left);
      ghost var g := nodes;
      nodes := nodes[node := nodes[node].(right := r)];
      Untouched(g, nodes, {node}, fr);
      Untouched(g, nodes, {node}, f.left);
      f' := At(node, f.left, fr);
      Joined(nodes, node, f.left, fr);
    }

    /** A changed left subtree `fl` goes back under its node, and the height is updated. */
    method HangLeft(node: Ref, l: Ref, ghost h: seq<Record>, ghost f: Frame, ghost fl: Frame)
      requires Laid(h, f) && f.At? && node == f.ref
      requires Within(h, nodes, Refs(f.left)) && OldOrNew(h, Refs(f.left), Refs(fl)) && Laid(nodes, fl) && l == Top(fl)
      modifies this`nodes
      ensures |nodes| == old(|nodes|) && Within(h, nodes, Refs(f)) && OldOrNew(h, Refs(f), Refs(At(node, fl, f.right)))
      ensures Laid(nodes, At(node, fl, f.right))
      ensures Value(nodes, At(node, fl, f.right)) == Make(h[node].key, old(Value(nodes, fl)), Value(h, f.right))
    {
      ApartLeft(h, f, fl);
      Untouched(h, nodes, Refs(f.left), f.right);
      ghost var g := nodes;
      nodes := nodes[node := nodes[node].(left := l)];
      Untouched(g, nodes, {node}, fl);
      Untouched(g, nodes, {node}, f.right);
      UpdateHeight(node, fl, f.right);
    }

    method HangRight(node: Ref, r: Ref, ghost h: seq<Record>, ghost f: Frame, ghost fr: Frame)
      requires Laid(h, f) && f.At? && node == f.ref
      requires Within(h, nodes, Refs(f.right)) && OldOrNew(h, Refs(f.right), Refs(fr)) && Laid(nodes, fr)
               && r == Top(fr)
      modifies this`nodes
      ensures |nodes| == old(|nodes|) && Within(h, nodes, Refs(f)) && OldOrNew(h, Refs(f), Refs(At(node, f.left, fr)))
      ensures Laid(nodes, At(node, f.left, fr))
      ensures Value(nodes, At(node, f.left, fr)) == Make(h[node].key, Value(h, f.left), old(Value(nodes, fr)))
    {
      ApartRight(h, f, fr);
      Untouched(h, nodes, Refs(f.right), f.left);
      ghost var g := nodes;
      nodes := nodes[node := nodes[node].(right := r)];
      Untouched(g, nodes, {node}, fr);
      Untouched(g, nodes, {node}, f.left);
      UpdateHeight(node, f.left, fr);
    }

    function BalanceFactor(node: Ref): int
      reads this
      requires node < |nodes| && nodes[node].left < |nodes| && nodes[node].right < |nodes|
    {
      if node == NIL then 0 else HeightOf(nodes[node].left) - HeightOf(nodes[node].right)
    }

    lemma BalanceIs(f: Frame)
      requires Laid(nodes, f) && f.At?
      ensures nodes[f.ref].left < |nodes| && nodes[f.ref].right < |nodes|
              && BalanceFactor(f.ref) == Balance(Value(nodes, f))
    {
      Heights(nodes, f.left);
      Heights(nodes, f.right);
      LaidRange(nodes, f);
      assert f.left.At? ==> f.left.ref in Refs(f);
      assert f.right.At? ==> f.right.ref in Refs(f);
    }

    /** The rotations at the end of an insertion. */
    method FixInsert(node: Ref, key: int, ghost f: Frame) returns (r: Ref, ghost f': Frame)
      requires Laid(nodes, f) && f.At? && node == f.ref && InsertReady(Value(nodes, f), key)
      modifies this`nodes
      ensures Laid(nodes, f') && r == Top(f') && Refs(f') == Refs(f) && Within(old(nodes), nodes, Refs(f))
      ensures |nodes| == old(|nodes|)
      ensures Value(nodes, f') == InsertFix(old(Value(nodes, f)), key)
    {
      BalanceIs(f);
      var balance := BalanceFactor(node);
      f' := f;
      if balance > 1 && key < nodes[nodes[node].left].key {
        r, f' := RightRotate(node, f);
      } else if balance < -1 && key > nodes[nodes[node].right].key {
        r, f' := LeftRotate(node, f);
      } else if balance > 1 && key > nodes[nodes[node].left].key {
        Heights(nodes, f.left.right);
        f' := TurnLeftChild(node, f);
        r, f' := RightRotate(node, f');
      } else if balance < -1 && key < nodes[nodes[node].right].key {
        Heights(nodes, f.right.left);
        f' := TurnRightChild(node, f);
        r, f' := LeftRotate(node, f');
      } else {
        r := node;
      }
    }

    method FixDelete(node: Ref, ghost f: Frame) returns (r: Ref, ghost f': Frame)
      requires Laid(nodes, f) && f.At? && node == f.ref && DeleteReady(Value(nodes, f))
      modifies this`nodes
      ensures Laid(nodes, f') && r == Top(f') && Refs(f') == Refs(f) && Within(old(nodes), nodes, Refs(f))
      ensures |nodes| == old(|nodes|)
      ensures Value(nodes, f') == DeleteFix(old(Value(nodes, f)))
    {
      BalanceIs(f);
      var balance := BalanceFactor(node);
      f' := f;
      if balance > 1 {
        BalanceIs(f.left);
        if BalanceFactor(nodes[node].left) >= 0 {
          r, f' := RightRotate(node, f);
        } else {
          f' := TurnLeftChild(node, f);
          r, f' := RightRotate(node, f');
        }
      } else if balance < -1 {
        BalanceIs(f.right);
        if BalanceFactor(nodes[node].right) <= 0 {
          r, f' := LeftRotate(node, f);
        } else {
          f' := TurnRightChild(node, f);
          r, f' := LeftRotate(node, f');
        }
      } else {
        r := node;
      }
    }

    method InsertAt(node: Ref, key: int, ghost f: Frame) returns (r: Ref, ghost f': Frame)
      requires nodes != [] && Laid(nodes, f) && node == Top(f) && Balanced(Value(nodes, f))
      modifies this`nodes
      ensures Laid(nodes, f') && r == Top(f') && Within(old(nodes), nodes, Refs(f))
              && OldOrNew(old(nodes), Refs(f), Refs(f'))
      ensures Value(nodes, f') == Avl.Insert(old(Value(nodes, f)), key)
      decreases f
    {
      ghost var h, t := nodes, Value(nodes, f);
      if node == NIL {
        nodes := nodes + [Record(key, NIL, NIL, 1)];
        r, f' := |nodes| - 1, At(|nodes| - 1, Nil, Nil);
        return;
      }
      if key < nodes[node].key {
        var l;
        ghost var fl;
        l, fl := InsertAt(nodes[node].left, key, f.left);
        InsertBalances(t.left, key);
        LeftGrewReady(t, Avl.Insert(t.left, key), key);
        HangLeft(node, l, h, f, fl);
        f' := At(node, fl, f.right);
      } else if key > nodes[node].key {
        var q;
        ghost var fr;
        q, fr := InsertAt(nodes[node].right, key, f.right);
        InsertBalances(t.right, key);
        RightGrewReady(t, Avl.Insert(t.right, key), key);
        HangRight(node, q, h, f, fr);
        f' := At(node, f.left, fr);
      } else {
        r, f' := node, f;
        return;
      }
      r, f' := FixInsert(node, key, f');
    }

    /** The leftmost node. */
    method MinimumNode(node: Ref, ghost f: Frame) returns (m: Ref)
      requires Laid(nodes, f) && f.At? && node == f.ref
      ensures m < |nodes| && Value(nodes, f).Node? && nodes[m].key == MinKey(Value(nodes, f))
    {
      m := node;
      ghost var g := f;
      while nodes[m].left != NIL
        invariant Laid(nodes, g) && g.At? && m == g.ref && MinKey(Value(nodes, g)) == MinKey(Value(nodes, f))
        decreases g
      {
        Heights(nodes, g.left);
        m, g := nodes[m].left, g.left;
      }
      Heights(nodes, g.left);
    }

    /** `*root = *temp` for an only child, whose own entry is given up. */
    method TakeChild(node: Ref, c: Ref, ghost f: Frame, ghost fc: Frame) returns (ghost f': Frame)
      requires Laid(nodes, f) && f.At? && node == f.ref && fc.At? && c == fc.ref && (fc == f.left || fc == f.right)
      modifies this`nodes
      ensures |nodes| == old(|nodes|) && Within(old(nodes), nodes, Refs(f)) && f'.At? && f'.ref == node
              && Refs(f') <= Refs(f)
      ensures Laid(nodes, f')
              && var t := old(Value(nodes, fc)); t.Node? && Value(nodes, f') == Make(t.key, t.left, t.right)
    {
      ghost var h := nodes;
      LaidRange(h, fc);
      nodes := nodes[node := nodes[c]];
      Untouched(h, nodes, {node}, fc.left);
      Untouched(h, nodes, {node}, fc.right);
      UpdateHeight(node, fc.left, fc.right);
      f' := At(node, fc.left, fc.right);
    }

    method DeleteAt(node: Ref, key: int, ghost f: Frame) returns (r: Ref, ghost f': Frame)
      requires nodes != [] && Laid(nodes, f) && node == Top(f) && Balanced(Value(nodes, f))
      modifies this`nodes
      ensures Laid(nodes, f') && r == Top(f') && Within(old(nodes), nodes, Refs(f))
              && OldOrNew(old(nodes), Refs(f), Refs(f'))
      ensures Value(nodes, f') == Avl.Delete(old(Value(nodes, f)), key)
      decreases f
    {
      ghost var h, t := nodes, Value(nodes, f);
      if node == NIL {
        r, f' := node, f;
        return;
      }
      if key < nodes[node].key {
        var l;
        ghost var fl;
        l, fl := DeleteAt(nodes[node].left, key, f.left);
        DeleteBalances(t.left, key);
        BalancedReady(t.key, Avl.Delete(t.left, key), t.right);
        HangLeft(node, l, h, f, fl);
        f' := At(node, fl, f.right);
      } else if key > nodes[node].key {
        var q;
        ghost var fr;
        q, fr := DeleteAt(nodes[node].right, key, f.right);
        DeleteBalances(t.right, key);
        BalancedReady(t.key, t.left, Avl.Delete(t.right, key));
        HangRight(node, q, h, f, fr);
        f' := At(node, f.left, fr);
      } else {
        Heights(nodes, f.left);
        Heights(nodes, f.right);
        if nodes[node].left == NIL && nodes[node].right == NIL {
          r, f' := NIL, Nil;
          return;
        } else if nodes[node].left != NIL && nodes[node].right != NIL {
          f' := DeleteBoth(node, f);
        } else {
          ghost var fc := if f.left.At? then f.left else f.right;
          f' := TakeChild(node, if nodes[node].left != NIL then nodes[node].left else nodes[node].right, f, fc);
          BalancedReady(Value(h, fc).key, Value(h, fc).left, Value(h, fc).right);
        }
      }
      r, f' := FixDelete(node, f');
    }

    /** A node with two children takes the smallest key of its right side, which is deleted there. */
    method DeleteBoth(node: Ref, ghost f: Frame) returns (ghost f': Frame)
      requires nodes != [] && Laid(nodes, f) && f.At? && node == f.ref && f.left.At? && f.right.At?
               && Balanced(Value(nodes, f))
      modifies this`nodes
      ensures f'.At? && f'.ref == node && Laid(nodes, f') && Within(old(nodes), nodes, Refs(f))
              && OldOrNew(old(nodes), Refs(f), Refs(f'))
      ensures DeleteReady(Value(nodes, f'))
      ensures var t := old(Value(nodes, f));
              t.right.Node? && Value(nodes, f') == Make(MinKey(t.right), t.left, Avl.Delete(t.right, MinKey(t.right)))
      decreases f, 0
    {
      ghost var h0, t := nodes, Value(nodes, f);
      Heights(nodes, f.right);
      var m := MinimumNode(nodes[node].right, f.right);
      var k := nodes[m].key;
      nodes := nodes[node := nodes[node].(key := k)];
      Untouched(h0, nodes, {node}, f.left);
      Untouched(h0, nodes, {node}, f.right);
      ghost var h := nodes;
      var q;
      ghost var fr;
      q, fr := DeleteAt(nodes[node].right, k, f.right);
      DeleteBalances(t.right, k);
      BalancedReady(k, t.left, Avl.Delete(t.right, k));
      HangRight(node, q, h, f, fr);
      f' := At(node, f.left, fr);
    }

    method SearchAt(node: Ref, key: int, ghost f: Frame) returns (r: Ref)
      requires Laid(nodes, f) && node == Top(f)
      ensures r != NIL <==> Avl.Search(Value(nodes, f), key)
      ensures r != NIL ==> r in Refs(f) && r < |nodes| && nodes[r].key == key
      decreases f
    {
      Heights(nodes, f);
      if node == NIL || nodes[node].key == key {
        r := node;
      } else if key < nodes[node].key {
        r := SearchAt(nodes[node].left, key, f.left);
      } else {
        r := SearchAt(nodes[node].right, key, f.right);
      }
    }

    // ---------------------------------------------------------------- whole trees

    method Insert(key: int)
      requires Valid()
      modifies this
      ensures Valid() && Keys(Contents()) == old(Keys(Contents())) + {key}
      ensures old(Height(Contents())) <= Height(Contents()) <= old(Height(Contents())) + 1
    {
      InsertAdds(Contents(), key);
      InsertBalances(Contents(), key);
      root, frame := InsertAt(root, key, frame);
    }

    method Delete(key: int)
      requires Valid()
      modifies this
      ensures Valid() && Keys(Contents()) == old(Keys(Contents())) - {key}
      ensures old(Height(Contents())) - 1 <= Height(Contents()) <= old(Height(Contents()))
    {
      DeleteTakes(Contents(), key);
      DeleteBalances(Contents(), key);
      root, frame := DeleteAt(root, key, frame);
    }

    method Search(key: int) returns (r: Ref)
      requires Valid()
      ensures r != NIL <==> key in Keys(Contents())
      ensures r != NIL ==> r < |nodes| && nodes[r].key == key
    {
      SearchFinds(Contents(), key);
      r := SearchAt(root, key, frame);
    }

    /** Any sequence of insertions and deletions leaves an ordered and balanced tree of the expected keys. */
    method Run(ops: seq<Op>)
      requires Valid()
      modifies this
      ensures Valid() && Keys(Contents()) == Done(ops, old(Keys(Contents())))
      ensures Height(Contents()) == TrueHeight(Contents()) && Size(Contents()) + 1 >= Fib(TrueHeight(Contents()) + 2)
    {
      for i := 0 to |ops|
        invariant Valid() && Keys(Contents()) == Done(ops[..i], old(Keys(Contents())))
      {
        assert ops[..i + 1][..i] == ops[..i] && ops[..i + 1][i] == ops[i];
        if ops[i].Ins? { Insert(ops[i].key); } else { Delete(ops[i].key); }
      }
      assert ops[..|ops|] == ops;
      StoredIsTrue(Contents());
      FibonacciBound(Contents());
    }
  }

  datatype Op = Ins(key: int) | Del(key: int)

  /** The set of keys after a sequence of operations. */
  function Done(ops: seq<Op>, ks: set<int>): set<int> {
    if ops == [] then ks
    else
      var before := Done(ops[..|ops| - 1], ks);
      var op := ops[|ops| - 1];
      if op.Ins? then before + {op.key} else before - {op.key}
  }
}
