/** The red-black tree with parent links and a shared sentinel, updated in place. */
module RbTree {
  import opened RbModel
  import opened RbHeap
  import opened RbRotate
  import opened RbPaint
  import opened RbFix
  import opened RbSplice
  import opened RbSearch
  import opened RbSteps

  /** One request to the tree. */
  datatype Op = Put(key: int) | Take(key: int)

  /** The set of keys that a sequence of requests leaves. */
  ghost function Outcome(ops: seq<Op>, keys: set<int>): set<int> {
    if ops == [] then keys
    else var before := Outcome(ops[..|ops| - 1], keys);
         match ops[|ops| - 1] case Put(k) => before + {k} case Take(k) => before - {k}
  }

  class RBTree {
    var nodes: Heap
    var root: Ref
    ghost var tree: Tree

    /** The arena holds a red-black search tree. */
    ghost predicate Valid()
      reads this
    {
      Holds(nodes, root, tree, Top) && RedBlack(tree) && ColorOf(tree).Black? && Ascending(Keys(tree))
    }

    ghost function Contents(): set<int>
      reads this
    {
      KeySet(Keys(tree))
    }

    constructor ()
      ensures Valid() && Contents() == {}
    {
      nodes, root := [RBNode(0, Black, NIL, NIL, NIL)], NIL;
      tree := Leaf;
    }

    /** The pointer changes of a left rotation. */
    method RelinkLeft(x: Ref, ghost t: Tree, ghost path: Path)
      requires t.Node? && t.right.Node? && LeftFields(nodes, t, path) && x == t.ref
      modifies this`nodes, this`root
      ensures RotatedLeft(old(nodes), nodes, old(root), root, t, path)
    {
      var y := nodes[x].right;
      nodes := nodes[x := nodes[x].(right := nodes[y].left)];
      if nodes[y].left != NIL {
        nodes := nodes[nodes[y].left := nodes[nodes[y].left].(parent := x)];
      }
      nodes := nodes[y := nodes[y].(parent := nodes[x].parent)];
      if nodes[x].parent == NIL {
        root := y;
      } else if x == nodes[nodes[x].parent].left {
        nodes := nodes[nodes[x].parent := nodes[nodes[x].parent].(left := y)];
      } else {
        nodes := nodes[nodes[x].parent := nodes[nodes[x].parent].(right := y)];
      }
      nodes := nodes[y := nodes[y].(left := x)];
      nodes := nodes[x := nodes[x].(parent := y)];
    }

    method LeftRotate(x: Ref, ghost t: Tree, ghost path: Path)
      requires Holds(nodes, root, t, path) && t.Node? && t.right.Node? && x == t.ref
      modifies this
      ensures Holds(nodes, root, RotateLeft(t), path)
      ensures |nodes| == old(|nodes|) && nodes[NIL] == old(nodes[NIL])
    {
      ghost var h, r := nodes, root;
      FieldsLeft(h, r, t, path);
      RelinkLeft(x, t, path);
      RotatedLeftHolds(h, nodes, r, root, t, path);
    }

    /** The pointer changes of a right rotation. */
    method RelinkRight(y: Ref, ghost t: Tree, ghost path: Path)
      requires t.Node? && t.left.Node? && RightFields(nodes, t, path) && y == t.ref
      modifies this`nodes, this`root
      ensures RotatedRight(old(nodes), nodes, old(root), root, t, path)
    {
      var x := nodes[y].left;
      nodes := nodes[y := nodes[y].(left := nodes[x].right)];
      if nodes[x].right != NIL {
        nodes := nodes[nodes[x].right := nodes[nodes[x].right].(parent := y)];
      }
      nodes := nodes[x := nodes[x].(parent := nodes[y].parent)];
      if nodes[y].parent == NIL {
        root := x;
      } else if y == nodes[nodes[y].parent].left {
        nodes := nodes[nodes[y].parent := nodes[nodes[y].parent].(left := x)];
      } else {
        nodes := nodes[nodes[y].parent := nodes[nodes[y].parent].(right := x)];
      }
      nodes := nodes[x := nodes[x].(right := y)];
      nodes := nodes[y := nodes[y].(parent := x)];
    }

    method RightRotate(y: Ref, ghost t: Tree, ghost path: Path)
      requires Holds(nodes, root, t, path) && t.Node? && t.left.Node? && y == t.ref
      modifies this
      ensures Holds(nodes, root, RotateRight(t), path)
      ensures |nodes| == old(|nodes|) && nodes[NIL] == old(nodes[NIL])
    {
      ghost var h, r := nodes, root;
      FieldsRight(h, r, t, path);
      RelinkRight(y, t, path);
      RotatedRightHolds(h, nodes, r, root, t, path);
    }

    /** The sibling of a left child is red: rotate it above the parent. */
    method RaiseRedRight(x: Ref, w: Ref, ghost t: Tree, ghost path: Path) returns (w': Ref)
      requires Holds(nodes, root, t, path) && Short(t, path) && path.LeftOf? && path.sibling.Node?
               && path.sibling.color.Red?
      requires x == Root(t) && w == path.sibling.ref && x < |nodes| && nodes[x].parent == path.ref
      modifies this
      ensures var path' := RedSibling(path);
              Holds(nodes, root, t, path') && Short(t, path') && path'.sibling.Node? && w' == path'.sibling.ref
      ensures |nodes| == old(|nodes|) && nodes[NIL] == old(nodes[NIL]) && x < |nodes| && nodes[x].parent == path.ref
    {
      RedSiblingKeeps(t, path);
      ghost var h := nodes;
      ghost var path1 := WithSibling(path, Painted(path.sibling, Black));
      PaintSibling(nodes, root, t, path, Black);
      nodes := nodes[w := nodes[w].(color := Black)];
      ghost var path2 := WithColor(path1, Red);
      ParentStays(h, nodes, x, w);
      PaintParent(nodes, root, t, path1, Red);
      ghost var g := nodes;
      nodes := nodes[nodes[x].parent := nodes[nodes[x].parent].(color := Red)];
      ParentStays(g, nodes, x, path.ref);
      FocusUp(nodes, root, t, path2);
      ghost var p := Raised(t, path2);
      LeftRotate(nodes[x].parent, p, path2.up);
      FocusLeft(nodes, root, RotateLeft(p), path2.up);
      FocusLeft(nodes, root, RotateLeft(p).left, RedSibling(path).up);
      SiblingFields(nodes, root, t, RedSibling(path));
      ParentField(nodes, root, t, RedSibling(path));
      w' := nodes[nodes[x].parent].right;
    }

    /** The sibling of a right child is red: rotate it above the parent. */
    method RaiseRedLeft(x: Ref, w: Ref, ghost t: Tree, ghost path: Path) returns (w': Ref)
      requires Holds(nodes, root, t, path) && Short(t, path) && path.RightOf? && path.sibling.Node?
               && path.sibling.color.Red?
      requires x == Root(t) && w == path.sibling.ref && x < |nodes| && nodes[x].parent == path.ref
      modifies this
      ensures var path' := RedSibling(path);
              Holds(nodes, root, t, path') && Short(t, path') && path'.sibling.Node? && w' == path'.sibling.ref
      ensures |nodes| == old(|nodes|) && nodes[NIL] == old(nodes[NIL]) && x < |nodes| && nodes[x].parent == path.ref
    {
      RedSiblingKeeps(t, path);
      ghost var h := nodes;
      ghost var path1 := WithSibling(path, Painted(path.sibling, Black));
      PaintSibling(nodes, root, t, path, Black);
      nodes := nodes[w := nodes[w].(color := Black)];
      ghost var path2 := WithColor(path1, Red);
      ParentStays(h, nodes, x, w);
      PaintParent(nodes, root, t, path1, Red);
      ghost var g := nodes;
      nodes := nodes[nodes[x].parent := nodes[nodes[x].parent].(color := Red)];
      ParentStays(g, nodes, x, path.ref);
      FocusUp(nodes, root, t, path2);
      ghost var p := Raised(t, path2);
      RightRotate(nodes[x].parent, p, path2.up);
      FocusRight(nodes, root, RotateRight(p), path2.up);
      FocusRight(nodes, root, RotateRight(p).right, RedSibling(path).up);
      SiblingFields(nodes, root, t, RedSibling(path));
      ParentField(nodes, root, t, RedSibling(path));
      w' := nodes[nodes[x].parent].left;
    }

    /** The near nephew of a left child is red and the far one black: rotate the near one up. */
    method TurnNearRight(x: Ref, w: Ref, ghost t: Tree, ghost path: Path) returns (w': Ref)
      requires Holds(nodes, root, t, path) && Short(t, path) && path.LeftOf? && NearRed(path)
      requires x == Root(t) && w == path.sibling.ref && x < |nodes| && nodes[x].parent == path.ref
      modifies this
      ensures var path' := NearNephew(path);
              Holds(nodes, root, t, path') && Short(t, path') && FarRed(path') && w' == path'.sibling.ref
      ensures |nodes| == old(|nodes|) && nodes[NIL] == old(nodes[NIL]) && x < |nodes| && nodes[x].parent == path.ref
    {
      NearNephewKeeps(t, path);
      SiblingFields(nodes, root, t, path);
      ghost var path1 := WithSibling(path, path.sibling.(left := Painted(path.sibling.left, Black)));
      PaintLeftNephew(nodes, root, t, path, Black);
      nodes := nodes[nodes[w].left := nodes[nodes[w].left].(color := Black)];
      ghost var path2 := WithSibling(path1, Painted(path1.sibling, Red));
      PaintSibling(nodes, root, t, path1, Red);
      nodes := nodes[w := nodes[w].(color := Red)];
      FocusAcross(nodes, root, t, path2);
      RightRotate(w, path2.sibling, Across(t, path2));
      FocusAcross(nodes, root, RotateRight(path2.sibling), Across(t, path2));
      SiblingFields(nodes, root, t, NearNephew(path));
      ParentField(nodes, root, t, NearNephew(path));
      w' := nodes[nodes[x].parent].right;
    }

    /** The far nephew of a left child is red: one rotation restores the black height everywhere. */
    method FinishFarRight(x: Ref, w: Ref, ghost t: Tree, ghost path: Path)
      requires Holds(nodes, root, t, path) && Short(t, path) && ColorOf(t).Black? && path.LeftOf? && FarRed(path)
      requires x == Root(t) && w == path.sibling.ref && x < |nodes| && nodes[x].parent == path.ref
      modifies this
      ensures Holds(nodes, root, FarNephew(t, path), path.up)
      ensures |nodes| == old(|nodes|) && nodes[NIL] == old(nodes[NIL])
    {
      SiblingFields(nodes, root, t, path);
      ghost var path1 := WithSibling(path, Painted(path.sibling, path.color));
      PaintSibling(nodes, root, t, path, path.color);
      ghost var h := nodes;
      nodes := nodes[w := nodes[w].(color := nodes[nodes[x].parent].color)];
      ParentStays(h, nodes, x, w);
      ghost var path2 := WithColor(path1, Black);
      PaintParent(nodes, root, t, path1, Black);
      ghost var g := nodes;
      nodes := nodes[nodes[x].parent := nodes[nodes[x].parent].(color := Black)];
      ParentStays(g, nodes, x, path.ref);
      SiblingFields(nodes, root, t, path2);
      ghost var path3 := WithSibling(path2, path2.sibling.(right := Painted(path2.sibling.right, Black)));
      PaintRightNephew(nodes, root, t, path2, Black);
      ghost var f := nodes;
      nodes := nodes[nodes[w].right := nodes[nodes[w].right].(color := Black)];
      ParentStays(f, nodes, x, path2.sibling.right.ref);
      FocusUp(nodes, root, t, path3);
      LeftRotate(nodes[x].parent, Raised(t, path3), path3.up);
    }

    /** The nephews of a left child are both black: paint the sibling red and go up. */
    method PassUpLeft(x: Ref, w: Ref, ghost t: Tree, ghost path: Path) returns (x': Ref)
      requires Holds(nodes, root, t, path) && path.LeftOf? && path.sibling.Node?
      requires x == Root(t) && w == path.sibling.ref && x < |nodes| && nodes[x].parent == path.ref
      modifies this
      ensures Holds(nodes, root, PassUp(t, path), path.up) && x' == path.ref
      ensures x' < |nodes| == old(|nodes|) && nodes[x'].parent == ParentRef(path.up)
    {
      PaintSibling(nodes, root, t, path, Red);
      ghost var h := nodes;
      nodes := nodes[w := nodes[w].(color := Red)];
      ParentStays(h, nodes, x, w);
      FocusUp(nodes, root, t, WithSibling(path, Painted(path.sibling, Red)));
      x' := nodes[x].parent;
      ParentField(nodes, root, PassUp(t, path), path.up);
    }

    /** A left child with a red nephew: at most two rotations end the loop. */
    method FixNephewRight(x: Ref, w: Ref, ghost t: Tree, ghost path: Path) returns (ghost t': Tree)
      requires Holds(nodes, root, t, path) && Short(t, path) && ColorOf(t).Black? && path.LeftOf?
      requires NearRed(path) || FarRed(path)
      requires x == Root(t) && w == path.sibling.ref && x < |nodes| && nodes[x].parent == path.ref
      modifies this
      ensures Holds(nodes, root, t', Top) && Short(t', Top) && root == Root(t')
      ensures root < |nodes| == old(|nodes|) && nodes[root].parent == NIL
      ensures AllKeys(t', Top) == AllKeys(t, path)
    {
      SiblingFields(nodes, root, t, path);
      ghost var way := path;
      var v := w;
      if nodes[nodes[w].right].color == Black {
        NearNephewKeys(path);
        v := TurnNearRight(x, w, t, path);
        way := NearNephew(path);
      }
      FarNephewKeeps(t, way);
      FarNephewKeys(t, way);
      FinishFarRight(x, v, t, way);
      ghost var path';
      t', path' := AllRestored(nodes, root, FarNephew(t, way), way.up);
    }

    /** A left child whose sibling is black. */
    method FixBlackRight(x: Ref, w: Ref, ghost t: Tree, ghost path: Path)
        returns (x': Ref, ghost t': Tree, ghost path': Path)
      requires Holds(nodes, root, t, path) && Short(t, path) && ColorOf(t).Black? && path.LeftOf?
      requires path.sibling.Node? && path.sibling.color.Black?
      requires x == Root(t) && w == path.sibling.ref && x < |nodes| && nodes[x].parent == path.ref
      modifies this
      ensures Holds(nodes, root, t', path') && Short(t', path') && x' == Root(t')
      ensures x' < |nodes| == old(|nodes|) && nodes[x'].parent == ParentRef(path')
      ensures AllKeys(t', path') == AllKeys(t, path)
      ensures Rounds(t', path') <= 1 || Rounds(t', path') <= Length(path) - 1 + Blacks(path.color)
    {
      SiblingFields(nodes, root, t, path);
      if nodes[nodes[w].left].color == Black && nodes[nodes[w].right].color == Black {
        PassUpKeeps(t, path);
        PassUpKeys(t, path);
        x' := PassUpLeft(x, w, t, path);
        t', path' := PassUp(t, path), path.up;
      } else {
        t' := FixNephewRight(x, w, t, path);
        x', path' := root, Top;
      }
    }

    /** One round of the deletion loop at a left child. */
    method FixLeftChild(x: Ref, ghost t: Tree, ghost path: Path) returns (x': Ref, ghost t': Tree, ghost path': Path)
      requires Holds(nodes, root, t, path) && Short(t, path) && ColorOf(t).Black? && path.LeftOf?
      requires x == Root(t) && x < |nodes| && nodes[x].parent == path.ref
      modifies this
      ensures Holds(nodes, root, t', path') && Short(t', path') && x' == Root(t')
      ensures x' < |nodes| == old(|nodes|) && nodes[x'].parent == ParentRef(path')
      ensures AllKeys(t', path') == AllKeys(t, path)
      ensures Rounds(t', path') < Rounds(t, path)
    {
      SiblingIsNode(t, path);
      SiblingFields(nodes, root, t, path);
      ghost var way := path;
      var w := nodes[nodes[x].parent].right;
      if nodes[w].color == Red {
        RedSiblingKeeps(t, path);
        RedSiblingKeys(path);
        w := RaiseRedRight(x, w, t, path);
        way := RedSibling(path);
      }
      x', t', path' := FixBlackRight(x, w, t, way);
    }

    /** The near nephew of a right child is red and the far one black: rotate the near one up. */
    method TurnNearLeft(x: Ref, w: Ref, ghost t: Tree, ghost path: Path) returns (w': Ref)
      requires Holds(nodes, root, t, path) && Short(t, path) && path.RightOf? && NearRed(path)
      requires x == Root(t) && w == path.sibling.ref && x < |nodes| && nodes[x].parent == path.ref
      modifies this
      ensures var path' := NearNephew(path);
              Holds(nodes, root, t, path') && Short(t, path') && FarRed(path') && w' == path'.sibling.ref
      ensures |nodes| == old(|nodes|) && nodes[NIL] == old(nodes[NIL]) && x < |nodes| && nodes[x].parent == path.ref
    {
      NearNephewKeeps(t, path);
      SiblingFields(nodes, root, t, path);
      ghost var path1 := WithSibling(path, path.sibling.(right := Painted(path.sibling.right, Black)));
      PaintRightNephew(nodes, root, t, path, Black);
      nodes := nodes[nodes[w].right := nodes[nodes[w].right].(color := Black)];
      ghost var path2 := WithSibling(path1, Painted(path1.sibling, Red));
      PaintSibling(nodes, root, t, path1, Red);
      nodes := nodes[w := nodes[w].(color := Red)];
      FocusAcross(nodes, root, t, path2);
      LeftRotate(w, path2.sibling, Across(t, path2));
      FocusAcross(nodes, root, RotateLeft(path2.sibling), Across(t, path2));
      SiblingFields(nodes, root, t, NearNephew(path));
      ParentField(nodes, root, t, NearNephew(path));
      w' := nodes[nodes[x].parent].left;
    }

    /** The far nephew of a right child is red: one rotation restores the black height everywhere. */
    method FinishFarLeft(x: Ref, w: Ref, ghost t: Tree, ghost path: Path)
      requires Holds(nodes, root, t, path) && Short(t, path) && ColorOf(t).Black? && path.RightOf? && FarRed(path)
      requires x == Root(t) && w == path.sibling.ref && x < |nodes| && nodes[x].parent == path.ref
      modifies this
      ensures Holds(nodes, root, FarNephew(t, path), path.up)
      ensures |nodes| == old(|nodes|) && nodes[NIL] == old(nodes[NIL])
    {
      SiblingFields(nodes, root, t, path);
      ghost var path1 := WithSibling(path, Painted(path.sibling, path.color));
      PaintSibling(nodes, root, t, path, path.color);
      ghost var h := nodes;
      nodes := nodes[w := nodes[w].(color := nodes[nodes[x].parent].color)];
      ParentStays(h, nodes, x, w);
      ghost var path2 := WithColor(path1, Black);
      PaintParent(nodes, root, t, path1, Black);
      ghost var g := nodes;
      nodes := nodes[nodes[x].parent := nodes[nodes[x].parent].(color := Black)];
      ParentStays(g, nodes, x, path.ref);
      SiblingFields(nodes, root, t, path2);
      ghost var path3 := WithSibling(path2, path2.sibling.(left := Painted(path2.sibling.left, Black)));
      PaintLeftNephew(nodes, root, t, path2, Black);
      ghost var f := nodes;
      nodes := nodes[nodes[w].left := nodes[nodes[w].left].(color := Black)];
      ParentStays(f, nodes, x, path2.sibling.left.ref);
      FocusUp(nodes, root, t, path3);
      RightRotate(nodes[x].parent, Raised(t, path3), path3.up);
    }

    /** The nephews of a right child are both black: paint the sibling red and go up. */
    method PassUpRight(x: Ref, w: Ref, ghost t: Tree, ghost path: Path) returns (x': Ref)
      requires Holds(nodes, root, t, path) && path.RightOf? && path.sibling.Node?
      requires x == Root(t) && w == path.sibling.ref && x < |nodes| && nodes[x].parent == path.ref
      modifies this
      ensures Holds(nodes, root, PassUp(t, path), path.up) && x' == path.ref
      ensures x' < |nodes| == old(|nodes|) && nodes[x'].parent == ParentRef(path.up)
    {
      PaintSibling(nodes, root, t, path, Red);
      ghost var h := nodes;
      nodes := nodes[w := nodes[w].(color := Red)];
      ParentStays(h, nodes, x, w);
      FocusUp(nodes, root, t, WithSibling(path, Painted(path.sibling, Red)));
      x' := nodes[x].parent;
      ParentField(nodes, root, PassUp(t, path), path.up);
    }

    /** A right child with a red nephew: at most two rotations end the loop. */
    method FixNephewLeft(x: Ref, w: Ref, ghost t: Tree, ghost path: Path) returns (ghost t': Tree)
      requires Holds(nodes, root, t, path) && Short(t, path) && ColorOf(t).Black? && path.RightOf?
      requires NearRed(path) || FarRed(path)
      requires x == Root(t) && w == path.sibling.ref && x < |nodes| && nodes[x].parent == path.ref
      modifies this
      ensures Holds(nodes, root, t', Top) && Short(t', Top) && root == Root(t')
      ensures root < |nodes| == old(|nodes|) && nodes[root].parent == NIL
      ensures AllKeys(t', Top) == AllKeys(t, path)
    {
      SiblingFields(nodes, root, t, path);
      ghost var way := path;
      var v := w;
      if nodes[nodes[w].left].color == Black {
        NearNephewKeys(path);
        v := TurnNearLeft(x, w, t, path);
        way := NearNephew(path);
      }
      FarNephewKeeps(t, way);
      FarNephewKeys(t, way);
      FinishFarLeft(x, v, t, way);
      ghost var path';
      t', path' := AllRestored(nodes, root, FarNephew(t, way), way.up);
    }

    /** A right child whose sibling is black. */
    method FixBlackLeft(x: Ref, w: Ref, ghost t: Tree, ghost path: Path)
        returns (x': Ref, ghost t': Tree, ghost path': Path)
      requires Holds(nodes, root, t, path) && Short(t, path) && ColorOf(t).Black? && path.RightOf?
      requires path.sibling.Node? && path.sibling.color.Black?
      requires x == Root(t) && w == path.sibling.ref && x < |nodes| && nodes[x].parent == path.ref
      modifies this
      ensures Holds(nodes, root, t', path') && Short(t', path') && x' == Root(t')
      ensures x' < |nodes| == old(|nodes|) && nodes[x'].parent == ParentRef(path')
      ensures AllKeys(t', path') == AllKeys(t, path)
      ensures Rounds(t', path') <= 1 || Rounds(t', path') <= Length(path) - 1 + Blacks(path.color)
    {
      SiblingFields(nodes, root, t, path);
      if nodes[nodes[w].right].color == Black && nodes[nodes[w].left].color == Black {
        PassUpKeeps(t, path);
        PassUpKeys(t, path);
        x' := PassUpRight(x, w, t, path);
        t', path' := PassUp(t, path), path.up;
      } else {
        t' := FixNephewLeft(x, w, t, path);
        x', path' := root, Top;
      }
    }

    /** One round of the deletion loop at a right child. */
    method FixRightChild(x: Ref, ghost t: Tree, ghost path: Path) returns (x': Ref, ghost t': Tree, ghost path': Path)
      requires Holds(nodes, root, t, path) && Short(t, path) && ColorOf(t).Black? && path.RightOf?
      requires x == Root(t) && x < |nodes| && nodes[x].parent == path.ref
      modifies this
      ensures Holds(nodes, root, t', path') && Short(t', path') && x' == Root(t')
      ensures x' < |nodes| == old(|nodes|) && nodes[x'].parent == ParentRef(path')
      ensures AllKeys(t', path') == AllKeys(t, path)
      ensures Rounds(t', path') < Rounds(t, path)
    {
      SiblingIsNode(t, path);
      SiblingFields(nodes, root, t, path);
      ghost var way := path;
      var w := nodes[nodes[x].parent].left;
      if nodes[w].color == Red {
        RedSiblingKeeps(t, path);
        RedSiblingKeys(path);
        w := RaiseRedLeft(x, w, t, path);
        way := RedSibling(path);
      }
      x', t', path' := FixBlackLeft(x, w, t, way);
    }

    /** Restore the black height from a subtree that is one black short, up to the root. */
    method DeleteFixup(x0: Ref, ghost t0: Tree, ghost path0: Path) returns (ghost t: Tree)
      requires Holds(nodes, root, t0, path0) && Short(t0, path0)
      requires x0 == Root(t0) && x0 < |nodes| && nodes[x0].parent == ParentRef(path0)
      modifies this
      ensures Holds(nodes, root, t, Top) && RedBlack(t) && ColorOf(t).Black?
      ensures Keys(t) == AllKeys(t0, path0)
      ensures |nodes| == old(|nodes|)
    {
      var x := x0;
      t := t0;
      ghost var path := path0;
      ColorField(nodes, root, t, path);
      while x != root && nodes[x].color == Black
        invariant Holds(nodes, root, t, path) && Short(t, path) && x == Root(t)
        invariant x < |nodes| == old(|nodes|) && nodes[x].parent == ParentRef(path) && nodes[x].color == ColorOf(t)
        invariant AllKeys(t, path) == AllKeys(t0, path0)
        decreases Rounds(t, path)
      {
        AtRoot(nodes, root, t, path);
        SiblingIsNode(t, path);
        SiblingFields(nodes, root, t, path);
        if x == nodes[nodes[x].parent].left {
          x, t, path := FixLeftChild(x, t, path);
        } else {
          x, t, path := FixRightChild(x, t, path);
        }
        ColorField(nodes, root, t, path);
      }
      AtRoot(nodes, root, t, path);
      ghost var h := nodes;
      nodes := nodes[x := nodes[x].(color := Black)];
      t := BlackFocus(h, nodes, root, t, path);
    }

    /** Hang `v` where `u` hangs. */
    method Transplant(u: Ref, v: Ref, ghost path: Path)
      requires u < |nodes| && v < |nodes| && nodes[u].parent == ParentRef(path)
      requires !path.Top? ==> 0 < path.ref < |nodes| && v != path.ref && u != path.ref
      requires path.LeftOf? ==> nodes[path.ref].left == u
      requires path.RightOf? ==> nodes[path.ref].left != u
      modifies this
      ensures nodes == Transplanted(old(nodes), v, path)
      ensures root == if path.Top? then v else old(root)
    {
      if nodes[u].parent == NIL {
        root := v;
      } else if u == nodes[nodes[u].parent].left {
        nodes := nodes[nodes[u].parent := nodes[nodes[u].parent].(left := v)];
      } else {
        nodes := nodes[nodes[u].parent := nodes[nodes[u].parent].(right := v)];
      }
      nodes := nodes[v := nodes[v].(parent := nodes[u].parent)];
    }

    /** The leftmost node below `x`. */
    method TreeMinimum(x: Ref, ghost t: Tree, ghost base: Path) returns (y: Ref, ghost m: Tree, ghost rel: Path)
      requires Holds(nodes, root, t, base) && t.Node? && x == t.ref
      ensures m.Node? && m.left.Leaf? && y == m.ref && OnlyLeft(rel) && Zip(m, rel) == t
      ensures Holds(nodes, root, m, Append(rel, base))
      ensures y < |nodes| && Keys(t) != [] && nodes[y].key == Keys(t)[0]
    {
      y, m, rel := x, t, Top;
      while nodes[y].left != NIL
        invariant m.Node? && y == m.ref && y < |nodes| && OnlyLeft(rel) && Zip(m, rel) == t
        invariant Holds(nodes, root, m, Append(rel, base))
        decreases m
      {
        FocusLeft(nodes, root, m, Append(rel, base));
        rel := LeftOf(m.ref, m.color, m.key, m.right, rel);
        y, m := nodes[y].left, m.left;
      }
      assert Rep(nodes, m.left, m.ref);
      FirstKey(m, rel);
    }

    /** `y`, whose right side is in place, takes the place, left side and colour of `z`. */
    method TakePlace(z: Ref, y: Ref, ghost c: Color, ghost l: Tree, ghost k: int, ghost r: Tree, ghost path: Path)
      requires NilOk(nodes) && 0 < z < |nodes| && 0 < y < |nodes| && z != y
      requires nodes[z].left == Root(l) && nodes[z].color == c && nodes[z].parent == ParentRef(path)
      requires nodes[y].right == Root(r) && nodes[y].key == k
      requires l.Node? && 0 < l.ref < |nodes| && l.ref != y && l.ref != z && l.ref != Root(r)
      requires r.Node? ==> 0 < r.ref < |nodes| && nodes[r.ref].parent == y && r.ref != y && r.ref != z
      requires !path.Top? ==>
                 0 < path.ref < |nodes| && path.ref != y && path.ref != z && path.ref != l.ref && path.ref != Root(r)
      requires path.LeftOf? ==> nodes[path.ref].left == z
      requires path.RightOf? ==> nodes[path.ref].left != z
      modifies this
      ensures nodes == PlaceTaken(old(nodes), y, RBNode(k, c, l.ref, Root(r), ParentRef(path)), l.ref, path)
      ensures root == if path.Top? then y else old(root)
    {
      ghost var h := nodes;
      Transplant(z, y, path);
      assert nodes[z] == h[z] && nodes[y] == h[y].(parent := ParentRef(path)) && nodes[l.ref] == h[l.ref];
      nodes := nodes[y := nodes[y].(left := nodes[z].left)];
      nodes := nodes[nodes[y].left := nodes[nodes[y].left].(parent := y)];
      nodes := nodes[y := nodes[y].(color := nodes[z].color)];
    }

    /** The successor is the right child: it moves up into the place of `z`. */
    method PullUpChild(z: Ref, y: Ref, ghost t: Tree, ghost path: Path, ghost m: Tree)
      requires Successor(nodes, root, t, path, m, Top) && z == t.ref && y == m.ref && t.left.Node?
      modifies this
      ensures Holds(nodes, root, Node(m.ref, t.color, t.left, m.key, m.right), path)
      ensures |nodes| == old(|nodes|) && Root(m.right) < |nodes| && nodes[Root(m.right)].parent == m.ref
    {
      ghost var h, r := nodes, root;
      SuccessorFields(h, r, t, path, m, Top);
      var x := nodes[y].right;
      nodes := nodes[x := nodes[x].(parent := y)];
      ghost var g := nodes;
      TakePlace(z, y, t.color, t.left, m.key, m.right, path);
      PlaceTakenSeated(g, r, y, t.color, t.left, m.key, m.right, path);
      SeatChild(h, nodes, r, root, t, path, m);
    }

    /** A node apart from the tree takes the place of `z`, with both its sides. */
    method SeatApart(z: Ref, y: Ref, ghost t: Tree, ghost path: Path, ghost m: Tree, ghost r: Tree)
      requires Detached(nodes, root, t, path, m, r) && z == t.ref && y == m.ref
      modifies this
      ensures Holds(nodes, root, Node(m.ref, t.color, t.left, m.key, r), path)
      ensures |nodes| == old(|nodes|) && nodes[NIL] == old(nodes[NIL])
    {
      ghost var h1, q := nodes, root;
      nodes := nodes[y := nodes[y].(right := nodes[z].right)];
      nodes := nodes[nodes[y].right := nodes[nodes[y].right].(parent := y)];
      ghost var h2 := nodes;
      TakePlace(z, y, t.color, t.left, m.key, r, path);
      PlaceTakenSeated(h2, q, y, t.color, t.left, m.key, r, path);
      SeatDeep(h1, h2, nodes, q, root, t, path, m, r);
    }

    /** The successor is deeper: its right side replaces it, then it takes the place of `z`. */
    method PullUpDeep(z: Ref, y: Ref, ghost t: Tree, ghost path: Path, ghost m: Tree, ghost rel: Path)
      requires Successor(nodes, root, t, path, m, rel) && !rel.Top? && z == t.ref && y == m.ref && t.left.Node?
      modifies this
      ensures Holds(nodes, root, Node(m.ref, t.color, t.left, m.key, Zip(m.right, rel)), path)
      ensures |nodes| == old(|nodes|) && nodes[NIL].parent == if m.right.Leaf? then rel.ref else old(nodes[NIL].parent)
    {
      ghost var h, r := nodes, root;
      ghost var way := Append(rel, RightOf(t.ref, t.color, t.key, t.left, path));
      SuccessorFields(h, r, t, path, m, rel);
      SideOfParent(h, r, m, way);
      WithoutSuccessor(h, r, t, path, m, rel);
      TransplantChild(h, r, m, m.right, way);
      Transplant(y, nodes[y].right, way);
      SeatApart(z, y, t, path, m, Zip(m.right, rel));
    }

    /** Take `z` out of the tree; `x` is the subtree that moved up in place of the node removed. */
    method Splice(z: Ref, ghost t: Tree, ghost path: Path)
        returns (x: Ref, removed: Color, ghost u: Tree, ghost way: Path)
      requires Holds(nodes, root, t, path) && t.Node? && z == t.ref
      requires RedBlack(Zip(t, path)) && ColorOf(Zip(t, path)).Black?
      modifies this
      ensures Holds(nodes, root, u, way) && x == Root(u) && x < |nodes| && nodes[x].parent == ParentRef(way)
      ensures AllKeys(u, way) == KeysBefore(path) + Keys(t.left) + Keys(t.right) + KeysAfter(path)
      ensures removed == Black ==> Short(u, way)
      ensures removed == Red ==> RedBlack(Zip(u, way)) && ColorOf(Zip(u, way)).Black?
    {
      UnzipRedBlack(t, path);
      ghost var h, r := nodes, root;
      SideOfParent(h, r, t, path);
      ParentField(h, r, t, path);
      removed := nodes[z].color;
      if nodes[z].left == NIL {
        LeafField(h, r, t, path);
        TransplantChild(h, r, t, t.right, path);
        SideApart(h, r, t, t.right, path);
        x := nodes[z].right;
        Transplant(z, nodes[z].right, path);
        u, way := t.right, path;
        OneChild(t, path, u);
        OneChildKeys(t, path, u);
      } else if nodes[z].right == NIL {
        LeafField(h, r, t, path);
        TransplantChild(h, r, t, t.left, path);
        SideApart(h, r, t, t.left, path);
        x := nodes[z].left;
        Transplant(z, nodes[z].left, path);
        u, way := t.left, path;
        OneChild(t, path, u);
        OneChildKeys(t, path, u);
      } else {
        LeafField(h, r, t, path);
        x, removed, u, way := SpliceTwo(z, t, path);
      }
    }

    /** `z` has two children: its successor is taken out and put in its place. */
    method SpliceTwo(z: Ref, ghost t: Tree, ghost path: Path)
        returns (x: Ref, removed: Color, ghost u: Tree, ghost way: Path)
      requires Holds(nodes, root, t, path) && t.Node? && z == t.ref && t.left.Node? && t.right.Node?
      requires RedBlack(Zip(t, path)) && ColorOf(Zip(t, path)).Black?
      modifies this
      ensures Holds(nodes, root, u, way) && x == Root(u) && x < |nodes| && nodes[x].parent == ParentRef(way)
      ensures AllKeys(u, way) == KeysBefore(path) + Keys(t.left) + Keys(t.right) + KeysAfter(path)
      ensures removed == Black ==> Short(u, way)
      ensures removed == Red ==> RedBlack(Zip(u, way)) && ColorOf(Zip(u, way)).Black?
    {
      ghost var base := RightOf(t.ref, t.color, t.key, t.left, path);
      FocusRight(nodes, root, t, path);
      var y;
      ghost var m, rel;
      y, m, rel := TreeMinimum(nodes[z].right, t.right, base);
      SuccessorFields(nodes, root, t, path, m, rel);
      removed := nodes[y].color;
      x := nodes[y].right;
      SuccessorParent(nodes, root, t, path, m, rel);
      if nodes[y].parent == z {
        PullUpChild(z, y, t, path, m);
      } else {
        PullUpDeep(z, y, t, path, m, rel);
      }
      u, way := m.right, Append(rel, RightOf(m.ref, t.color, m.key, t.left, path));
      Landed(nodes, root, t, path, m, rel);
      TwoChildren(t, path, m, rel);
      TwoChildrenKeys(t, path, m, rel);
    }

    /** The node with a given key, or the sentinel; the way down is at most twice as long as a perfect tree's. */
    method Search(key: int) returns (x: Ref, ghost t: Tree, ghost path: Path)
      requires Valid()
      ensures x != NIL <==> key in Contents()
      ensures Holds(nodes, root, t, path) && Zip(t, path) == tree && x == Root(t)
      ensures x != NIL ==> t.Node? && t.key == key && x < |nodes| && nodes[x].key == key
      ensures Shallow(Length(path), |Keys(tree)|)
    {
      x := root;
      t, path := tree, Top;
      LookFields(nodes, root, t, path, tree, key);
      while x != NIL && nodes[x].key != key
        invariant Looking(nodes, root, t, path, tree, key) && x == Root(t) && x < |nodes|
        invariant (x == NIL <==> t.Leaf?) && (t.Node? ==> nodes[x].key == t.key)
        decreases t
      {
        LookFields(nodes, root, t, path, tree, key);
        if key < nodes[x].key {
          DownLeft(nodes, root, t, path, tree, key);
          x := nodes[x].left;
          t, path := t.left, LeftOf(t.ref, t.color, t.key, t.right, path);
        } else {
          DownRight(nodes, root, t, path, tree, key);
          x := nodes[x].right;
          t, path := t.right, RightOf(t.ref, t.color, t.key, t.left, path);
        }
        LookFields(nodes, root, t, path, tree, key);
      }
      if x == NIL { Absent(path, key); } else { Present(t, path); }
      ShallowPath(t, path);
    }

    /** Take a key out; a key that is not there changes nothing. */
    method Delete(key: int)
      requires Valid()
      modifies this
      ensures Valid() && Contents() == old(Contents()) - {key}
      ensures key !in old(Contents()) ==> nodes == old(nodes) && root == old(root)
    {
      var z;
      ghost var t, path;
      z, t, path := Search(key);
      if z == NIL { return; }
      OneLessAt(t, path);
      var x, removed;
      ghost var u, way;
      x, removed, u, way := Splice(z, t, path);
      if removed == Black {
        tree := DeleteFixup(x, u, way);
      } else {
        FocusTop(nodes, root, u, way);
        ZipKeys(u, way);
        tree := Zip(u, way);
      }
    }

    /** The uncle is red: the parent and uncle turn black, the grandparent red. */
    method RaiseRed(z: Ref, y: Ref, ghost t: Tree, ghost path: Path) returns (z': Ref)
      requires Holds(nodes, root, t, path) && Clash(t, path) && PathColor(path).Red? && !path.up.Top?
               && ColorOf(path.up.sibling).Red?
      requires z == t.ref && y == path.up.sibling.ref
      modifies this
      ensures Holds(nodes, root, RedUncle(t, path), path.up.up) && z' == path.up.ref
      ensures |nodes| == old(|nodes|)
    {
      ClashFields(nodes, root, t, path);
      ghost var path1 := WithColor(path, Black);
      PaintParent(nodes, root, t, path, Black);
      FocusUp(PaintedHeap(nodes, path.ref, Black), root, t, path1);
      ghost var h0 := nodes;
      nodes := nodes[nodes[z].parent := nodes[nodes[z].parent].(color := Black)];
      ParentStays(h0, nodes, z, path.ref);
      ParentStays(h0, nodes, path.ref, path.ref);
      ghost var p := Raised(t, path1);
      PaintSibling(nodes, root, p, path.up, Black);
      ghost var h1 := nodes;
      nodes := nodes[y := nodes[y].(color := Black)];
      ParentStays(h1, nodes, z, y);
      ParentStays(h1, nodes, path.ref, y);
      ghost var up1 := WithSibling(path.up, Painted(path.up.sibling, Black));
      PaintParent(nodes, root, p, up1, Red);
      ghost var h2 := nodes;
      nodes := nodes[nodes[nodes[z].parent].parent := nodes[nodes[nodes[z].parent].parent].(color := Red)];
      ParentStays(h2, nodes, z, path.up.ref);
      ParentStays(h2, nodes, path.ref, path.up.ref);
      FocusUp(nodes, root, p, WithColor(up1, Red));
      z' := nodes[nodes[z].parent].parent;
    }

    /** An inner grandchild on the left: its parent becomes the outer one. */
    method TurnOutLeft(z: Ref, ghost t: Tree, ghost path: Path) returns (z': Ref)
      requires Holds(nodes, root, t, path) && Clash(t, path) && path.RightOf? && z == t.ref
      modifies this
      ensures var (u, out) := TurnedOut(t, path); Holds(nodes, root, u, out) && z' == u.ref
      ensures |nodes| == old(|nodes|)
    {
      ClashFields(nodes, root, t, path);
      FocusUp(nodes, root, t, path);
      z' := nodes[z].parent;
      LeftRotate(z', Raised(t, path), path.up);
      FocusLeft(nodes, root, RotateLeft(Raised(t, path)), path.up);
    }

    /** An inner grandchild on the right. */
    method TurnOutRight(z: Ref, ghost t: Tree, ghost path: Path) returns (z': Ref)
      requires Holds(nodes, root, t, path) && Clash(t, path) && path.LeftOf? && z == t.ref
      modifies this
      ensures var (u, out) := TurnedOut(t, path); Holds(nodes, root, u, out) && z' == u.ref
      ensures |nodes| == old(|nodes|)
    {
      ClashFields(nodes, root, t, path);
      FocusUp(nodes, root, t, path);
      z' := nodes[z].parent;
      RightRotate(z', Raised(t, path), path.up);
      FocusRight(nodes, root, RotateRight(Raised(t, path)), path.up);
    }

    /** The parent of an outer grandchild turns black, the grandparent red. */
    method SwapColors(z: Ref, ghost t: Tree, ghost path: Path) returns (g: Ref)
      requires Holds(nodes, root, t, path) && Clash(t, path) && PathColor(path).Red? && !path.up.Top? && z == t.ref
      modifies this
      ensures Holds(nodes, root, Raised(Raised(t, WithColor(path, Black)), WithColor(path.up, Red)), path.up.up)
      ensures g == path.up.ref && |nodes| == old(|nodes|)
    {
      ClashFields(nodes, root, t, path);
      PaintParent(nodes, root, t, path, Black);
      ghost var h0 := nodes;
      nodes := nodes[nodes[z].parent := nodes[nodes[z].parent].(color := Black)];
      ParentStays(h0, nodes, z, path.ref);
      ParentStays(h0, nodes, path.ref, path.ref);
      ghost var p := Raised(t, WithColor(path, Black));
      FocusUp(nodes, root, t, WithColor(path, Black));
      PaintParent(nodes, root, p, path.up, Red);
      ghost var h1 := nodes;
      nodes := nodes[nodes[nodes[z].parent].parent := nodes[nodes[nodes[z].parent].parent].(color := Red)];
      ParentStays(h1, nodes, z, path.up.ref);
      ParentStays(h1, nodes, path.ref, path.up.ref);
      FocusUp(nodes, root, p, WithColor(path.up, Red));
      g := nodes[nodes[z].parent].parent;
    }

    method RebalanceRight(z: Ref, ghost t: Tree, ghost path: Path)
      requires Holds(nodes, root, t, path) && Clash(t, path) && PathColor(path).Red? && path.LeftOf?
               && path.up.LeftOf? && z == t.ref
      modifies this
      ensures Holds(nodes, root, t, Rebalanced(path))
      ensures |nodes| == old(|nodes|)
    {
      var g := SwapColors(z, t, path);
      ghost var whole := Raised(Raised(t, WithColor(path, Black)), WithColor(path.up, Red));
      RightRotate(g, whole, path.up.up);
      FocusLeft(nodes, root, RotateRight(whole), path.up.up);
    }

    method RebalanceLeft(z: Ref, ghost t: Tree, ghost path: Path)
      requires Holds(nodes, root, t, path) && Clash(t, path) && PathColor(path).Red? && path.RightOf?
               && path.up.RightOf? && z == t.ref
      modifies this
      ensures Holds(nodes, root, t, Rebalanced(path))
      ensures |nodes| == old(|nodes|)
    {
      var g := SwapColors(z, t, path);
      ghost var whole := Raised(Raised(t, WithColor(path, Black)), WithColor(path.up, Red));
      LeftRotate(g, whole, path.up.up);
      FocusRight(nodes, root, RotateLeft(whole), path.up.up);
    }

    /** One round of the insertion loop whose parent is a left child. */
    method FixLeftParent(z: Ref, ghost t: Tree, ghost path: Path) returns (z': Ref, ghost t': Tree, ghost path': Path)
      requires Holds(nodes, root, t, path) && Clash(t, path) && PathColor(path).Red? && path.up.LeftOf? && z == t.ref
      modifies this
      ensures Holds(nodes, root, t', path') && Clash(t', path') && z' == t'.ref
      ensures AllKeys(t', path') == AllKeys(t, path) && |nodes| == old(|nodes|)
      ensures PathColor(path').Black? || Length(path') < Length(path)
    {
      ClashFields(nodes, root, t, path);
      var y := nodes[nodes[nodes[z].parent].parent].right;
      if nodes[y].color == Red {
        RedUncleKeeps(t, path);
        RedUncleKeys(t, path);
        z' := RaiseRed(z, y, t, path);
        t', path' := RedUncle(t, path), path.up.up;
      } else {
        z', t', path' := z, t, path;
        if z == nodes[nodes[z].parent].right {
          TurnedOutKeeps(t, path);
          TurnedOutKeys(t, path);
          z' := TurnOutLeft(z, t, path);
          t', path' := TurnedOut(t, path).0, TurnedOut(t, path).1;
        }
        RebalancedKeeps(t', path');
        RebalancedKeys(path');
        RebalanceRight(z', t', path');
        path' := Rebalanced(path');
      }
    }

    /** One round of the insertion loop whose parent is a right child. */
    method FixRightParent(z: Ref, ghost t: Tree, ghost path: Path) returns (z': Ref, ghost t': Tree, ghost path': Path)
      requires Holds(nodes, root, t, path) && Clash(t, path) && PathColor(path).Red? && path.up.RightOf? && z == t.ref
      modifies this
      ensures Holds(nodes, root, t', path') && Clash(t', path') && z' == t'.ref
      ensures AllKeys(t', path') == AllKeys(t, path) && |nodes| == old(|nodes|)
      ensures PathColor(path').Black? || Length(path') < Length(path)
    {
      ClashFields(nodes, root, t, path);
      var y := nodes[nodes[nodes[z].parent].parent].left;
      if nodes[y].color == Red {
        RedUncleKeeps(t, path);
        RedUncleKeys(t, path);
        z' := RaiseRed(z, y, t, path);
        t', path' := RedUncle(t, path), path.up.up;
      } else {
        z', t', path' := z, t, path;
        if z == nodes[nodes[z].parent].left {
          TurnedOutKeeps(t, path);
          TurnedOutKeys(t, path);
          z' := TurnOutRight(z, t, path);
          t', path' := TurnedOut(t, path).0, TurnedOut(t, path).1;
        }
        RebalancedKeeps(t', path');
        RebalancedKeys(path');
        RebalanceLeft(z', t', path');
        path' := Rebalanced(path');
      }
    }

    /** Clear a red node under a red parent, going up at most to the root. */
    method InsertFixup(z0: Ref, ghost t0: Tree, ghost path0: Path) returns (ghost t: Tree)
      requires Holds(nodes, root, t0, path0) && Clash(t0, path0) && z0 == t0.ref
      modifies this
      ensures Holds(nodes, root, t, Top) && RedBlack(t) && ColorOf(t).Black?
      ensures Keys(t) == AllKeys(t0, path0)
      ensures |nodes| == old(|nodes|)
    {
      var z := z0;
      t := t0;
      ghost var path := path0;
      ClashFields(nodes, root, t, path);
      while nodes[nodes[z].parent].color == Red
        invariant Holds(nodes, root, t, path) && Clash(t, path) && z == t.ref && |nodes| == old(|nodes|)
        invariant z < |nodes| && nodes[z].parent < |nodes| && nodes[nodes[z].parent].color == PathColor(path)
        invariant AllKeys(t, path) == AllKeys(t0, path0)
        decreases if PathColor(path).Red? then Length(path) else 0
      {
        ClashFields(nodes, root, t, path);
        if nodes[z].parent == nodes[nodes[nodes[z].parent].parent].left {
          z, t, path := FixLeftParent(z, t, path);
        } else {
          z, t, path := FixRightParent(z, t, path);
        }
        ClashFields(nodes, root, t, path);
      }
      RootInRange(nodes, root, t, path);
      ghost var h := nodes;
      nodes := nodes[root := nodes[root].(color := Black)];
      t := BlackRoot(h, nodes, root, t, path);
    }

    /** The empty place where a key belongs, and the node above it, unless the key is there already. */
    method FindPlace(key: int) returns (y: Ref, found: bool, ghost path: Path)
      requires Valid()
      ensures found <==> key in Contents()
      ensures !found ==> Looking(nodes, root, Leaf, path, tree, key) && y == ParentRef(path)
    {
      y, found := NIL, false;
      var x := root;
      ghost var t := tree;
      path := Top;
      LookFields(nodes, root, t, path, tree, key);
      while x != NIL
        invariant Looking(nodes, root, t, path, tree, key) && x == Root(t) && x < |nodes|
        invariant y == ParentRef(path) && !found && (x == NIL <==> t.Leaf?)
        decreases t
      {
        LookFields(nodes, root, t, path, tree, key);
        y := x;
        if key < nodes[x].key {
          DownLeft(nodes, root, t, path, tree, key);
          x := nodes[x].left;
          t, path := t.left, LeftOf(t.ref, t.color, t.key, t.right, path);
        } else if key > nodes[x].key {
          DownRight(nodes, root, t, path, tree, key);
          x := nodes[x].right;
          t, path := t.right, RightOf(t.ref, t.color, t.key, t.left, path);
        } else {
          Present(t, path);
          found := true;
          return;
        }
        LookFields(nodes, root, t, path, tree, key);
      }
      Absent(path, key);
    }

    /** Hang the fresh node `z` under `y`. */
    method Hang(z: Ref, y: Ref, ghost path: Path)
      requires 0 < z < |nodes| && z !in PathRefs(path)
      requires Looking(nodes, root, Leaf, path, tree, nodes[z].key) && y == ParentRef(path)
      modifies this`nodes, this`root
      ensures Holds(nodes, root, Node(z, Red, Leaf, old(nodes[z].key), Leaf), path)
    {
      ghost var h, r := nodes, root;
      var key := nodes[z].key;
      HungHolds(h, r, z, key, path);
      SideByKey(h, r, path, tree, key);
      nodes := nodes[z := nodes[z].(parent := y)];
      if y == NIL {
        root := z;
      } else if key < nodes[y].key {
        nodes := nodes[y := nodes[y].(left := z)];
      } else {
        nodes := nodes[y := nodes[y].(right := z)];
      }
      nodes := nodes[z := nodes[z].(left := NIL, right := NIL, color := Red)];
      assert nodes == Hung(h, z, key, path);
    }

    /** Put a key in; a key that is there already changes nothing. */
    method Insert(key: int)
      requires Valid()
      modifies this
      ensures Valid() && Contents() == old(Contents()) + {key}
      ensures key in old(Contents()) ==> nodes == old(nodes) && root == old(root)
    {
      var z := |nodes|;
      ghost var h := nodes;
      Grown(nodes, root, tree, Top, RBNode(key, Red, NIL, NIL, NIL));
      nodes := nodes + [RBNode(key, Red, NIL, NIL, NIL)];
      var y, found;
      ghost var path;
      y, found, path := FindPlace(key);
      if found {
        nodes := nodes[..z];
        return;
      }
      RefsOnWay(Leaf, path);
      OneMoreAt(path, z, key);
      ghost var t := Node(z, Red, Leaf, key, Leaf);
      ZipsLeaf(path, tree);
      Hang(z, y, path);
      tree := InsertFixup(z, t, path);
    }

    /** Any run of insertions and deletions: the tree is a red-black search tree of the keys that are left. */
    method Run(ops: seq<Op>)
      requires Valid()
      modifies this
      ensures Valid() && Contents() == Outcome(ops, old(Contents()))
      ensures Shallow(Height(tree), |Keys(tree)|)
    {
      for i := 0 to |ops|
        invariant Valid() && Contents() == Outcome(ops[..i], old(Contents()))
      {
        assert ops[..i + 1][..i] == ops[..i];
        match ops[i] {
          case Put(k) => Insert(k);
          case Take(k) => Delete(k);
        }
      }
      assert ops[..|ops|] == ops;
      HeightBound(tree);
    }
  }
}
