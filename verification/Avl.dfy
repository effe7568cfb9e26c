/** The AVL tree with stored heights: insertion and deletion with rotations, as functions on trees. */
module Avl {

  datatype Tree = Empty | Node(key: int, left: Tree, right: Tree, height: int)

  /** The stored height. */
  function Height(t: Tree): int {
    if t.Empty? then 0 else t.height
  }

  function Max(a: int, b: int): int {
    if a > b then a else b
  }

  /** A node whose height field is computed from its children's. */
  function Make(key: int, left: Tree, right: Tree): Tree {
    Node(key, left, right, 1 + Max(Height(left), Height(right)))
  }

  function Balance(t: Tree): int {
    if t.Empty? then 0 else Height(t.left) - Height(t.right)
  }

  function RightRotate(y: Tree): Tree
    requires y.Node? && y.left.Node?
  {
    Make(y.left.key, y.left.left, Make(y.key, y.left.right, y.right))
  }

  function LeftRotate(x: Tree): Tree
    requires x.Node? && x.right.Node?
  {
    Make(x.right.key, Make(x.key, x.left, x.right.left), x.right.right)
  }

  function Insert(t: Tree, key: int): Tree {
    if t.Empty? then Node(key, Empty, Empty, 1)
    else if key < t.key then InsertFix(Make(t.key, Insert(t.left, key), t.right), key)
    else if key > t.key then InsertFix(Make(t.key, t.left, Insert(t.right, key)), key)
    else t
  }

  /** The rotations after an insertion, told apart by where the key went. */
  function InsertFix(t: Tree, key: int): Tree
    requires t.Node?
  {
    var b := Balance(t);
    if b > 1 && t.left.Node? && key < t.left.key then RightRotate(t)
    else if b < -1 && t.right.Node? && key > t.right.key then LeftRotate(t)
    else if b > 1 && t.left.Node? && t.left.right.Node? && key > t.left.key then
      RightRotate(Node(t.key, LeftRotate(t.left), t.right, t.height))
    else if b < -1 && t.right.Node? && t.right.left.Node? && key < t.right.key then
      LeftRotate(Node(t.key, t.left, RightRotate(t.right), t.height))
    else t
  }

  function MinKey(t: Tree): int
    requires t.Node?
  {
    if t.left.Node? then MinKey(t.left) else t.key
  }

  function Delete(t: Tree, key: int): Tree {
    if t.Empty? then t
    else if key < t.key then DeleteFix(Make(t.key, Delete(t.left, key), t.right))
    else if key > t.key then DeleteFix(Make(t.key, t.left, Delete(t.right, key)))
    else if t.left.Empty? && t.right.Empty? then Empty
    else if t.left.Empty? || t.right.Empty? then
      var child := if t.left.Node? then t.left else t.right;
      DeleteFix(Make(child.key, child.left, child.right))
    else DeleteFix(Make(MinKey(t.right), t.left, Delete(t.right, MinKey(t.right))))
  }

  /** The rotations after a deletion, told apart by the balance of the taller child. */
  function DeleteFix(t: Tree): Tree
    requires t.Node?
  {
    var b := Balance(t);
    if b > 1 && t.left.Node? && Balance(t.left) >= 0 then RightRotate(t)
    else if b > 1 && t.left.Node? && t.left.right.Node? && Balance(t.left) < 0 then
      RightRotate(Node(t.key, LeftRotate(t.left), t.right, t.height))
    else if b < -1 && t.right.Node? && Balance(t.right) <= 0 then LeftRotate(t)
    else if b < -1 && t.right.Node? && t.right.left.Node? && Balance(t.right) > 0 then
      LeftRotate(Node(t.key, t.left, RightRotate(t.right), t.height))
    else t
  }

  predicate Search(t: Tree, key: int) {
    t.Node? && (t.key == key || if key < t.key then Search(t.left, key) else Search(t.right, key))
  }

  // ---------------------------------------------------------------- what the tree keeps

  function Keys(t: Tree): set<int> {
    if t.Empty? then {} else Keys(t.left) + {t.key} + Keys(t.right)
  }

  ghost predicate Ordered(t: Tree) {
    t.Node? ==>
      && Ordered(t.left) && Ordered(t.right)
      && (forall k :: k in Keys(t.left) ==> k < t.key) && (forall k :: k in Keys(t.right) ==> t.key < k)
  }

  /** Every stored height is the true height, and siblings differ by at most one. */
  predicate Balanced(t: Tree) {
    t.Node? ==>
      && Balanced(t.left) && Balanced(t.right)
      && t.height == 1 + Max(Height(t.left), Height(t.right))
      && -1 <= Height(t.left) - Height(t.right) <= 1
  }

  function TrueHeight(t: Tree): nat {
    if t.Empty? then 0
    else 1 + if TrueHeight(t.left) > TrueHeight(t.right) then TrueHeight(t.left) else TrueHeight(t.right)
  }

  lemma {:induction false} StoredIsTrue(t: Tree)
    requires Balanced(t)
    ensures Height(t) == TrueHeight(t)
  {
    if t.Node? {
      StoredIsTrue(t.left);
      StoredIsTrue(t.right);
    }
  }

  // ---------------------------------------------------------------- rotations

  lemma RightKeeps(t: Tree)
    requires t.Node? && t.left.Node? && Ordered(t)
    ensures Ordered(RightRotate(t)) && Keys(RightRotate(t)) == Keys(t)
  {
    var x := t.left;
    assert Ordered(x) && x.key in Keys(x);
    var low := Make(t.key, x.right, t.right);
    assert forall k :: k in Keys(x.right) ==> k in Keys(x);
    assert Keys(low) == Keys(x.right) + {t.key} + Keys(t.right);
    assert Ordered(low);
    assert forall k :: k in Keys(low) ==> x.key < k;
  }

  lemma LeftKeeps(t: Tree)
    requires t.Node? && t.right.Node? && Ordered(t)
    ensures Ordered(LeftRotate(t)) && Keys(LeftRotate(t)) == Keys(t)
  {
    var y := t.right;
    assert Ordered(y) && y.key in Keys(y);
    var low := Make(t.key, t.left, y.left);
    assert forall k :: k in Keys(y.left) ==> k in Keys(y);
    assert Keys(low) == Keys(t.left) + {t.key} + Keys(y.left);
    assert Ordered(low);
    assert forall k :: k in Keys(low) ==> k < y.key;
  }

  lemma DoubleRightKeeps(t: Tree)
    requires t.Node? && t.left.Node? && t.left.right.Node? && Ordered(t)
    ensures var d := RightRotate(Node(t.key, LeftRotate(t.left), t.right, t.height)); Ordered(d) && Keys(d) == Keys(t)
  {
    LeftKeeps(t.left);
    RightKeeps(Node(t.key, LeftRotate(t.left), t.right, t.height));
  }

  lemma DoubleLeftKeeps(t: Tree)
    requires t.Node? && t.right.Node? && t.right.left.Node? && Ordered(t)
    ensures var d := LeftRotate(Node(t.key, t.left, RightRotate(t.right), t.height)); Ordered(d) && Keys(d) == Keys(t)
  {
    RightKeeps(t.right);
    LeftKeeps(Node(t.key, t.left, RightRotate(t.right), t.height));
  }

  /** `r` is `t`, or `t` after one or two rotations. */
  predicate Turned(t: Tree, r: Tree)
    requires t.Node?
  {
    || r == t
    || (t.left.Node? && r == RightRotate(t))
    || (t.right.Node? && r == LeftRotate(t))
    || (t.left.Node? && t.left.right.Node? && r == RightRotate(Node(t.key, LeftRotate(t.left), t.right, t.height)))
    || (t.right.Node? && t.right.left.Node? && r == LeftRotate(Node(t.key, t.left, RightRotate(t.right), t.height)))
  }

  lemma FixTurns(t: Tree, key: int)
    requires t.Node?
    ensures Turned(t, InsertFix(t, key)) && Turned(t, DeleteFix(t))
  { }

  /** The rotations change neither keys nor order. */
  lemma TurnedKeeps(t: Tree, r: Tree)
    requires t.Node? && Ordered(t) && Turned(t, r)
    ensures Ordered(r) && Keys(r) == Keys(t)
  {
    if t.left.Node? && r == RightRotate(t) { RightKeeps(t); }
    else if t.right.Node? && r == LeftRotate(t) { LeftKeeps(t); }
    else if t.left.Node? && t.left.right.Node? && r == RightRotate(Node(t.key, LeftRotate(t.left), t.right, t.height)) {
      DoubleRightKeeps(t);
    }
    else if r != t { DoubleLeftKeeps(t); }
  }

  lemma FixKeeps(t: Tree, key: int)
    requires t.Node? && Ordered(t)
    ensures Ordered(InsertFix(t, key)) && Keys(InsertFix(t, key)) == Keys(t)
    ensures Ordered(DeleteFix(t)) && Keys(DeleteFix(t)) == Keys(t)
  {
    FixTurns(t, key);
    TurnedKeeps(t, InsertFix(t, key));
    TurnedKeeps(t, DeleteFix(t));
  }

  // ---------------------------------------------------------------- heights around a rotation

  lemma {:induction false} Positive(t: Tree)
    requires Balanced(t)
    ensures Height(t) >= 0 && (Height(t) == 0 <==> t.Empty?)
  {
    if t.Node? {
      Positive(t.left);
      Positive(t.right);
    }
  }

  lemma SingleRight(key: int, l: Tree, r: Tree)
    requires Balanced(l) && Balanced(r) && l.Node? && Height(l) == Height(r) + 2 && Height(l.left) >= Height(l.right)
    ensures var t := RightRotate(Make(key, l, r));
            Balanced(t) && Height(t) == (if Height(l.left) == Height(l.right) then Height(l) + 1 else Height(l))
  {
    assert Balanced(Make(key, l.right, r));
  }

  lemma SingleLeft(key: int, l: Tree, r: Tree)
    requires Balanced(l) && Balanced(r) && r.Node? && Height(r) == Height(l) + 2 && Height(r.right) >= Height(r.left)
    ensures var t := LeftRotate(Make(key, l, r));
            Balanced(t) && Height(t) == (if Height(r.left) == Height(r.right) then Height(r) + 1 else Height(r))
  {
    assert Balanced(Make(key, l, r.left));
  }

  lemma DoubleRight(key: int, l: Tree, r: Tree, h: int)
    requires Balanced(l) && Balanced(r) && l.Node? && Height(l) == Height(r) + 2 && Height(l.right) > Height(l.left)
    ensures l.right.Node?
    ensures var t := RightRotate(Node(key, LeftRotate(l), r, h)); Balanced(t) && Height(t) == Height(l)
  {
    Positive(l.left);
    Positive(l.right);
    var m := l.right;
    assert Balanced(m);
    assert Balanced(Make(l.key, l.left, m.left)) && Balanced(Make(key, m.right, r));
  }

  lemma DoubleLeft(key: int, l: Tree, r: Tree, h: int)
    requires Balanced(l) && Balanced(r) && r.Node? && Height(r) == Height(l) + 2 && Height(r.left) > Height(r.right)
    ensures r.left.Node?
    ensures var t := LeftRotate(Node(key, l, RightRotate(r), h)); Balanced(t) && Height(t) == Height(r)
  {
    Positive(r.left);
    Positive(r.right);
    var m := r.left;
    assert Balanced(m);
    assert Balanced(Make(r.key, m.right, r.right)) && Balanced(Make(key, l, m.left));
  }

  // ---------------------------------------------------------------- insertion

  /** Insertion adds the key and keeps the order. */
  lemma {:induction false} InsertAdds(t: Tree, key: int)
    requires Ordered(t)
    ensures Ordered(Insert(t, key)) && Keys(Insert(t, key)) == Keys(t) + {key}
  {
    if t.Node? {
      if key < t.key {
        InsertAdds(t.left, key);
        FixKeeps(Make(t.key, Insert(t.left, key), t.right), key);
      } else if key > t.key {
        InsertAdds(t.right, key);
        FixKeeps(Make(t.key, t.left, Insert(t.right, key)), key);
      }
    }
  }

  /** A subtree that grew did so on the side of the key, without a rotation. */
  predicate Grew(t: Tree, r: Tree, key: int) {
    && r.Node? && Balanced(r)
    && (Height(r) == Height(t) || Height(r) == Height(t) + 1)
    && (t.Node? && Height(r) == Height(t) + 1 ==>
          || (key < r.key && Height(r.left) == Height(r.right) + 1)
          || (key > r.key && Height(r.right) == Height(r.left) + 1))
    && (t.Empty? ==> r == Node(key, Empty, Empty, 1))
  }

  lemma FixLeft(t: Tree, l: Tree, key: int)
    requires t.Node? && Balanced(t) && Grew(t.left, l, key) && key < t.key
    ensures Grew(t, InsertFix(Make(t.key, l, t.right), key), key)
  {
    Positive(t.left);
    Positive(t.right);
    if Height(l) == Height(t.right) + 2 {
      if key < l.key {
        SingleRight(t.key, l, t.right);
      } else {
        DoubleRight(t.key, l, t.right, Make(t.key, l, t.right).height);
      }
    }
  }

  lemma FixRight(t: Tree, r: Tree, key: int)
    requires t.Node? && Balanced(t) && Grew(t.right, r, key) && key > t.key
    ensures Grew(t, InsertFix(Make(t.key, t.left, r), key), key)
  {
    Positive(t.left);
    Positive(t.right);
    if Height(r) == Height(t.left) + 2 {
      if key > r.key {
        SingleLeft(t.key, t.left, r);
      } else {
        DoubleLeft(t.key, t.left, r, Make(t.key, t.left, r).height);
      }
    }
  }

  /** Insertion keeps the balance and adds at most one to the height. */
  lemma {:induction false} InsertBalances(t: Tree, key: int)
    requires Balanced(t)
    ensures Balanced(Insert(t, key)) && Height(t) <= Height(Insert(t, key)) <= Height(t) + 1
    ensures t.Empty? || key != t.key ==> Grew(t, Insert(t, key), key)
  {
    if t.Node? {
      if key < t.key {
        InsertBalances(t.left, key);
        GrewAnyway(t.left, key);
        FixLeft(t, Insert(t.left, key), key);
      } else if key > t.key {
        InsertBalances(t.right, key);
        GrewAnyway(t.right, key);
        FixRight(t, Insert(t.right, key), key);
      }
    }
  }

  lemma GrewAnyway(t: Tree, key: int)
    requires Balanced(t) && (t.Empty? || key != t.key ==> Grew(t, Insert(t, key), key))
    ensures Grew(t, Insert(t, key), key)
  { }

  // ---------------------------------------------------------------- deletion

  lemma {:induction false} MinKeyIs(t: Tree)
    requires t.Node? && Ordered(t)
    ensures MinKey(t) in Keys(t) && forall k :: k in Keys(t) ==> MinKey(t) <= k
  {
    if t.left.Node? { MinKeyIs(t.left); }
  }

  /** The smallest key of the right side in place of the root's. */
  lemma Replaced(t: Tree, m: int, r: Tree)
    requires t.Node? && Ordered(t) && Ordered(r) && m in Keys(t.right) && Keys(r) == Keys(t.right) - {m}
    requires forall k :: k in Keys(t.right) ==> m <= k
    ensures Ordered(Make(m, t.left, r)) && Keys(Make(m, t.left, r)) == Keys(t) - {t.key}
  {
    var n := Make(m, t.left, r);
    assert Keys(n) == Keys(t.left) + {m} + Keys(r);
    assert t.key !in Keys(t.left) && t.key !in Keys(t.right) && t.key < m;
    assert Keys(t) == Keys(t.left) + {t.key} + Keys(t.right);
  }

  lemma OneChild(t: Tree)
    requires t.Node? && Ordered(t) && (t.left.Empty? != t.right.Empty?)
    ensures var c := if t.left.Node? then t.left else t.right; var n := Make(c.key, c.left, c.right);
            Ordered(n) && Keys(n) == Keys(t) - {t.key}
  {
    assert Keys(t) == Keys(t.left) + {t.key} + Keys(t.right);
  }

  lemma SideTaken(t: Tree, key: int, l: Tree, r: Tree)
    requires t.Node? && Ordered(t) && Ordered(l) && Ordered(r) && key != t.key
    requires (key < t.key && Keys(l) == Keys(t.left) - {key} && r == t.right)
             || (key > t.key && l == t.left && Keys(r) == Keys(t.right) - {key})
    ensures Ordered(Make(t.key, l, r)) && Keys(Make(t.key, l, r)) == Keys(t) - {key}
  {
    assert Keys(t) == Keys(t.left) + {t.key} + Keys(t.right);
    assert key < t.key ==> key !in Keys(t.right);
    assert key > t.key ==> key !in Keys(t.left);
  }

  /** Deletion takes out the key and keeps the order. */
  lemma {:induction false} DeleteTakes(t: Tree, key: int)
    requires Ordered(t)
    ensures Ordered(Delete(t, key)) && Keys(Delete(t, key)) == Keys(t) - {key}
  {
    if t.Node? {
      if key < t.key {
        DeleteTakes(t.left, key);
        SideTaken(t, key, Delete(t.left, key), t.right);
        FixKeeps(Make(t.key, Delete(t.left, key), t.right), key);
      } else if key > t.key {
        DeleteTakes(t.right, key);
        SideTaken(t, key, t.left, Delete(t.right, key));
        FixKeeps(Make(t.key, t.left, Delete(t.right, key)), key);
      } else if t.left.Node? && t.right.Node? {
        var m := MinKey(t.right);
        MinKeyIs(t.right);
        DeleteTakes(t.right, m);
        Replaced(t, m, Delete(t.right, m));
        FixKeeps(Make(m, t.left, Delete(t.right, m)), key);
      } else if t.left.Node? || t.right.Node? {
        var child := if t.left.Node? then t.left else t.right;
        OneChild(t);
        FixKeeps(Make(child.key, child.left, child.right), key);
      }
    }
  }

  ghost predicate Shrank(t: Tree, r: Tree) {
    Balanced(r) && (Height(r) == Height(t) || Height(r) == Height(t) - 1)
  }

  lemma ShrinkLeft(t: Tree, key: int, l: Tree)
    requires t.Node? && Balanced(t) && Shrank(t.left, l)
    ensures Shrank(t, DeleteFix(Make(key, l, t.right)))
  {
    Positive(l);
    Positive(t.right);
    if Height(t.right) == Height(l) + 2 {
      if Balance(t.right) <= 0 {
        SingleLeft(key, l, t.right);
      } else {
        DoubleLeft(key, l, t.right, Make(key, l, t.right).height);
      }
    }
  }

  lemma ShrinkRight(t: Tree, key: int, r: Tree)
    requires t.Node? && Balanced(t) && Shrank(t.right, r)
    ensures Shrank(t, DeleteFix(Make(key, t.left, r)))
  {
    Positive(r);
    Positive(t.left);
    if Height(t.left) == Height(r) + 2 {
      if Balance(t.left) >= 0 {
        SingleRight(key, t.left, r);
      } else {
        DoubleRight(key, t.left, r, Make(key, t.left, r).height);
      }
    }
  }

  /** Deletion keeps the balance and takes at most one off the height. */
  lemma {:induction false} DeleteBalances(t: Tree, key: int)
    requires Balanced(t)
    ensures Balanced(Delete(t, key)) && Height(t) - 1 <= Height(Delete(t, key)) <= Height(t)
  {
    if t.Node? {
      if key < t.key {
        DeleteBalances(t.left, key);
        ShrinkLeft(t, t.key, Delete(t.left, key));
      } else if key > t.key {
        DeleteBalances(t.right, key);
        ShrinkRight(t, t.key, Delete(t.right, key));
      } else if t.left.Node? && t.right.Node? {
        DeleteBalances(t.right, MinKey(t.right));
        ShrinkRight(t, MinKey(t.right), Delete(t.right, MinKey(t.right)));
      } else {
        Positive(t.left);
        Positive(t.right);
      }
    }
  }

  // ---------------------------------------------------------------- search and size

  lemma {:induction false} SearchFinds(t: Tree, key: int)
    requires Ordered(t)
    ensures Search(t, key) <==> key in Keys(t)
  {
    if t.Node? {
      SearchFinds(t.left, key);
      SearchFinds(t.right, key);
    }
  }

  function Size(t: Tree): nat {
    if t.Empty? then 0 else 1 + Size(t.left) + Size(t.right)
  }

  function Fib(n: nat): nat {
    if n < 2 then n else Fib(n - 1) + Fib(n - 2)
  }

  lemma {:induction false} FibGrows(n: nat)
    ensures Fib(n) <= Fib(n + 1)
  {
    if n >= 2 {
      FibGrows(n - 1);
      FibGrows(n - 2);
    }
  }

  lemma FibStep(a: int, b: int)
    requires a >= 0 && b >= 0 && -1 <= a - b <= 1
    ensures Fib(1 + Max(a, b) + 2) <= Fib(a + 2) + Fib(b + 2)
  {
    var m := Max(a, b);
    assert Fib(m + 3) == Fib(m + 2) + Fib(m + 1);
    FibGrows(m + 1);
  }

  /** A tree of height h has at least Fib(h + 2) - 1 keys. */
  lemma {:induction false} FibonacciBound(t: Tree)
    requires Balanced(t)
    ensures Height(t) >= 0 && Size(t) + 1 >= Fib(Height(t) + 2)
  {
    if t.Node? {
      FibonacciBound(t.left);
      FibonacciBound(t.right);
      Positive(t.left);
      Positive(t.right);
      FibStep(Height(t.left), Height(t.right));
    }
  }
}
