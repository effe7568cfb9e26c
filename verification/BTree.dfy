/** The B-tree with splitting on the way down, as functions on trees. */
module BTree {
  import opened Rows

  datatype Tree = Node(keys: seq<int>, kids: seq<Tree>)  // no kids: a leaf

  // ---------------------------------------------------------------- keys in order

  /** Rows of keys with single keys between them. */
  function Weave(ks: seq<int>, fs: seq<seq<int>>): seq<int> {
    if fs == [] then [] else if ks == [] then fs[0] else fs[0] + [ks[0]] + Weave(ks[1..], fs[1..])
  }

  /** All keys from left to right. */
  function Flat(t: Tree): seq<int>
    decreases t, 1
  {
    if t.kids == [] then t.keys else Weave(t.keys, Flats(t))
  }

  function Flats(t: Tree): seq<seq<int>>
    decreases t, 0
  {
    seq(|t.kids|, i requires 0 <= i < |t.kids| => Flat(t.kids[i]))
  }

  ghost predicate Sorted(s: seq<int>) {
    forall i, j :: 0 <= i < j < |s| ==> s[i] <= s[j]
  }

  /** What comes before row `i`, and after it. */
  function Before(ks: seq<int>, fs: seq<seq<int>>, i: nat): seq<int>
    requires i <= |ks| && i <= |fs|
  {
    if i == 0 then [] else fs[0] + [ks[0]] + Before(ks[1..], fs[1..], i - 1)
  }

  function After(ks: seq<int>, fs: seq<seq<int>>, i: nat): seq<int>
    requires i <= |ks| && i < |fs|
  {
    if i == |ks| then [] else [ks[i]] + Weave(ks[i + 1..], fs[i + 1..])
  }

  lemma {:induction false} WeaveAt(ks: seq<int>, fs: seq<seq<int>>, i: nat)
    requires |fs| == |ks| + 1 && i < |fs|
    ensures Weave(ks, fs) == Before(ks, fs, i) + fs[i] + After(ks, fs, i)
  {
    if i == 0 {
      if ks != [] {
        assert fs[0] + [ks[0]] + Weave(ks[1..], fs[1..]) == [] + fs[0] + ([ks[0]] + Weave(ks[1..], fs[1..]));
      }
    } else {
      WeaveAt(ks[1..], fs[1..], i - 1);
      assert After(ks, fs, i) == After(ks[1..], fs[1..], i - 1) by {
        if i < |ks| { assert ks[1..][i..] == ks[i + 1..] && fs[1..][i..] == fs[i + 1..]; }
      }
      Rebracket(fs[0], [ks[0]], Before(ks[1..], fs[1..], i - 1), fs[i], After(ks, fs, i));
    }
  }

  /** Another row in place `i` changes nothing around it. */
  lemma {:induction false} WeaveChange(ks: seq<int>, fs: seq<seq<int>>, i: nat, x: seq<int>)
    requires |fs| == |ks| + 1 && i < |fs|
    ensures Before(ks, fs[i := x], i) == Before(ks, fs, i) && After(ks, fs[i := x], i) == After(ks, fs, i)
  {
    if i < |ks| { assert fs[i := x][i + 1..] == fs[i + 1..]; }
    BeforePrefix(ks, fs, fs[i := x], i);
  }

  lemma {:induction false} BeforePrefix(ks: seq<int>, fs: seq<seq<int>>, gs: seq<seq<int>>, i: nat)
    requires i <= |ks| && i <= |fs| && i <= |gs| && fs[..i] == gs[..i]
    ensures Before(ks, fs, i) == Before(ks, gs, i)
  {
    if i > 0 {
      assert fs[0] == fs[..i][0] == gs[..i][0] == gs[0];
      assert fs[1..][..i - 1] == fs[..i][1..] && gs[1..][..i - 1] == gs[..i][1..];
      BeforePrefix(ks[1..], fs[1..], gs[1..], i - 1);
    }
  }

  /** Rows joined at a key. */
  lemma {:induction false} WeaveJoin(a: seq<int>, fs: seq<seq<int>>, k: int, b: seq<int>, gs: seq<seq<int>>)
    requires |fs| == |a| + 1 && |gs| == |b| + 1
    ensures Weave(a + [k] + b, fs + gs) == Weave(a, fs) + [k] + Weave(b, gs)
    decreases |a|
  {
    if a == [] {
      assert (a + [k] + b)[1..] == b && (fs + gs)[1..] == gs;
    } else {
      WeaveJoin(a[1..], fs[1..], k, b, gs);
      assert (a + [k] + b)[1..] == a[1..] + [k] + b && (fs + gs)[1..] == fs[1..] + gs;
      Rebracket(fs[0], [a[0]], Weave(a[1..], fs[1..]), [k], Weave(b, gs));
    }
  }

  // ---------------------------------------------------------------- shape

  /** The fewest keys of a node that is not the root. */
  function Least(max: nat): nat {
    if max == 0 then 0 else (max - 1) / 2
  }

  /**
   All leaves `d` levels down, one kid more than keys, from 1 to `max` keys in the root, and at least half as many as
   fit in every other node.
   */
  ghost predicate Shape(t: Tree, d: nat, max: nat)
    decreases d, 0
  {
    && 1 <= |t.keys| <= max
    && (if d == 0 then t.kids == [] else |t.kids| == |t.keys| + 1 && KidsShape(t.kids, d - 1, max))
  }

  ghost predicate KidsShape(kids: seq<Tree>, d: nat, max: nat)
    decreases d, 1
  {
    forall i :: 0 <= i < |kids| ==> Least(max) <= |kids[i].keys| && Shape(kids[i], d, max)
  }

  // ---------------------------------------------------------------- search

  /** The first index whose key is not smaller. */
  function Lower(ks: seq<int>, key: int): (i: nat)
    ensures i <= |ks| && (forall j :: 0 <= j < i ==> ks[j] < key) && (i < |ks| ==> key <= ks[i])
  {
    if ks == [] || key <= ks[0] then 0 else 1 + Lower(ks[1..], key)
  }

  lemma {:induction false} BeforeSmaller(ks: seq<int>, fs: seq<seq<int>>, i: nat, key: int)
    requires |fs| == |ks| + 1 && i <= |ks| && Sorted(Weave(ks, fs)) && (i > 0 ==> ks[i - 1] <= key)
    ensures forall j :: 0 <= j < |Before(ks, fs, i)| ==> Before(ks, fs, i)[j] <= key
    ensures i > 0 && ks[i - 1] < key ==> forall j :: 0 <= j < |Before(ks, fs, i)| ==> Before(ks, fs, i)[j] < key
  {
    if i > 0 {
      WeaveAt(ks, fs, i);
      BeforeEnds(ks, fs, i);
      var b := Before(ks, fs, i);
      assert forall j :: 0 <= j < |b| ==> Weave(ks, fs)[j] == b[j];
    }
  }

  lemma {:induction false} BeforeEnds(ks: seq<int>, fs: seq<seq<int>>, i: nat)
    requires 0 < i <= |ks| && i <= |fs|
    ensures var b := Before(ks, fs, i); b != [] && b[|b| - 1] == ks[i - 1]
  {
    if i > 1 { BeforeEnds(ks[1..], fs[1..], i - 1); }
  }

  lemma AfterLarger(ks: seq<int>, fs: seq<seq<int>>, i: nat, key: int)
    requires |fs| == |ks| + 1 && i <= |ks| && Sorted(Weave(ks, fs)) && (i < |ks| ==> key <= ks[i])
    ensures forall j :: 0 <= j < |After(ks, fs, i)| ==> key <= After(ks, fs, i)[j]
    ensures i < |ks| && key < ks[i] ==> forall j :: 0 <= j < |After(ks, fs, i)| ==> key < After(ks, fs, i)[j]
  {
    if i < |ks| {
      WeaveAt(ks, fs, i);
      var a, n := After(ks, fs, i), |Before(ks, fs, i)| + |fs[i]|;
      assert forall j :: 0 <= j < |a| ==> Weave(ks, fs)[n + j] == a[j];
      assert a[0] == ks[i];
    }
  }

  lemma SortedRow(ks: seq<int>, fs: seq<seq<int>>, i: nat)
    requires |fs| == |ks| + 1 && i < |fs| && Sorted(Weave(ks, fs))
    ensures Sorted(fs[i])
  {
    WeaveAt(ks, fs, i);
    SortedMiddle(Before(ks, fs, i), fs[i], After(ks, fs, i));
  }

  lemma SortedMiddle(a: seq<int>, b: seq<int>, c: seq<int>)
    requires Sorted(a + b + c)
    ensures Sorted(b)
  {
    forall i, j | 0 <= i < j < |b| ensures b[i] <= b[j] {
      assert b[i] == (a + b + c)[|a| + i] && b[j] == (a + b + c)[|a| + j];
    }
  }

  /** A key of the tree is in the node where the search loop stops, or in the kid there. */
  lemma NodeHasKey(t: Tree, i: nat, key: int, d: nat, max: nat)
    requires Shape(t, d, max) && Sorted(Flat(t)) && i == Lower(t.keys, key)
    ensures key in Flat(t) <==> (i < |t.keys| && t.keys[i] == key) || (d > 0 && key in Flat(t.kids[i]))
  {
    if d == 0 { LowerFinds(t.keys, key); } else { RowHasKey(t.keys, Flats(t), i, key); }
  }

  lemma LowerFinds(ks: seq<int>, key: int)
    requires Sorted(ks)
    ensures key in ks <==> Lower(ks, key) < |ks| && ks[Lower(ks, key)] == key
  { }

  lemma RowHasKey(ks: seq<int>, fs: seq<seq<int>>, i: nat, key: int)
    requires |fs| == |ks| + 1 && Sorted(Weave(ks, fs)) && i == Lower(ks, key)
    ensures key in Weave(ks, fs) <==> (i < |ks| && ks[i] == key) || key in fs[i]
  {
    WeaveAt(ks, fs, i);
    if i > 0 { BeforeSmaller(ks, fs, i, key); }
    var b, a := Before(ks, fs, i), After(ks, fs, i);
    assert key !in b;
    if i < |ks| {
      AfterLarger(ks, fs, i, key);
      assert a[0] == ks[i];
    }
    assert key in b + fs[i] + a <==> key in b || key in fs[i] || key in a;
  }

  // ---------------------------------------------------------------- one key more

  /** `s'` is `s` with `k` put in where it belongs. */
  ghost predicate PutIn(s: seq<int>, k: int, s': seq<int>) {
    exists p: nat :: PutAt(s, k, s', p)
  }

  ghost predicate PutAt(s: seq<int>, k: int, s': seq<int>, p: nat) {
    && p <= |s| && s' == s[..p] + [k] + s[p..]
    && (forall j :: 0 <= j < p ==> s[j] <= k) && (forall j :: p <= j < |s| ==> k <= s[j])
  }

  /** Then the order is kept, and there is one more `k` and nothing else. */
  lemma PutInMeans(s: seq<int>, k: int, s': seq<int>)
    requires PutIn(s, k, s') && Sorted(s)
    ensures Sorted(s') && multiset(s') == multiset(s) + multiset{k}
  {
    var p: nat :| PutAt(s, k, s', p);
    PutSorted(s, k, p);
    PutCounts(s, k, p);
  }

  lemma PutSorted(s: seq<int>, k: int, p: nat)
    requires Sorted(s) && p <= |s| && (forall j :: 0 <= j < p ==> s[j] <= k) && (forall j :: p <= j < |s| ==> k <= s[j])
    ensures Sorted(s[..p] + [k] + s[p..])
  {
    var t := s[..p] + [k] + s[p..];
    forall i, j | 0 <= i < j < |t| ensures t[i] <= t[j] {
      assert i != p ==> t[i] == s[if i < p then i else i - 1];
      assert j != p ==> t[j] == s[if j < p then j else j - 1];
    }
  }

  lemma PutCounts(s: seq<int>, k: int, p: nat)
    requires p <= |s|
    ensures multiset(s[..p] + [k] + s[p..]) == multiset(s) + multiset{k}
  {
    assert s == s[..p] + s[p..];
  }

  lemma PutAround(b: seq<int>, s: seq<int>, a: seq<int>, k: int, s': seq<int>)
    requires PutIn(s, k, s') && (forall j :: 0 <= j < |b| ==> b[j] <= k) && (forall j :: 0 <= j < |a| ==> k <= a[j])
    ensures PutIn(b + s + a, k, b + s' + a)
  {
    var p: nat :| PutAt(s, k, s', p);
    var w, q := b + s + a, |b| + p;
    assert w[..q] == b + s[..p] && w[q..] == s[p..] + a;
    assert b + (s[..p] + [k] + s[p..]) + a == (b + s[..p]) + [k] + (s[p..] + a);
    assert PutAt(w, k, b + s' + a, q);
  }

  // ---------------------------------------------------------------- splitting a full child

  function LeftHalf(c: Tree, max: nat): Tree
    requires |c.keys| == max && (c.kids == [] || |c.kids| == max + 1)
  {
    Node(c.keys[..max / 2], if c.kids == [] then [] else c.kids[..max / 2 + 1])
  }

  function RightHalf(c: Tree, max: nat): Tree
    requires |c.keys| == max > 0 && (c.kids == [] || |c.kids| == max + 1)
  {
    Node(c.keys[max / 2 + 1..], if c.kids == [] then [] else c.kids[max / 2 + 1..])
  }

  function SplitChild(t: Tree, i: nat, max: nat): Tree
    requires i < |t.kids| == |t.keys| + 1
    requires var c := t.kids[i]; |c.keys| == max > 0 && (c.kids == [] || |c.kids| == max + 1)
  {
    var c := t.kids[i];
    Node(t.keys[..i] + [c.keys[max / 2]] + t.keys[i..],
         t.kids[..i] + [LeftHalf(c, max), RightHalf(c, max)] + t.kids[i + 1..])
  }

  lemma HalvesShape(c: Tree, d: nat, max: nat)
    requires Shape(c, d, max) && |c.keys| == max >= 3
    ensures Shape(LeftHalf(c, max), d, max) && Shape(RightHalf(c, max), d, max)
    ensures Least(max) <= |LeftHalf(c, max).keys| < max && Least(max) <= |RightHalf(c, max).keys| < max
  { }

  /**
   A node with a full child split has one key more and is in shape, if it had room; a new root may start without keys.
   */
  lemma SplitShape(t: Tree, s: Tree, i: nat, d: nat, max: nat)
    requires |t.keys| < max && i < |t.kids| == |t.keys| + 1
             && KidsShape(t.kids, d, max)
    requires Shape(t.kids[i], d, max) && |t.kids[i].keys| == max >= 3 && s == SplitChild(t, i, max)
    ensures |s.keys| == |t.keys| + 1 && |s.kids| == |t.kids| + 1 && Shape(s, d + 1, max)
    ensures Shape(s.kids[i], d, max) && Shape(s.kids[i + 1], d, max)
    ensures |s.kids[i].keys| < max && |s.kids[i + 1].keys| < max
  {
    HalvesShape(t.kids[i], d, max);
    forall j | 0 <= j < |s.kids| ensures Least(max) <= |s.kids[j].keys| && Shape(s.kids[j], d, max) {
      if j < i { assert s.kids[j] == t.kids[j]; }
      else if j > i + 1 { assert s.kids[j] == t.kids[j - 1]; }
    }
  }

  lemma HalvesFlat(c: Tree, d: nat, max: nat)
    requires Shape(c, d, max) && |c.keys| == max >= 3
    ensures Flat(c) == Flat(LeftHalf(c, max)) + [c.keys[max / 2]] + Flat(RightHalf(c, max))
  {
    var m := max / 2;
    var l, r := LeftHalf(c, max), RightHalf(c, max);
    assert c.keys == c.keys[..m] + [c.keys[m]] + c.keys[m + 1..];
    if d > 0 {
      assert Flats(c) == Flats(l) + Flats(r);
      WeaveJoin(l.keys, Flats(l), c.keys[m], r.keys, Flats(r));
    }
  }

  /** Rows with row `i` cut in two at a key. */
  lemma WeaveCut(ks: seq<int>, fs: seq<seq<int>>, i: nat, x: seq<int>, k: int, y: seq<int>)
    requires i < |fs| == |ks| + 1 && fs[i] == x + [k] + y
    ensures Weave(ks[..i] + [k] + ks[i..], fs[..i] + [x, y] + fs[i + 1..]) == Weave(ks, fs)
  {
    var ls, gs := ks[..i] + [k] + ks[i..], fs[..i] + [x, y] + fs[i + 1..];
    WeaveAt(ks, fs, i);
    WeaveAt(ls, gs, i);
    assert ls[..i] == ks[..i] && gs[..i] == fs[..i];
    BeforeSame(ks, ls, fs, gs, i);
    assert gs[i] == x && ls[i] == k;
    AfterCut(ks, fs, i, y);
    assert ls[i + 1..] == ks[i..] && gs[i + 1..] == [y] + fs[i + 1..];
    Rebuild(Before(ks, fs, i), x, [k], y, After(ks, fs, i));
  }

  lemma Rebuild(b: seq<int>, x: seq<int>, k: seq<int>, y: seq<int>, a: seq<int>)
    ensures b + x + (k + (y + a)) == b + (x + k + y) + a
  { }

  lemma AfterCut(ks: seq<int>, fs: seq<seq<int>>, i: nat, y: seq<int>)
    requires i < |fs| == |ks| + 1
    ensures Weave(ks[i..], [y] + fs[i + 1..]) == y + After(ks, fs, i)
  {
    WeaveFirst(ks[i..], [y] + fs[i + 1..]);
    if i < |ks| { assert ks[i..][1..] == ks[i + 1..] && ([y] + fs[i + 1..])[1..] == fs[i + 1..]; }
  }

  lemma WeaveFirst(ks: seq<int>, fs: seq<seq<int>>)
    requires |fs| == |ks| + 1
    ensures Weave(ks, fs) == fs[0] + if ks == [] then [] else [ks[0]] + Weave(ks[1..], fs[1..])
  { }

  lemma {:induction false} BeforeSame(ks: seq<int>, ls: seq<int>, fs: seq<seq<int>>, gs: seq<seq<int>>, i: nat)
    requires i <= |ks| && i <= |ls| && i <= |fs| && i <= |gs| && ks[..i] == ls[..i] && fs[..i] == gs[..i]
    ensures Before(ks, fs, i) == Before(ls, gs, i)
  {
    if i > 0 {
      assert fs[0] == fs[..i][0] == gs[0] && ks[0] == ks[..i][0] == ls[0];
      assert ks[1..][..i - 1] == ks[..i][1..] && ls[1..][..i - 1] == ls[..i][1..];
      assert fs[1..][..i - 1] == fs[..i][1..] && gs[1..][..i - 1] == gs[..i][1..];
      BeforeSame(ks[1..], ls[1..], fs[1..], gs[1..], i - 1);
    }
  }

  /** Splitting moves no key. */
  lemma SplitFlat(t: Tree, s: Tree, i: nat, d: nat, max: nat)
    requires i < |t.kids| == |t.keys| + 1 && Shape(t.kids[i], d, max) && |t.kids[i].keys| == max >= 3
    requires s == SplitChild(t, i, max)
    ensures Flat(s) == Flat(t)
  {
    var c := t.kids[i];
    HalvesFlat(c, d, max);
    assert Flats(s) == Flats(t)[..i] + [Flat(LeftHalf(c, max)), Flat(RightHalf(c, max))] + Flats(t)[i + 1..];
    WeaveCut(t.keys, Flats(t), i, Flat(LeftHalf(c, max)), c.keys[max / 2], Flat(RightHalf(c, max)));
  }

  // ---------------------------------------------------------------- insertion

  /** The first index with a larger key, found from the right. */
  function Upper(ks: seq<int>, key: int): (i: nat)
    ensures i <= |ks| && (i > 0 ==> ks[i - 1] <= key) && (forall j :: i <= j < |ks| ==> key < ks[j])
  {
    if ks == [] then 0 else if key < ks[|ks| - 1] then Upper(ks[..|ks| - 1], key) else |ks|
  }

  lemma KidOk(t: Tree, i: nat, d: nat, max: nat)
    requires d > 0 && Shape(t, d, max) && i < |t.kids|
    ensures Shape(t.kids[i], d - 1, max) && (t.kids[i].kids == [] || |t.kids[i].kids| == |t.kids[i].keys| + 1)
  { }

  /** Kid `j` is the right one for the key. */
  predicate ForKey(keys: seq<int>, j: nat, key: int) {
    j <= |keys| && (j > 0 ==> keys[j - 1] <= key) && (j < |keys| ==> key <= keys[j])
  }

  /** The key goes left or right of the one moved up. */
  lemma SplitBounds(keys: seq<int>, i: nat, up: int, key: int)
    requires ForKey(keys, i, key)
    ensures var s := keys[..i] + [up] + keys[i..]; ForKey(s, if key > s[i] then i + 1 else i, key)
  { }

  lemma SplitForKey(t: Tree, s: Tree, i: nat, j: nat, key: int, max: nat)
    requires i < |t.kids| == |t.keys| + 1 && ForKey(t.keys, i, key)
    requires var c := t.kids[i]; |c.keys| == max > 0 && (c.kids == [] || |c.kids| == max + 1)
    requires s == SplitChild(t, i, max) && j == if key > s.keys[i] then i + 1 else i
    ensures ForKey(s.keys, j, key)
  {
    SplitBounds(t.keys, i, t.kids[i].keys[max / 2], key);
  }

  /** Kid `j` is in shape and not full. */
  ghost predicate Room(s: Tree, j: nat, d: nat, max: nat) {
    Shape(s, d, max) && d > 0 && j < |s.kids| && Shape(s.kids[j], d - 1, max) && |s.kids[j].keys| < max
  }

  lemma SplitRoom(t: Tree, s: Tree, i: nat, j: nat, d: nat, max: nat)
    requires |t.keys| < max && i < |t.kids| == |t.keys| + 1
             && KidsShape(t.kids, d, max)
    requires Shape(t.kids[i], d, max) && |t.kids[i].keys| == max >= 3
    requires s == SplitChild(t, i, max) && (j == i || j == i + 1)
    ensures Room(s, j, d + 1, max)
  {
    SplitShape(t, s, i, d, max);
    assert Shape(s.kids[j], d, max);
  }

  ghost predicate Fits(s: Tree, j: nat, key: int, d: nat, max: nat) {
    Room(s, j, d, max) && ForKey(s.keys, j, key)
  }

  /** The kid for a key fits if it is not full; if it is, one of its halves does, and no key has moved. */
  lemma KidFits(t: Tree, i: nat, key: int, d: nat, max: nat)
    requires d > 0 && Shape(t, d, max) && i == Upper(t.keys, key) && |t.kids[i].keys| < max
    ensures Fits(t, i, key, d, max)
  {
    KidOk(t, i, d, max);
  }

  lemma HalfFits(t: Tree, s: Tree, i: nat, j: nat, key: int, d: nat, max: nat)
    requires |t.keys| < max && max >= 3 && i < |t.kids| == |t.keys| + 1 && ForKey(t.keys, i, key)
    requires KidsShape(t.kids, d, max) && Shape(t.kids[i], d, max) && |t.kids[i].keys| == max
    requires s == SplitChild(t, i, max) && j == if key > s.keys[i] then i + 1 else i
    ensures Fits(s, j, key, d + 1, max) && Flat(s) == Flat(t) && |s.keys| > |t.keys|
  {
    SplitRoom(t, s, i, j, d, max);
    SplitForKey(t, s, i, j, key, max);
    SplitFlat(t, s, i, d, max);
  }

  lemma KidShape(t: Tree, j: nat, kid: Tree, d: nat, max: nat)
    requires d > 0 && Shape(t, d, max) && j < |t.kids| && Shape(kid, d - 1, max) && |t.kids[j].keys| <= |kid.keys|
    ensures Shape(Node(t.keys, t.kids[j := kid]), d, max)
  { }

  /** A key put into the right kid is put into the tree. */
  lemma PutInKid(t: Tree, j: nat, key: int, kid: Tree)
    requires j < |t.kids| == |t.keys| + 1 && Sorted(Flat(t)) && PutIn(Flat(t.kids[j]), key, Flat(kid))
    requires (j > 0 ==> t.keys[j - 1] <= key) && (j < |t.keys| ==> key <= t.keys[j])
    ensures PutIn(Flat(t), key, Flat(Node(t.keys, t.kids[j := kid])))
  {
    var ks, fs := t.keys, Flats(t);
    WeaveAt(ks, fs, j);
    BeforeSmaller(ks, fs, j, key);
    AfterLarger(ks, fs, j, key);
    PutAround(Before(ks, fs, j), fs[j], After(ks, fs, j), key, Flat(kid));
    var gs := fs[j := Flat(kid)];
    assert Flats(Node(ks, t.kids[j := kid])) == gs;
    WeaveAt(ks, gs, j);
    WeaveChange(ks, fs, j, Flat(kid));
  }

  lemma PutInLeaf(ks: seq<int>, key: int)
    requires Sorted(ks)
    ensures var i := Upper(ks, key); PutIn(ks, key, ks[..i] + [key] + ks[i..])
  {
    var i := Upper(ks, key);
    assert PutAt(ks, key, ks[..i] + [key] + ks[i..], i);
  }

  /** A key put into a leaf with room. */
  lemma LeafPut(t: Tree, u: Tree, key: int, d: nat, max: nat)
    requires Shape(t, d, max) && t.kids == [] && |t.keys| < max && Sorted(Flat(t))
    requires var i := Upper(t.keys, key); u == Node(t.keys[..i] + [key] + t.keys[i..], [])
    ensures Shape(u, d, max) && PutIn(Flat(t), key, Flat(u)) && |t.keys| < |u.keys|
  {
    PutInLeaf(t.keys, key);
  }

  /** A key put into a kid that fits. */
  lemma KidPut(t: Tree, j: nat, key: int, kid: Tree, u: Tree, d: nat, max: nat)
    requires Fits(t, j, key, d + 1, max) && Sorted(Flat(t)) && Shape(kid, d, max)
             && PutIn(Flat(t.kids[j]), key, Flat(kid)) && |t.kids[j].keys| <= |kid.keys|
    requires u == Node(t.keys, t.kids[j := kid])
    ensures Shape(u, d + 1, max) && PutIn(Flat(t), key, Flat(u))
  {
    KidShape(t, j, kid, d + 1, max);
    PutInKid(t, j, key, kid);
  }

  lemma SortedKid(t: Tree, j: nat)
    requires j < |t.kids| == |t.keys| + 1 && Sorted(Flat(t))
    ensures Sorted(Flat(t.kids[j]))
  {
    SortedRow(t.keys, Flats(t), j);
  }

  /** A new root over a full one has the same keys. */
  lemma AboveFlat(t: Tree)
    ensures Flat(Node([], [t])) == Flat(t)
  {
    assert Flats(Node([], [t])) == [Flat(t)];
  }

  // ---------------------------------------------------------------- how deep a tree is

  function Power(b: nat, n: nat): nat {
    if n == 0 then 1 else b * Power(b, n - 1)
  }

  lemma {:induction false} WeaveLength(ks: seq<int>, fs: seq<seq<int>>, least: nat)
    requires |fs| == |ks| + 1 && forall i :: 0 <= i < |fs| ==> |fs[i]| + 1 >= least
    ensures |Weave(ks, fs)| + 1 >= (|ks| + 1) * least
    decreases |ks|
  {
    if ks == [] {
      assert Weave(ks, fs) == fs[0];
    } else {
      WeaveLength(ks[1..], fs[1..], least);
      assert (|ks| + 1) * least == least + |ks| * least;
    }
  }

  lemma MoreTimes(a: nat, b: nat, x: nat)
    requires a <= b
    ensures a * x <= b * x
  { }

  /** A node other than the root, `d` levels above the leaves. */
  lemma {:induction false} KidSize(t: Tree, d: nat, max: nat)
    requires Shape(t, d, max) && Least(max) <= |t.keys|
    ensures |Flat(t)| + 1 >= Power(Least(max) + 1, d + 1)
    decreases d
  {
    var b := Least(max) + 1;
    if d == 0 {
      assert Power(b, 1) == b * Power(b, 0);
    } else {
      KidsSize(t, d, max);
      WeaveLength(t.keys, Flats(t), Power(b, d));
      MoreTimes(b, |t.keys| + 1, Power(b, d));
    }
  }

  lemma {:induction false} KidsSize(t: Tree, d: nat, max: nat)
    requires Shape(t, d, max) && d > 0
    ensures forall i :: 0 <= i < |Flats(t)| ==> |Flats(t)[i]| + 1 >= Power(Least(max) + 1, d)
    decreases d, 0
  {
    forall i | 0 <= i < |t.kids| ensures |Flats(t)[i]| + 1 >= Power(Least(max) + 1, d) {
      KidSize(t.kids[i], d - 1, max);
    }
  }

  /** The number of keys grows with the depth as the powers of half the fan-out do. */
  predicate DepthOk(keys: nat, d: nat, max: nat) {
    keys + 1 >= 2 * Power(Least(max) + 1, d)
  }

  lemma DepthBound(t: Tree, d: nat, max: nat)
    requires Shape(t, d, max)
    ensures DepthOk(|Flat(t)|, d, max)
  {
    if d > 0 {
      KidsSize(t, d, max);
      WeaveLength(t.keys, Flats(t), Power(Least(max) + 1, d));
      MoreTimes(2, |t.keys| + 1, Power(Least(max) + 1, d));
    }
  }

  // ---------------------------------------------------------------- for the loops on a node's arrays

  lemma UpperIs(ks: seq<int>, key: int, p: nat)
    requires p <= |ks| && (p > 0 ==> ks[p - 1] <= key) && forall j :: p <= j < |ks| ==> key < ks[j]
    ensures Upper(ks, key) == p
  { }

  lemma Spread<T>(r: seq<T>, s: seq<T>, p: nat, key: T)
    requires |r| == |s| + 1 && p <= |s| && r[p] == key
    requires (forall j :: 0 <= j < p ==> r[j] == s[j]) && forall j :: p <= j < |s| ==> r[j + 1] == s[j]
    ensures r == s[..p] + [key] + s[p..]
  {
    var w := s[..p] + [key] + s[p..];
    forall j | 0 <= j < |r| ensures r[j] == w[j] {
      if j > p { assert r[(j - 1) + 1] == s[j - 1]; }
    }
  }
}
