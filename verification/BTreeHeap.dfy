/**
 The B-tree in place: nodes are entries of an arena, each with its fixed arrays of keys and of child
 pointers, and pointers are indices, with 0 for the null pointer.
 */
module BTreeHeap {
  import opened Arenas
  import opened BTree

  datatype Cell = Cell(keys: seq<int>, count: nat, child: seq<Ref>, isLeaf: bool)

  /** Which entries make up a tree. */
  datatype Frame = At(ref: Ref, kids: seq<Frame>)

  ghost function Refs(f: Frame): set<Ref> {
    {f.ref} + set i, r | 0 <= i < |f.kids| && r in Refs(f.kids[i]) :: r
  }

  predicate CellOk(c: Cell, max: nat) {
    |c.keys| == max && |c.child| == max + 1 && c.count <= max
  }

  /** The first pointers of a node are those of its kids. */
  ghost predicate Points(c: Cell, kids: seq<Frame>) {
    && c.isLeaf == (kids == [])
    && (kids != [] ==> |kids| == c.count + 1 <= |c.child| && forall i :: 0 <= i < |kids| ==> c.child[i] == kids[i].ref)
  }

  ghost predicate Apart(kids: seq<Frame>) {
    forall i, j :: 0 <= i < j < |kids| ==> Refs(kids[i]) !! Refs(kids[j])
  }

  /** The pointers are those of the frame, and no entry is used twice. */
  ghost predicate Laid(h: seq<Cell>, f: Frame, max: nat) {
    && NIL < f.ref < |h| && CellOk(h[f.ref], max) && Points(h[f.ref], f.kids) && Apart(f.kids)
    && forall i :: 0 <= i < |f.kids| ==> Laid(h, f.kids[i], max) && f.ref !in Refs(f.kids[i])
  }

  /** The tree that the entries of a frame hold. */
  ghost function Value(h: seq<Cell>, f: Frame): Tree
    decreases f, 1
  {
    if f.ref < |h| && h[f.ref].count <= |h[f.ref].keys| then Node(h[f.ref].keys[..h[f.ref].count], Values(h, f))
    else Node([], [])
  }

  ghost function Values(h: seq<Cell>, f: Frame): seq<Tree>
    decreases f, 0
  {
    seq(|f.kids|, i requires 0 <= i < |f.kids| => Value(h, f.kids[i]))
  }

  lemma {:induction false} LaidRange(h: seq<Cell>, f: Frame, max: nat)
    requires Laid(h, f, max)
    ensures forall r :: r in Refs(f) ==> NIL < r < |h|
  {
    forall r | r in Refs(f) ensures NIL < r < |h| {
      if r != f.ref {
        var i :| 0 <= i < |f.kids| && r in Refs(f.kids[i]);
        LaidRange(h, f.kids[i], max);
      }
    }
  }

  lemma KidRefs(f: Frame, i: nat)
    requires i < |f.kids|
    ensures Refs(f.kids[i]) <= Refs(f)
  { }

  /** A tree none of whose entries is touched stays as it is. */
  lemma {:induction false} Untouched(h: seq<Cell>, g: seq<Cell>, rs: set<Ref>, f: Frame, max: nat)
    requires Laid(h, f, max) && Within(h, g, rs) && Refs(f) !! rs
    ensures Laid(g, f, max) && Value(g, f) == Value(h, f)
  {
    assert f.ref in Refs(f);
    forall i | 0 <= i < |f.kids| ensures Laid(g, f.kids[i], max) && Value(g, f.kids[i]) == Value(h, f.kids[i]) {
      KidRefs(f, i);
      Untouched(h, g, rs, f.kids[i], max);
    }
    assert Values(g, f) == Values(h, f);
  }

  /** What a node and its tree have in common. */
  lemma Sizes(h: seq<Cell>, f: Frame, max: nat)
    requires Laid(h, f, max)
    ensures Value(h, f) == Node(h[f.ref].keys[..h[f.ref].count], Values(h, f)) && (h[f.ref].isLeaf <==> f.kids == [])
    ensures |Value(h, f).keys| == h[f.ref].count && |Value(h, f).kids| == |f.kids|
    ensures forall i :: 0 <= i < |f.kids| ==> Value(h, f).kids[i] == Value(h, f.kids[i])
  { }

  // ---------------------------------------------------------------- a changed kid

  /** The other kids stay as they are and do not meet the changed one. */
  lemma OtherKid(h: seq<Cell>, g: seq<Cell>, f: Frame, j: nat, kid: Frame, i: nat, max: nat)
    requires Laid(h, f, max) && j < |f.kids| && i < |f.kids| && i != j
    requires Within(h, g, Refs(f.kids[j])) && OldOrNew(h, Refs(f.kids[j]), Refs(kid))
    ensures Laid(g, f.kids[i], max) && Value(g, f.kids[i]) == Value(h, f.kids[i]) && Refs(f.kids[i]) !! Refs(kid)
  {
    var a, b := if i < j then i else j, if i < j then j else i;
    assert Refs(f.kids[a]) !! Refs(f.kids[b]);
    Untouched(h, g, Refs(f.kids[j]), f.kids[i], max);
    LaidRange(h, f.kids[i], max);
  }

  lemma KidLaid(h: seq<Cell>, g: seq<Cell>, f: Frame, j: nat, kid: Frame, f': Frame, max: nat)
    requires Laid(h, f, max) && j < |f.kids| && f' == At(f.ref, f.kids[j := kid]) && f.ref < |g| && g[f.ref] == h[f.ref]
    requires Laid(g, kid, max) && kid.ref == f.kids[j].ref && f.ref !in Refs(kid)
    requires forall i :: 0 <= i < |f.kids| && i != j ==> Laid(g, f.kids[i], max) && Refs(f.kids[i]) !! Refs(kid)
    ensures Laid(g, f', max)
  {
    ApartUpdate(f.kids, j, kid);
    assert Points(g[f.ref], f'.kids);
    forall i | 0 <= i < |f'.kids| ensures Laid(g, f'.kids[i], max) && f.ref !in Refs(f'.kids[i]) { }
  }

  lemma ApartUpdate(kids: seq<Frame>, j: nat, kid: Frame)
    requires Apart(kids) && j < |kids| && forall i :: 0 <= i < |kids| && i != j ==> Refs(kids[i]) !! Refs(kid)
    ensures Apart(kids[j := kid])
  { }

  lemma KidChanged(h: seq<Cell>, g: seq<Cell>, f: Frame, j: nat, kid: Frame, f': Frame, max: nat)
    requires Laid(h, f, max) && j < |f.kids| && f' == At(f.ref, f.kids[j := kid])
    requires Within(h, g, Refs(f.kids[j])) && OldOrNew(h, Refs(f.kids[j]), Refs(kid)) && Laid(g, kid, max)
             && kid.ref == f.kids[j].ref
    ensures Laid(g, f', max) && Value(g, f') == Node(Value(h, f).keys, Values(h, f)[j := Value(g, kid)])
    ensures Within(h, g, Refs(f)) && OldOrNew(h, Refs(f), Refs(f'))
  {
    KidRefs(f, j);
    assert g[f.ref] == h[f.ref];
    forall i | 0 <= i < |f.kids| && i != j
      ensures Laid(g, f.kids[i], max) && Value(g, f.kids[i]) == Value(h, f.kids[i]) && Refs(f.kids[i]) !! Refs(kid)
    {
      OtherKid(h, g, f, j, kid, i, max);
    }
    KidLaid(h, g, f, j, kid, f', max);
    KidValues(h, g, f, j, kid, f');
    KidUses(h, f, j, kid, f');
  }

  lemma KidValues(h: seq<Cell>, g: seq<Cell>, f: Frame, j: nat, kid: Frame, f': Frame)
    requires j < |f.kids| && f' == At(f.ref, f.kids[j := kid])
    requires forall i :: 0 <= i < |f.kids| && i != j ==> Value(g, f.kids[i]) == Value(h, f.kids[i])
    ensures Values(g, f') == Values(h, f)[j := Value(g, kid)]
  { }

  lemma KidUses(h: seq<Cell>, f: Frame, j: nat, kid: Frame, f': Frame)
    requires j < |f.kids| && f' == At(f.ref, f.kids[j := kid]) && OldOrNew(h, Refs(f.kids[j]), Refs(kid))
    ensures OldOrNew(h, Refs(f), Refs(f'))
  {
    forall r | r in Refs(f') ensures r in Refs(f) || r >= |h| {
      if r != f.ref {
        var i :| 0 <= i < |f'.kids| && r in Refs(f'.kids[i]);
        KidRefs(f, i);
      }
    }
  }

  // ---------------------------------------------------------------- a split

  /** Parent `p`, full child `c` and new node `n` after a split at kid `idx`. */
  ghost predicate SplitCells(h: seq<Cell>, g: seq<Cell>, p: Ref, c: Ref, idx: nat, max: nat) {
    var m := max / 2;
    && p < |h| && c < |h| && p != c && CellOk(h[p], max) && CellOk(h[c], max) && h[c].count == max
       && idx <= h[p].count < max
    && |g| == |h| + 1 && Within(h, g, {p, c})
    && g[c] == h[c].(count := m)
    && SplitRight(h[c], g[|h|], max)
    && CellOk(g[p], max) && g[p].count == h[p].count + 1 && g[p].isLeaf == h[p].isLeaf
    && g[p].keys[..h[p].count + 1] == h[p].keys[..idx] + [h[c].keys[m]] + h[p].keys[idx..h[p].count]
    && Shifted(h[p].child, g[p].child, h[p].count, idx, |h|)
  }

  /** A pointer put in behind pointer `idx`. */
  ghost predicate Shifted(before: seq<Ref>, after: seq<Ref>, count: nat, idx: nat, n: Ref) {
    && |before| == |after| > count + 1 && idx <= count
    && after[..count + 2] == before[..idx + 1] + [n] + before[idx + 1..count + 1]
  }

  ghost predicate SplitRight(full: Cell, new_: Cell, max: nat)
    requires CellOk(full, max)
  {
    var m := max / 2;
    && max > 0 && CellOk(new_, max) && new_.count == max - m - 1 && new_.isLeaf == full.isLeaf
    && new_.keys[..max - m - 1] == full.keys[m + 1..]
    && (!full.isLeaf ==> new_.child[..max - m] == full.child[m + 1..])
  }

  function LeftFrame(c: Frame, m: nat): Frame {
    At(c.ref, if m + 1 <= |c.kids| then c.kids[..m + 1] else [])
  }

  function RightFrame(c: Frame, n: Ref, m: nat): Frame {
    At(n, if m + 1 <= |c.kids| then c.kids[m + 1..|c.kids|] else [])
  }

  function SplitFrame(f: Frame, idx: nat, n: Ref, m: nat): Frame
    requires idx < |f.kids|
  {
    At(f.ref, f.kids[..idx] + [LeftFrame(f.kids[idx], m), RightFrame(f.kids[idx], n, m)] + f.kids[idx + 1..])
  }

  /** The kids of the full child stay as they are. */
  lemma GrandKids(h: seq<Cell>, g: seq<Cell>, f: Frame, c: Frame, idx: nat, max: nat)
    requires Laid(h, f, max) && idx < |f.kids| && c == f.kids[idx] && Within(h, g, {f.ref, c.ref})
    ensures forall i :: 0 <= i < |c.kids| ==> Laid(g, c.kids[i], max) && Value(g, c.kids[i]) == Value(h, c.kids[i])
    ensures forall i :: 0 <= i < |c.kids| ==> c.ref !in Refs(c.kids[i]) && |h| !in Refs(c.kids[i])
  {
    forall i | 0 <= i < |c.kids|
      ensures Laid(g, c.kids[i], max) && Value(g, c.kids[i]) == Value(h, c.kids[i])
      ensures c.ref !in Refs(c.kids[i]) && |h| !in Refs(c.kids[i])
    {
      KidRefs(c, i);
      LaidRange(h, c.kids[i], max);
      Untouched(h, g, {f.ref, c.ref}, c.kids[i], max);
    }
  }

  /** A node over some of the kids. */
  lemma PartLaid(g: seq<Cell>, r: Ref, kids: seq<Frame>, a: nat, b: nat, max: nat)
    requires a <= b <= |kids| && Apart(kids) && NIL < r < |g| && CellOk(g[r], max) && Points(g[r], kids[a..b])
    requires forall i :: 0 <= i < |kids| ==> Laid(g, kids[i], max) && r !in Refs(kids[i])
    ensures Laid(g, At(r, kids[a..b]), max)
  {
    var part := kids[a..b];
    forall i, j | 0 <= i < j < |part| ensures Refs(part[i]) !! Refs(part[j]) {
      assert Refs(kids[a + i]) !! Refs(kids[a + j]);
    }
  }

  lemma PartValues(h: seq<Cell>, g: seq<Cell>, c: Frame, r: Ref, a: nat, b: nat)
    requires a <= b <= |c.kids| && forall i :: 0 <= i < |c.kids| ==> Value(g, c.kids[i]) == Value(h, c.kids[i])
    ensures Values(g, At(r, c.kids[a..b])) == Values(h, c)[a..b]
  { }

  lemma LeftPoints(full: Cell, kids: seq<Frame>, max: nat)
    requires CellOk(full, max) && full.count == max && Points(full, kids)
    ensures Points(full.(count := max / 2), if kids == [] then [] else kids[0..max / 2 + 1])
  { }

  lemma RightPoints(full: Cell, new_: Cell, kids: seq<Frame>, max: nat)
    requires CellOk(full, max) && full.count == max && Points(full, kids) && SplitRight(full, new_, max)
    ensures Points(new_, if kids == [] then [] else kids[max / 2 + 1..|kids|])
  {
    var m := max / 2;
    if kids != [] {
      forall i | 0 <= i < max - m ensures new_.child[i] == kids[m + 1..|kids|][i].ref {
        assert new_.child[..max - m][i] == full.child[m + 1..][i];
      }
    }
  }

  /** The left half, in the entry of the full child. */
  lemma LeftLaid(h: seq<Cell>, g: seq<Cell>, f: Frame, c: Frame, idx: nat, max: nat)
    requires Laid(h, f, max) && idx < |f.kids| && c == f.kids[idx] && Laid(h, c, max) && h[c.ref].count == max > 0
    requires Within(h, g, {f.ref, c.ref}) && g[c.ref] == h[c.ref].(count := max / 2)
    ensures Laid(g, LeftFrame(c, max / 2), max)
    ensures var t := Value(h, c);
            |t.keys| == max && (t.kids == [] || |t.kids| == max + 1)
            && Value(g, LeftFrame(c, max / 2)) == LeftHalf(t, max)
  {
    var m := max / 2;
    var b := if c.kids == [] then 0 else m + 1;
    GrandKids(h, g, f, c, idx, max);
    LeftPoints(h[c.ref], c.kids, max);
    assert LeftFrame(c, m) == At(c.ref, c.kids[0..b]);
    PartLaid(g, c.ref, c.kids, 0, b, max);
    PartValues(h, g, c, c.ref, 0, b);
    Sizes(g, LeftFrame(c, m), max);
    Sizes(h, c, max);
    LeftKeys(h[c.ref].keys, m, max);
  }

  lemma LeftKeys(ks: seq<int>, m: nat, max: nat)
    requires m <= max == |ks|
    ensures ks[..max][..m] == ks[..m]
  { }

  /** The right half, in a new entry. */
  lemma RightLaid(h: seq<Cell>, g: seq<Cell>, f: Frame, c: Frame, idx: nat, max: nat)
    requires Laid(h, f, max) && idx < |f.kids| && c == f.kids[idx] && Laid(h, c, max) && h[c.ref].count == max > 0
    requires Within(h, g, {f.ref, c.ref}) && |g| == |h| + 1 && SplitRight(h[c.ref], g[|h|], max)
    ensures Laid(g, RightFrame(c, |h|, max / 2), max)
    ensures var t := Value(h, c);
            |t.keys| == max && (t.kids == [] || |t.kids| == max + 1)
            && Value(g, RightFrame(c, |h|, max / 2)) == RightHalf(t, max)
  {
    GrandKids(h, g, f, c, idx, max);
    RightPoints(h[c.ref], g[|h|], c.kids, max);
    RightPart(g, |h|, c, max);
    RightValue(h, g, c, |h|, max);
  }

  lemma RightPart(g: seq<Cell>, n: Ref, c: Frame, max: nat)
    requires NIL < n < |g| && CellOk(g[n], max) && Apart(c.kids) && (c.kids == [] || |c.kids| == max + 1 > 1)
    requires Points(g[n], if c.kids == [] then [] else c.kids[max / 2 + 1..|c.kids|])
    requires forall i :: 0 <= i < |c.kids| ==> Laid(g, c.kids[i], max) && n !in Refs(c.kids[i])
    ensures Laid(g, RightFrame(c, n, max / 2), max)
  {
    if c.kids != [] { PartLaid(g, n, c.kids, max / 2 + 1, |c.kids|, max); }
  }

  lemma RightValue(h: seq<Cell>, g: seq<Cell>, c: Frame, n: Ref, max: nat)
    requires Laid(h, c, max) && h[c.ref].count == max > 0 && n < |g| && SplitRight(h[c.ref], g[n], max)
    requires Laid(g, RightFrame(c, n, max / 2), max)
    requires forall i :: 0 <= i < |c.kids| ==> Value(g, c.kids[i]) == Value(h, c.kids[i])
    ensures var t := Value(h, c);
            |t.keys| == max && (t.kids == [] || |t.kids| == max + 1)
            && Value(g, RightFrame(c, n, max / 2)) == RightHalf(t, max)
  {
    Sizes(g, RightFrame(c, n, max / 2), max);
    Sizes(h, c, max);
    RightKeys(h[c.ref].keys, max / 2, max);
    if c.kids != [] { PartValues(h, g, c, n, max / 2 + 1, |c.kids|); }
  }

  lemma RightKeys(ks: seq<int>, m: nat, max: nat)
    requires m < max == |ks|
    ensures ks[..max][m + 1..] == ks[m + 1..]
  { }

  lemma LeftRefs(c: Frame, m: nat)
    ensures forall r :: r in Refs(LeftFrame(c, m)) ==> r in Refs(c)
  { }

  lemma RightRefs(c: Frame, n: Ref, m: nat)
    ensures forall r :: r in Refs(RightFrame(c, n, m)) ==> r == n || r in Refs(c)
  { }

  /** Kid `k` after the split, and the kid it comes from. */
  lemma SplitKid(f: Frame, idx: nat, n: Ref, m: nat, k: nat)
    requires idx < |f.kids| && k <= |f.kids|
    ensures var kids := SplitFrame(f, idx, n, m).kids; |kids| == |f.kids| + 1
    ensures SplitFrame(f, idx, n, m).kids[k] ==
            if k < idx then f.kids[k] else if k == idx then LeftFrame(f.kids[idx], m)
            else if k == idx + 1 then RightFrame(f.kids[idx], n, m) else f.kids[k - 1]
  { }

  lemma SplitKidRefs(f: Frame, idx: nat, n: Ref, m: nat, k: nat)
    requires idx < |f.kids| && k <= |f.kids| && |SplitFrame(f, idx, n, m).kids| == |f.kids| + 1
    ensures var x, o := SplitFrame(f, idx, n, m).kids[k], f.kids[if k <= idx then k else k - 1];
            forall r :: r in Refs(x) ==> r in Refs(o) || (r == n && k == idx + 1)
  {
    SplitKid(f, idx, n, m, k);
    LeftRefs(f.kids[idx], m);
    RightRefs(f.kids[idx], n, m);
  }

  /** A kid other than the one that is split. */
  lemma KidStays(h: seq<Cell>, g: seq<Cell>, f: Frame, idx: nat, o: nat, max: nat)
    requires Laid(h, f, max) && idx < |f.kids| && o < |f.kids| && o != idx && Within(h, g, {f.ref, f.kids[idx].ref})
    ensures Laid(g, f.kids[o], max) && Value(g, f.kids[o]) == Value(h, f.kids[o])
  {
    var a, b := if o < idx then o else idx, if o < idx then idx else o;
    assert Refs(f.kids[a]) !! Refs(f.kids[b]);
    assert f.kids[idx].ref in Refs(f.kids[idx]);
    Untouched(h, g, {f.ref, f.kids[idx].ref}, f.kids[o], max);
  }

  lemma SplitKidLaid(h: seq<Cell>, g: seq<Cell>, f: Frame, idx: nat, k: nat, max: nat)
    requires Laid(h, f, max) && idx < |f.kids| && k <= |f.kids| && SplitCells(h, g, f.ref, f.kids[idx].ref, idx, max)
    requires |SplitFrame(f, idx, |h|, max / 2).kids| == |f.kids| + 1
    ensures var x := SplitFrame(f, idx, |h|, max / 2).kids[k]; Laid(g, x, max) && f.ref !in Refs(x)
    ensures k < idx || k > idx + 1 ==>
              Value(g, SplitFrame(f, idx, |h|, max / 2).kids[k]) == Value(h, f.kids[if k <= idx then k else k - 1])
  {
    SplitKid(f, idx, |h|, max / 2, k);
    SplitKidRefs(f, idx, |h|, max / 2, k);
    if k == idx {
      LeftLaid(h, g, f, f.kids[idx], idx, max);
    } else if k == idx + 1 {
      RightLaid(h, g, f, f.kids[idx], idx, max);
    } else {
      KidStays(h, g, f, idx, if k < idx then k else k - 1, max);
    }
  }

  /** The two halves do not meet. */
  lemma HalvesApart(h: seq<Cell>, c: Frame, m: nat, max: nat)
    requires Laid(h, c, max)
    ensures Refs(LeftFrame(c, m)) !! Refs(RightFrame(c, |h|, m))
  {
    var l, r := LeftFrame(c, m), RightFrame(c, |h|, m);
    forall x | x in Refs(l) ensures x !in Refs(r) {
      LaidRange(h, c, max);
      if x == c.ref {
        TopNotRight(c, |h|, m);
      } else {
        var i :| 0 <= i < |l.kids| && x in Refs(l.kids[i]);
        KidRefs(c, i);
        NotRight(c, |h|, m, i, x);
      }
    }
  }

  lemma TopNotRight(c: Frame, n: Ref, m: nat)
    requires c.ref != n && forall i :: 0 <= i < |c.kids| ==> c.ref !in Refs(c.kids[i])
    ensures c.ref !in Refs(RightFrame(c, n, m))
  { }

  lemma NotRight(c: Frame, n: Ref, m: nat, i: nat, x: Ref)
    requires Apart(c.kids) && i <= m < |c.kids| && x in Refs(c.kids[i]) && x != n
    ensures x !in Refs(RightFrame(c, n, m))
  {
    var r := RightFrame(c, n, m);
    forall j | 0 <= j < |r.kids| ensures x !in Refs(r.kids[j]) {
      assert Refs(c.kids[i]) !! Refs(c.kids[m + 1 + j]);
    }
  }

  lemma SplitApart(h: seq<Cell>, f: Frame, idx: nat, i: nat, j: nat, max: nat)
    requires Laid(h, f, max) && idx < |f.kids| && i < j <= |f.kids|
    requires |SplitFrame(f, idx, |h|, max / 2).kids| == |f.kids| + 1
    ensures var kids := SplitFrame(f, idx, |h|, max / 2).kids; Refs(kids[i]) !! Refs(kids[j])
  {
    var m := max / 2;
    var kids := SplitFrame(f, idx, |h|, m).kids;
    if i == idx && j == idx + 1 {
      SplitKid(f, idx, |h|, m, i);
      SplitKid(f, idx, |h|, m, j);
      HalvesApart(h, f.kids[idx], m, max);
    } else {
      var a, b := if i <= idx then i else i - 1, if j <= idx then j else j - 1;
      SplitKidRefs(f, idx, |h|, m, i);
      SplitKidRefs(f, idx, |h|, m, j);
      assert Refs(f.kids[a]) !! Refs(f.kids[b]);
      LaidRange(h, f.kids[a], max);
      LaidRange(h, f.kids[b], max);
    }
  }

  lemma SplitPoints(h: seq<Cell>, g: seq<Cell>, f: Frame, idx: nat, max: nat)
    requires Laid(h, f, max) && idx < |f.kids| && SplitCells(h, g, f.ref, f.kids[idx].ref, idx, max)
    ensures Points(g[f.ref], SplitFrame(f, idx, |h|, max / 2).kids)
  {
    var kids := SplitFrame(f, idx, |h|, max / 2).kids;
    forall k | 0 <= k < |kids| ensures k < |g[f.ref].child| && g[f.ref].child[k] == kids[k].ref {
      SplitKid(f, idx, |h|, max / 2, k);
      ShiftedAt(h[f.ref].child, g[f.ref].child, h[f.ref].count, idx, |h|, k);
    }
  }

  /** The pointers of a parent after a split, one by one. */
  lemma ShiftedAt(before: seq<Ref>, after: seq<Ref>, count: nat, idx: nat, n: Ref, k: nat)
    requires Shifted(before, after, count, idx, n) && k <= count + 1
    ensures after[k] == if k <= idx then before[k] else if k == idx + 1 then n else before[k - 1]
  {
    assert after[k] == after[..count + 2][k];
  }

  /** The nodes after a split make up the tree after a split. */
  lemma SplitLaid(h: seq<Cell>, g: seq<Cell>, f: Frame, idx: nat, max: nat)
    requires Laid(h, f, max) && idx < |f.kids| && SplitCells(h, g, f.ref, f.kids[idx].ref, idx, max)
    ensures Laid(g, SplitFrame(f, idx, |h|, max / 2), max)
  {
    var f' := SplitFrame(f, idx, |h|, max / 2);
    SplitPoints(h, g, f, idx, max);
    forall i, j | 0 <= i < j < |f'.kids|
      ensures Refs(f'.kids[i]) !! Refs(f'.kids[j])
    {
      SplitApart(h, f, idx, i, j, max);
    }
    forall i | 0 <= i < |f'.kids|
      ensures Laid(g, f'.kids[i], max) && f.ref !in Refs(f'.kids[i])
    {
      SplitKidLaid(h, g, f, idx, i, max);
    }
  }

  lemma SplitValues(h: seq<Cell>, g: seq<Cell>, f: Frame, idx: nat, max: nat, l: Tree, r: Tree)
    requires Laid(h, f, max) && idx < |f.kids| && SplitCells(h, g, f.ref, f.kids[idx].ref, idx, max)
    requires l == Value(g, LeftFrame(f.kids[idx], max / 2)) && r == Value(g, RightFrame(f.kids[idx], |h|, max / 2))
    ensures Values(g, SplitFrame(f, idx, |h|, max / 2)) == Values(h, f)[..idx] + [l, r] + Values(h, f)[idx + 1..]
  {
    var f' := SplitFrame(f, idx, |h|, max / 2);
    var vs := Values(h, f)[..idx] + [l, r] + Values(h, f)[idx + 1..];
    forall k | 0 <= k < |f'.kids| ensures Values(g, f')[k] == vs[k] {
      SplitKid(f, idx, |h|, max / 2, k);
      SplitKidLaid(h, g, f, idx, k, max);
      PickAt(Values(h, f), idx, l, r, k);
    }
  }

  lemma PickAt(vs: seq<Tree>, idx: nat, l: Tree, r: Tree, k: nat)
    requires idx < |vs| && k <= |vs|
    ensures (vs[..idx] + [l, r] + vs[idx + 1..])[k] ==
              if k < idx then vs[k] else if k == idx then l else if k == idx + 1 then r else vs[k - 1]
  { }

  lemma SplitKeys(h: seq<Cell>, g: seq<Cell>, p: Ref, c: Ref, idx: nat, max: nat)
    requires SplitCells(h, g, p, c, idx, max)
    ensures var ks := h[p].keys[..h[p].count];
            g[p].keys[..g[p].count] == ks[..idx] + [h[c].keys[..max][max / 2]] + ks[idx..]
  {
    Parts(h[p].keys, h[p].count, idx);
  }

  lemma Parts<T>(s: seq<T>, n: nat, idx: nat)
    requires idx <= n <= |s|
    ensures s[..n][..idx] == s[..idx] && s[..n][idx..] == s[idx..n]
  { }

  lemma SplitValue(h: seq<Cell>, g: seq<Cell>, f: Frame, idx: nat, max: nat)
    requires Laid(h, f, max) && idx < |f.kids| && SplitCells(h, g, f.ref, f.kids[idx].ref, idx, max)
    ensures var t := Value(h, f);
            && idx < |t.kids| == |t.keys| + 1 && |t.kids[idx].keys| == max > 0
               && (t.kids[idx].kids == [] || |t.kids[idx].kids| == max + 1)
            && Value(g, SplitFrame(f, idx, |h|, max / 2)) == SplitChild(t, idx, max)
  {
    LeftLaid(h, g, f, f.kids[idx], idx, max);
    RightLaid(h, g, f, f.kids[idx], idx, max);
    var c := Value(h, f.kids[idx]);
    SplitValues(h, g, f, idx, max, LeftHalf(c, max), RightHalf(c, max));
    SplitKeys(h, g, f.ref, f.kids[idx].ref, idx, max);
  }

  // ---------------------------------------------------------------- the methods

  /** An entry put in at `idx`, seen from the shifting loop. */
  lemma SpreadPart<T>(before: seq<T>, after: seq<T>, count: nat, idx: nat, x: T)
    requires |before| == |after| > count >= idx && after[idx] == x
    requires (forall i :: 0 <= i < idx ==> after[i] == before[i])
             && forall i :: idx <= i < count ==> after[i + 1] == before[i]
    ensures after[..count + 1] == before[..idx] + [x] + before[idx..count]
  {
    Spread(after[..count + 1], before[..count], idx, x);
    Parts(before, count, idx);
  }

  lemma KeyPut(before: seq<int>, after: seq<int>, count: nat, p: nat, key: int)
    requires |before| == |after| > count >= p && after[p] == key
    requires (forall i :: 0 <= i < p ==> after[i] == before[i])
             && forall i :: p <= i < count ==> after[i + 1] == before[i] && key < before[i]
    requires p > 0 ==> before[p - 1] <= key
    ensures var s := before[..count]; var i := Upper(s, key); after[..count + 1] == s[..i] + [key] + s[i..]
  {
    UpperIs(before[..count], key, p);
    Spread(after[..count + 1], before[..count], p, key);
  }

  lemma ShiftedBy(before: seq<Ref>, after: seq<Ref>, count: nat, idx: nat, n: Ref)
    requires |before| == |after| > count + 1 && idx <= count && after[idx + 1] == n
    requires (forall i :: 0 <= i <= idx ==> after[i] == before[i])
             && forall i :: idx < i <= count ==> after[i + 1] == before[i]
    ensures Shifted(before, after, count, idx, n)
  {
    SpreadPart(before, after, count + 1, idx + 1, n);
  }

  lemma KeyAt(h: seq<Cell>, f: Frame, max: nat, i: nat)
    requires Laid(h, f, max) && i < |Value(h, f).keys|
    ensures i < |h[f.ref].keys| && Value(h, f).keys[i] == h[f.ref].keys[i]
  { }

  lemma SplitUses(h: seq<Cell>, g: seq<Cell>, f: Frame, idx: nat, m: nat)
    requires idx < |f.kids| && Within(h, g, {f.ref, f.kids[idx].ref})
    ensures OldOrNew(h, Refs(f), Refs(SplitFrame(f, idx, |h|, m))) && Within(h, g, Refs(f))
  {
    var f' := SplitFrame(f, idx, |h|, m);
    forall r | r in Refs(f') ensures r in Refs(f) || r >= |h| {
      if r != f.ref {
        var k :| 0 <= k < |f'.kids| && r in Refs(f'.kids[k]);
        SplitKidRefs(f, idx, |h|, m, k);
        KidRefs(f, if k <= idx then k else k - 1);
      }
    }
    KidRefs(f, idx);
    assert f.kids[idx].ref in Refs(f.kids[idx]);
  }

  /** One change after another. */
  lemma Twice(h: seq<Cell>, g: seq<Cell>, k: seq<Cell>, f: Frame, f1: Frame, f2: Frame)
    requires Within(h, g, Refs(f)) && OldOrNew(h, Refs(f), Refs(f1)) && Within(g, k, Refs(f1))
             && OldOrNew(g, Refs(f1), Refs(f2))
    ensures Within(h, k, Refs(f)) && OldOrNew(h, Refs(f), Refs(f2))
  { }

  class Store {
    const max: nat
    var nodes: seq<Cell>
    var root: Ref
    ghost var frame: Frame
    ghost var depth: nat

    ghost predicate Valid()
      reads this
    {
      && max >= 3 && nodes != []
      && (root != NIL ==> root == frame.ref && Laid(nodes, frame, max)
                          && Shape(Value(nodes, frame), depth, max) && Sorted(Flat(Value(nodes, frame))))
    }

    /** All keys from left to right. */
    ghost function Keys(): seq<int>
      reads this
    {
      if root == NIL then [] else Flat(Value(nodes, frame))
    }

    constructor (maxKeys: nat)
      requires maxKeys >= 3
      ensures Valid() && Keys() == [] && max == maxKeys
    {
      max, nodes, root, frame, depth := maxKeys, [Cell([], 0, [], true)], NIL, At(NIL, []), 0;
    }

    method CreateNode(isLeaf: bool) returns (n: Ref)
      modifies this`nodes
      ensures n == old(|nodes|) && nodes == old(nodes) + [Cell(seq(max, _ => 0), 0, seq(max + 1, _ => NIL), isLeaf)]
    {
      nodes := nodes + [Cell(seq(max, _ => 0), 0, seq(max + 1, _ => NIL), isLeaf)];
      n := |nodes| - 1;
    }

    /** The new right half of a full node: its keys and pointers are copied one by one. */
    method CopyRight(full: Ref) returns (n: Ref)
      requires full < |nodes| && CellOk(nodes[full], max) && max > 0
      modifies this`nodes
      ensures n == old(|nodes|) && |nodes| == n + 1 && Within(old(nodes), nodes, {})
              && SplitRight(old(nodes[full]), nodes[n], max)
    {
      ghost var h := nodes;
      var mid := max / 2;
      n := CreateNode(nodes[full].isLeaf);
      nodes := nodes[n := nodes[n].(count := max - mid - 1)];
      var j := 0;
      while j < nodes[n].count
        invariant |nodes| == n + 1 && Within(h, nodes, {}) && CellOk(nodes[n], max)
        invariant nodes[n].count == max - mid - 1 && nodes[n].isLeaf == h[full].isLeaf && j <= nodes[n].count
        invariant forall i :: 0 <= i < j ==> nodes[n].keys[i] == h[full].keys[mid + 1 + i]
      {
        nodes := nodes[n := nodes[n].(keys := nodes[n].keys[j := nodes[full].keys[mid + 1 + j]])];
        j := j + 1;
      }
      assert nodes[n].keys[..max - mid - 1] == h[full].keys[mid + 1..];
      if !nodes[full].isLeaf {
        j := 0;
        while j <= nodes[n].count
          invariant |nodes| == n + 1 && Within(h, nodes, {}) && CellOk(nodes[n], max)
          invariant nodes[n].count == max - mid - 1 && nodes[n].isLeaf == h[full].isLeaf && j <= nodes[n].count + 1
          invariant nodes[n].keys[..max - mid - 1] == h[full].keys[mid + 1..]
          invariant forall i :: 0 <= i < j ==> nodes[n].child[i] == h[full].child[mid + 1 + i]
        {
          nodes := nodes[n := nodes[n].(child := nodes[n].child[j := nodes[full].child[mid + 1 + j]])];
          j := j + 1;
        }
        assert nodes[n].child[..max - mid] == h[full].child[mid + 1..];
      }
    }

    /** The pointers behind pointer `idx` move up by one, and `n` takes the place. */
    method ShiftChildren(p: Ref, idx: nat, n: Ref)
      requires p < |nodes| && CellOk(nodes[p], max) && idx <= nodes[p].count < max
      modifies this`nodes
      ensures |nodes| == old(|nodes|) && Within(old(nodes), nodes, {p})
              && nodes[p] == old(nodes[p]).(child := nodes[p].child)
      ensures Shifted(old(nodes[p].child), nodes[p].child, nodes[p].count, idx, n)
    {
      ghost var h := nodes;
      ghost var count, before := nodes[p].count, nodes[p].child;
      var j := nodes[p].count;
      while j >= idx + 1
        invariant idx <= j <= count && |nodes| == |h| && Within(h, nodes, {p})
                  && nodes[p] == h[p].(child := nodes[p].child)
        invariant |nodes[p].child| == max + 1 && forall k :: 0 <= k <= j ==> nodes[p].child[k] == before[k]
        invariant forall k :: j < k <= count ==> nodes[p].child[k + 1] == before[k]
      {
        nodes := nodes[p := nodes[p].(child := nodes[p].child[j + 1 := nodes[p].child[j]])];
        j := j - 1;
      }
      nodes := nodes[p := nodes[p].(child := nodes[p].child[idx + 1 := n])];
      ShiftedBy(before, nodes[p].child, count, idx, n);
    }

    /** The keys from `idx` on move up by one, and `k` takes the place. */
    method ShiftKeys(p: Ref, idx: nat, k: int)
      requires p < |nodes| && CellOk(nodes[p], max) && idx <= nodes[p].count < max
      modifies this`nodes
      ensures |nodes| == old(|nodes|) && Within(old(nodes), nodes, {p})
              && nodes[p] == old(nodes[p]).(keys := nodes[p].keys)
      ensures var count, ks := nodes[p].count, old(nodes[p].keys);
              |nodes[p].keys| == max && nodes[p].keys[..count + 1] == ks[..idx] + [k] + ks[idx..count]
    {
      ghost var h := nodes;
      ghost var count, before := nodes[p].count, nodes[p].keys;
      var j := nodes[p].count - 1;
      while j >= idx
        invariant idx - 1 <= j < count && |nodes| == |h| && Within(h, nodes, {p})
                  && nodes[p] == h[p].(keys := nodes[p].keys)
        invariant |nodes[p].keys| == max && forall i :: 0 <= i <= j ==> nodes[p].keys[i] == before[i]
        invariant forall i :: j < i < count ==> nodes[p].keys[i + 1] == before[i]
      {
        nodes := nodes[p := nodes[p].(keys := nodes[p].keys[j + 1 := nodes[p].keys[j]])];
        j := j - 1;
      }
      nodes := nodes[p := nodes[p].(keys := nodes[p].keys[idx := k])];
      SpreadPart(before, nodes[p].keys, count, idx, k);
    }

    method SplitNodes(p: Ref, idx: nat, full: Ref)
      requires p < |nodes| && full < |nodes| && p != full && CellOk(nodes[p], max) && CellOk(nodes[full], max)
      requires idx <= nodes[p].count < max && nodes[full].count == max
      modifies this`nodes
      ensures SplitCells(old(nodes), nodes, p, full, idx, max)
    {
      var n := CopyRight(full);
      nodes := nodes[full := nodes[full].(count := max / 2)];
      ShiftChildren(p, idx, n);
      ShiftKeys(p, idx, nodes[full].keys[max / 2]);
      nodes := nodes[p := nodes[p].(count := nodes[p].count + 1)];
    }

    method SplitChildAt(p: Ref, idx: nat, full: Ref, ghost f: Frame) returns (ghost f': Frame)
      requires Laid(nodes, f, max) && p == f.ref && idx < |f.kids| && full == f.kids[idx].ref
      requires nodes[p].count < max && Laid(nodes, f.kids[idx], max) && nodes[full].count == max
      modifies this`nodes
      ensures f' == SplitFrame(f, idx, old(|nodes|), max / 2) && Laid(nodes, f', max)
      ensures Within(old(nodes), nodes, Refs(f)) && OldOrNew(old(nodes), Refs(f), Refs(f'))
      ensures var t := old(Value(nodes, f));
              && idx < |t.kids| == |t.keys| + 1 && |t.kids[idx].keys| == max > 0
                 && (t.kids[idx].kids == [] || |t.kids[idx].kids| == max + 1)
              && Value(nodes, f') == SplitChild(t, idx, max)
    {
      ghost var h := nodes;
      assert p != full by { assert full in Refs(f.kids[idx]); }
      SplitNodes(p, idx, full);
      f' := SplitFrame(f, idx, |h|, max / 2);
      SplitLaid(h, nodes, f, idx, max);
      SplitValue(h, nodes, f, idx, max);
      SplitUses(h, nodes, f, idx, max / 2);
    }

    /** The insertion loop of a leaf: larger keys move up by one from the right. */
    method InsertKey(node: Ref, key: int)
      requires node < |nodes| && CellOk(nodes[node], max) && nodes[node].count < max
      modifies this`nodes
      ensures |nodes| == old(|nodes|) && Within(old(nodes), nodes, {node}) && CellOk(nodes[node], max)
      ensures nodes[node] == old(nodes[node]).(keys := nodes[node].keys, count := old(nodes[node].count) + 1)
      ensures var s := old(nodes[node].keys[..nodes[node].count]); var i := Upper(s, key);
              nodes[node].keys[..nodes[node].count] == s[..i] + [key] + s[i..]
    {
      ghost var h := nodes;
      ghost var count, before := nodes[node].count, nodes[node].keys;
      var i := nodes[node].count - 1;
      while i >= 0 && key < nodes[node].keys[i]
        invariant -1 <= i < count && |nodes| == |h| && Within(h, nodes, {node})
                  && nodes[node] == h[node].(keys := nodes[node].keys)
        invariant |nodes[node].keys| == max && forall j :: 0 <= j <= i ==> nodes[node].keys[j] == before[j]
        invariant forall j :: i < j < count ==> nodes[node].keys[j + 1] == before[j] && key < before[j]
      {
        nodes := nodes[node := nodes[node].(keys := nodes[node].keys[i + 1 := nodes[node].keys[i]])];
        i := i - 1;
      }
      nodes := nodes[node := nodes[node].(keys := nodes[node].keys[i + 1 := key])];
      KeyPut(before, nodes[node].keys, count, i + 1, key);
      nodes := nodes[node := nodes[node].(count := nodes[node].count + 1)];
    }

    /** The kid for a key, found from the right. */
    method KidFor(node: Ref, key: int) returns (i: nat)
      requires node < |nodes| && CellOk(nodes[node], max)
      ensures i == Upper(nodes[node].keys[..nodes[node].count], key)
    {
      var j := nodes[node].count - 1;
      while j >= 0 && key < nodes[node].keys[j]
        invariant -1 <= j < nodes[node].count && forall k :: j < k < nodes[node].count ==> key < nodes[node].keys[k]
      {
        j := j - 1;
      }
      i := j + 1;
      UpperIs(nodes[node].keys[..nodes[node].count], key, i);
    }

    /** The search loop of a node. */
    method FindIndex(node: Ref, key: int) returns (i: nat)
      requires node < |nodes| && CellOk(nodes[node], max)
      ensures i == Lower(nodes[node].keys[..nodes[node].count], key)
    {
      ghost var ks := nodes[node].keys[..nodes[node].count];
      i := 0;
      while i < nodes[node].count && key > nodes[node].keys[i]
        invariant i <= |ks| && Lower(ks, key) == i + Lower(ks[i..], key)
      {
        assert ks[i..][1..] == ks[i + 1..];
        i := i + 1;
      }
    }

    /** Kid `idx` is split, and the key goes on into one of the halves. */
    method SplitFor(node: Ref, idx: nat, full: Ref, key: int, ghost f: Frame, ghost t: Tree, ghost d: nat)
        returns (i: nat, ghost f': Frame)
      requires Laid(nodes, f, max) && node == f.ref && idx < |f.kids| && full == f.kids[idx].ref && t == Value(nodes, f)
      requires nodes[node].count < max && Laid(nodes, f.kids[idx], max) && nodes[full].count == max
      requires max >= 3 && |t.keys| < max && idx < |t.kids| == |t.keys| + 1 && ForKey(t.keys, idx, key)
      requires KidsShape(t.kids, d, max) && Shape(t.kids[idx], d, max) && |t.kids[idx].keys| == max
      modifies this`nodes
      ensures Laid(nodes, f', max) && f'.ref == node && i < |f'.kids|
      ensures Within(old(nodes), nodes, Refs(f)) && OldOrNew(old(nodes), Refs(f), Refs(f'))
      ensures Fits(Value(nodes, f'), i, key, d + 1, max) && Flat(Value(nodes, f')) == Flat(t)
              && |Value(nodes, f').keys| > |t.keys|
    {
      f' := SplitChildAt(node, idx, full, f);
      KeyAt(nodes, f', max, idx);
      i := if key > nodes[node].keys[idx] then idx + 1 else idx;
      HalfFits(t, Value(nodes, f'), idx, i, key, d, max);
      Sizes(nodes, f', max);
    }

    /** The kid on the way to a key is split if it is full. */
    method MakeReady(node: Ref, key: int, ghost f: Frame, ghost d: nat) returns (i: nat, ghost f': Frame)
      requires Laid(nodes, f, max) && node == f.ref && f.kids != [] && nodes[node].count < max && max >= 3
      requires d > 0 && Shape(Value(nodes, f), d, max)
      modifies this`nodes
      ensures Laid(nodes, f', max) && f'.ref == node && i < |f'.kids|
      ensures Within(old(nodes), nodes, Refs(f)) && OldOrNew(old(nodes), Refs(f), Refs(f'))
      ensures Fits(Value(nodes, f'), i, key, d, max) && Flat(Value(nodes, f')) == old(Flat(Value(nodes, f)))
              && |Value(nodes, f').keys| >= old(|Value(nodes, f).keys|)
    {
      ghost var t := Value(nodes, f);
      Sizes(nodes, f, max);
      f' := f;
      i := KidFor(node, key);
      KidOk(t, i, d, max);
      Sizes(nodes, f.kids[i], max);
      if nodes[nodes[node].child[i]].count == max {
        i, f' := SplitFor(node, i, nodes[node].child[i], key, f, t, d - 1);
      } else {
        KidFits(t, i, key, d, max);
      }
    }

    method InsertLeafAt(node: Ref, key: int, ghost f: Frame, ghost d: nat)
      requires Laid(nodes, f, max) && node == f.ref && f.kids == [] && nodes[node].count < max
      requires Shape(Value(nodes, f), d, max) && Sorted(Flat(Value(nodes, f)))
      modifies this`nodes
      ensures Laid(nodes, f, max) && Within(old(nodes), nodes, Refs(f))
      ensures Shape(Value(nodes, f), d, max) && PutIn(old(Flat(Value(nodes, f))), key, Flat(Value(nodes, f)))
              && |Value(nodes, f).keys| >= old(|Value(nodes, f).keys|)
    {
      ghost var t := Value(nodes, f);
      Sizes(nodes, f, max);
      InsertKey(node, key);
      assert Laid(nodes, f, max);
      Sizes(nodes, f, max);
      LeafPut(t, Value(nodes, f), key, d, max);
    }

    /** The way down: no node on it is full when the key arrives. */
    method InsertNonFullAt(node: Ref, key: int, ghost f: Frame, ghost d: nat) returns (ghost f': Frame)
      requires Laid(nodes, f, max) && node == f.ref && nodes[node].count < max && max >= 3
      requires Shape(Value(nodes, f), d, max) && Sorted(Flat(Value(nodes, f)))
      modifies this`nodes
      ensures Laid(nodes, f', max) && f'.ref == node && Within(old(nodes), nodes, Refs(f))
              && OldOrNew(old(nodes), Refs(f), Refs(f'))
      ensures Shape(Value(nodes, f'), d, max) && PutIn(old(Flat(Value(nodes, f))), key, Flat(Value(nodes, f')))
              && |Value(nodes, f').keys| >= old(|Value(nodes, f).keys|)
      decreases d, 1
    {
      Sizes(nodes, f, max);
      if nodes[node].isLeaf {
        InsertLeafAt(node, key, f, d);
        f' := f;
      } else {
        f' := InsertInnerAt(node, key, f, d);
      }
    }

    method InsertInnerAt(node: Ref, key: int, ghost f: Frame, ghost d: nat) returns (ghost f': Frame)
      requires Laid(nodes, f, max) && node == f.ref && f.kids != [] && nodes[node].count < max && max >= 3
      requires d > 0 && Shape(Value(nodes, f), d, max) && Sorted(Flat(Value(nodes, f)))
      modifies this`nodes
      ensures Laid(nodes, f', max) && f'.ref == node && Within(old(nodes), nodes, Refs(f))
              && OldOrNew(old(nodes), Refs(f), Refs(f'))
      ensures Shape(Value(nodes, f'), d, max) && PutIn(old(Flat(Value(nodes, f))), key, Flat(Value(nodes, f')))
              && |Value(nodes, f').keys| >= old(|Value(nodes, f).keys|)
      decreases d, 0
    {
      ghost var h := nodes;
      var i;
      ghost var f1;
      i, f1 := MakeReady(node, key, f, d);
      ghost var g := nodes;
      f' := InsertIntoKid(node, i, key, f1, d - 1);
      Twice(h, g, nodes, f, f1, f');
    }

    method InsertIntoKid(node: Ref, i: nat, key: int, ghost f: Frame, ghost d: nat) returns (ghost f': Frame)
      requires Laid(nodes, f, max) && node == f.ref && max >= 3 && i < |f.kids|
      requires Fits(Value(nodes, f), i, key, d + 1, max) && Sorted(Flat(Value(nodes, f)))
      modifies this`nodes
      ensures Laid(nodes, f', max) && f'.ref == node && Within(old(nodes), nodes, Refs(f))
              && OldOrNew(old(nodes), Refs(f), Refs(f'))
      ensures Shape(Value(nodes, f'), d + 1, max) && PutIn(old(Flat(Value(nodes, f))), key, Flat(Value(nodes, f')))
              && |Value(nodes, f').keys| >= old(|Value(nodes, f).keys|)
      decreases d, 2
    {
      ghost var g, t := nodes, Value(nodes, f);
      Sizes(nodes, f, max);
      Sizes(nodes, f.kids[i], max);
      SortedKid(t, i);
      ghost var kid := InsertNonFullAt(nodes[node].child[i], key, f.kids[i], d);
      f' := At(node, f.kids[i := kid]);
      KidChanged(g, nodes, f, i, kid, f', max);
      KidPut(t, i, key, Value(nodes, kid), Value(nodes, f'), d, max);
    }

    // ---------------------------------------------------------------- whole trees

    method SearchAt(node: Ref, key: int, ghost f: Frame, ghost d: nat) returns (found: bool)
      requires Laid(nodes, f, max) && node == f.ref && Shape(Value(nodes, f), d, max) && Sorted(Flat(Value(nodes, f)))
      ensures found <==> key in Flat(Value(nodes, f))
      decreases d
    {
      Sizes(nodes, f, max);
      var i := FindIndex(node, key);
      NodeHasKey(Value(nodes, f), i, key, d, max);
      if i < nodes[node].count && key == nodes[node].keys[i] {
        found := true;
      } else if nodes[node].isLeaf {
        found := false;
      } else {
        SortedKid(Value(nodes, f), i);
        found := SearchAt(nodes[node].child[i], key, f.kids[i], d - 1);
      }
    }

    method Search(key: int) returns (found: bool)
      requires Valid()
      ensures found <==> key in Keys()
    {
      if root == NIL { return false; }
      found := SearchAt(root, key, frame, depth);
    }

    /** A new node over the root, without keys as yet. */
    method NewTop() returns (top: Ref, ghost f: Frame)
      requires root != NIL && root == frame.ref && Laid(nodes, frame, max)
      modifies this`nodes
      ensures f == At(top, [frame]) && Laid(nodes, f, max) && nodes[top].count == 0
      ensures Value(nodes, f) == Node([], [old(Value(nodes, frame))]) && Laid(nodes, frame, max)
              && nodes[root].count == old(nodes[root].count)
    {
      ghost var h := nodes;
      top := CreateNode(false);
      nodes := nodes[top := nodes[top].(child := nodes[top].child[0 := root])];
      LaidRange(h, frame, max);
      Untouched(h, nodes, {}, frame, max);
      f := At(top, [frame]);
      assert Values(nodes, f) == [Value(h, frame)];
    }

    /** A full root is split under a new one, with the kid of it to go on with. */
    method GrowTop(key: int, ghost t: Tree) returns (top: Ref, i: nat, ghost f: Frame)
      requires root != NIL && root == frame.ref && Laid(nodes, frame, max) && nodes[root].count == max >= 3
      requires t == Value(nodes, frame) && Shape(t, depth, max)
      modifies this`nodes
      ensures Laid(nodes, f, max) && f.ref == top && i < |f.kids|
      ensures Fits(Value(nodes, f), i, key, depth + 1, max) && Flat(Value(nodes, f)) == Flat(t)
    {
      Sizes(nodes, frame, max);
      ghost var f0;
      top, f0 := NewTop();
      i, f := SplitFor(top, 0, root, key, f0, Node([], [t]), depth);
      AboveFlat(t);
    }

    method InsertIntoFull(key: int, ghost t: Tree) returns (top: Ref, ghost f': Frame)
      requires root != NIL && root == frame.ref && Laid(nodes, frame, max) && nodes[root].count == max >= 3
      requires t == Value(nodes, frame) && Shape(t, depth, max) && Sorted(Flat(t))
      modifies this`nodes
      ensures Laid(nodes, f', max) && f'.ref == top
      ensures Shape(Value(nodes, f'), depth + 1, max) && PutIn(Flat(t), key, Flat(Value(nodes, f')))
    {
      var i;
      ghost var f;
      top, i, f := GrowTop(key, t);
      f' := InsertIntoKid(top, i, key, f, depth);
    }

    method InsertFirst(key: int)
      requires max >= 3 && nodes != []
      modifies this
      ensures Valid() && root != NIL && Keys() == [key] && depth == 0
    {
      root := CreateNode(true);
      nodes := nodes[root := nodes[root].(keys := nodes[root].keys[0 := key])];
      nodes := nodes[root := nodes[root].(count := 1)];
      frame, depth := At(root, []), 0;
      assert nodes[root].keys[..1] == [key] && Values(nodes, frame) == [];
    }

    /** The key goes in; the leaves get one level deeper only when the root was full. */
    method InsertDown(key: int)
      requires Valid() && root != NIL
      modifies this
      ensures root != NIL && nodes != [] && root == frame.ref && Laid(nodes, frame, max)
              && Shape(Value(nodes, frame), depth, max)
      ensures PutIn(old(Keys()), key, Flat(Value(nodes, frame)))
      ensures depth == old(depth) + if old(nodes[root].count) == max then 1 else 0
    {
      if nodes[root].count == max {
        root, frame := InsertIntoFull(key, Value(nodes, frame));
        depth := depth + 1;
      } else {
        frame := InsertNonFullAt(root, key, frame, depth);
      }
    }

    method Insert(key: int)
      requires Valid()
      modifies this
      ensures Valid() && multiset(Keys()) == old(multiset(Keys())) + multiset{key}
    {
      if root == NIL {
        InsertFirst(key);
      } else {
        ghost var s := Keys();
        InsertDown(key);
        PutInMeans(s, key, Keys());
      }
    }

    lemma NotDeep()
      requires Valid()
      ensures root != NIL ==> DepthOk(|Keys()|, depth, max)
    {
      if root != NIL { DepthBound(Value(nodes, frame), depth, max); }
    }

    /**
     Any sequence of insertions leaves a tree in shape and in order, with exactly the keys inserted, and as deep as the
     logarithm of their number allows.
     */
    method Run(keys: seq<int>)
      requires Valid()
      modifies this
      ensures Valid() && multiset(Keys()) == old(multiset(Keys())) + multiset(keys)
      ensures root != NIL ==> DepthOk(|Keys()|, depth, max)
    {
      ghost var before := multiset(Keys());
      for i := 0 to |keys|
        invariant Valid() && multiset(Keys()) == Grown(before, keys, i)
      {
        Insert(keys[i]);
      }
      AllGrown(before, keys, |keys|);
      NotDeep();
    }
  }

  /** With the first `i` keys added. */
  ghost function Grown(m: multiset<int>, ks: seq<int>, i: nat): multiset<int>
    requires i <= |ks|
  {
    if i == 0 then m else Grown(m, ks, i - 1) + multiset{ks[i - 1]}
  }

  lemma {:induction false} AllGrown(m: multiset<int>, ks: seq<int>, i: nat)
    requires i <= |ks|
    ensures Grown(m, ks, i) == m + multiset(ks[..i]) && (i == |ks| ==> Grown(m, ks, i) == m + multiset(ks))
  {
    if i > 0 {
      AllGrown(m, ks, i - 1);
      assert ks[..i] == ks[..i - 1] + [ks[i - 1]];
    }
    assert ks[..|ks|] == ks;
  }
}
