/**
 The fixed memory pool with a first-fit free list that splits blocks.

 A block is a header at some address followed by its bytes.  The headers lie in the pool itself;
 the model keeps them in a map from addresses.
 */
module MemoryPool {
  import opened Pigeonholes

  const NONE: int := -1

  datatype Block = Block(size: nat, next: int)

  type Blocks = map<nat, Block>

  /** The address just behind a block. */
  function End(blocks: Blocks, header: nat, a: nat): nat
    requires a in blocks
  {
    a + header + blocks[a].size
  }

  /** The blocks of `tiles`, in this order, fill the pool from `lo` to `hi` without gap or overlap. */
  ghost predicate Tiles(blocks: Blocks, header: nat, tiles: seq<nat>, lo: nat, hi: nat) {
    if tiles == [] then lo == hi
    else tiles[0] == lo && lo in blocks && Tiles(blocks, header, tiles[1..], End(blocks, header, lo), hi)
  }

  /** Two blocks of a tiling do not overlap, and all lie inside. */
  lemma {:induction false} TilesApart(blocks: Blocks, header: nat, tiles: seq<nat>, lo: nat, hi: nat)
    requires Tiles(blocks, header, tiles, lo, hi) && header > 0
    ensures lo <= hi
    ensures forall i :: 0 <= i < |tiles| ==> tiles[i] in blocks && lo <= tiles[i] && End(blocks, header, tiles[i]) <= hi
    ensures forall i, j :: 0 <= i < j < |tiles| ==> End(blocks, header, tiles[i]) <= tiles[j]
    decreases |tiles|
  {
    if tiles != [] {
      TilesApart(blocks, header, tiles[1..], End(blocks, header, lo), hi);
    }
  }

  function Total(blocks: Blocks, header: nat, tiles: seq<nat>): nat
    requires forall i :: 0 <= i < |tiles| ==> tiles[i] in blocks
  {
    if tiles == [] then 0 else header + blocks[tiles[0]].size + Total(blocks, header, tiles[1..])
  }

  /** Headers and blocks add up to the pool. */
  lemma {:induction false} TilesTotal(blocks: Blocks, header: nat, tiles: seq<nat>, lo: nat, hi: nat)
    requires Tiles(blocks, header, tiles, lo, hi) && forall i :: 0 <= i < |tiles| ==> tiles[i] in blocks
    ensures Total(blocks, header, tiles) == hi - lo
    decreases |tiles|
  {
    if tiles != [] { TilesTotal(blocks, header, tiles[1..], End(blocks, header, lo), hi); }
  }

  lemma {:induction false} FrameTiles(blocks: Blocks, g: Blocks, header: nat, tiles: seq<nat>, lo: nat, hi: nat)
    requires Tiles(blocks, header, tiles, lo, hi)
    requires forall a :: a in tiles && a in blocks ==> a in g && g[a].size == blocks[a].size
    ensures Tiles(g, header, tiles, lo, hi)
    decreases |tiles|
  {
    if tiles != [] { FrameTiles(blocks, g, header, tiles[1..], End(blocks, header, lo), hi); }
  }

  /** Block `a` is cut in two: the second half starts behind the first half's bytes. */
  ghost predicate CutAt(blocks: Blocks, g: Blocks, header: nat, a: nat, size: nat) {
    && a in blocks && size + header <= blocks[a].size
    && a in g && g[a].size == size
    && a + header + size in g && g[a + header + size].size == blocks[a].size - size - header
  }

  ghost predicate OthersSame(blocks: Blocks, g: Blocks, tiles: seq<nat>, a: nat) {
    forall b :: b in tiles && b in blocks && b != a ==> b in g && g[b].size == blocks[b].size
  }

  /** The tiling with a new block after its `k`-th. */
  function With(tiles: seq<nat>, k: nat, b: nat): seq<nat>
    requires k < |tiles|
  {
    tiles[..k + 1] + [b] + tiles[k + 1..]
  }

  lemma SplitFirst(blocks: Blocks, g: Blocks, header: nat, tiles: seq<nat>, lo: nat, hi: nat, size: nat)
    requires Tiles(blocks, header, tiles, lo, hi) && header > 0 && tiles != []
    requires CutAt(blocks, g, header, tiles[0], size) && OthersSame(blocks, g, tiles, tiles[0])
    ensures Tiles(g, header, With(tiles, 0, tiles[0] + header + size), lo, hi)
  {
    TilesApart(blocks, header, tiles, lo, hi);
    FrameTiles(blocks, g, header, tiles[1..], End(blocks, header, lo), hi);
    var b := lo + header + size;
    assert With(tiles, 0, b)[1..] == [b] + tiles[1..];
    assert ([b] + tiles[1..])[1..] == tiles[1..];
    assert Tiles(g, header, [b] + tiles[1..], b, hi);
  }

  lemma {:induction false} SplitTiles(blocks: Blocks, g: Blocks, header: nat, tiles: seq<nat>, lo: nat, hi: nat, k: nat,
                                      size: nat)
    requires Tiles(blocks, header, tiles, lo, hi) && header > 0 && k < |tiles|
    requires CutAt(blocks, g, header, tiles[k], size) && OthersSame(blocks, g, tiles, tiles[k])
    ensures Tiles(g, header, With(tiles, k, tiles[k] + header + size), lo, hi)
    decreases |tiles|
  {
    if k == 0 {
      SplitFirst(blocks, g, header, tiles, lo, hi, size);
    } else {
      FirstOther(blocks, header, tiles, lo, hi, k);
      SplitTiles(blocks, g, header, tiles[1..], End(blocks, header, lo), hi, k - 1, size);
      WithTail(tiles, k, tiles[k] + header + size);
    }
  }

  lemma WithTail(tiles: seq<nat>, k: nat, b: nat)
    requires 0 < k < |tiles|
    ensures With(tiles, k, b)[1..] == With(tiles[1..], k - 1, b)
  {
    assert tiles[..k + 1][1..] == tiles[1..][..k] && tiles[1..][k..] == tiles[k + 1..];
    Tail(tiles[..k + 1], [b] + tiles[k + 1..]);
    assert tiles[..k + 1] + ([b] + tiles[k + 1..]) == With(tiles, k, b);
    assert tiles[1..][..k] + ([b] + tiles[1..][k..]) == With(tiles[1..], k - 1, b);
  }

  lemma Tail<T>(a: seq<T>, b: seq<T>)
    requires a != []
    ensures (a + b)[1..] == a[1..] + b
  { }

  lemma FirstOther(blocks: Blocks, header: nat, tiles: seq<nat>, lo: nat, hi: nat, k: nat)
    requires Tiles(blocks, header, tiles, lo, hi) && header > 0 && 0 < k < |tiles|
    ensures lo == tiles[0] && lo in blocks && lo != tiles[k] && tiles[1..][k - 1] == tiles[k]
  {
    TilesApart(blocks, header, tiles, lo, hi);
  }

  // ---------------------------------------------------------------- the free list

  function At(l: seq<nat>, i: int): int {
    if 0 <= i < |l| then l[i] else NONE
  }

  ghost predicate Chain(blocks: Blocks, first: int, l: seq<nat>) {
    && first == At(l, 0) && Different(l)
    && forall i :: 0 <= i < |l| ==> Linked(blocks, l, i)
  }

  ghost predicate Linked(blocks: Blocks, l: seq<nat>, i: nat)
    requires i < |l|
  {
    l[i] in blocks && blocks[l[i]].next == At(l, i + 1)
  }

  /** Node `k` of the list goes out. */
  lemma ChainOut(blocks: Blocks, g: Blocks, first: int, l: seq<nat>, k: nat)
    requires Chain(blocks, first, l) && k < |l| && blocks.Keys <= g.Keys
    requires l[k] in blocks
    requires forall a :: a in l && a in blocks && a != l[k] ==>
               g[a].next == if k > 0 && a == l[k - 1] then blocks[l[k]].next else blocks[a].next
    ensures Chain(g, if k == 0 then blocks[l[k]].next else first, Cut(l, k))
  {
    var m := Cut(l, k);
    assert Linked(blocks, l, k);
    forall i | 0 <= i < |m| ensures Linked(g, m, i) {
      var j := if i < k then i else i + 1;
      assert Linked(blocks, l, j) && m[i] == l[j] && l[j] in l && l[j] != l[k];
      assert k > 0 && i != k - 1 ==> l[j] != l[k - 1];
    }
  }

  /** Node `k` of the list is replaced by a new block with the same successor. */
  lemma ChainSwap(blocks: Blocks, g: Blocks, first: int, l: seq<nat>, k: nat, b: nat)
    requires Chain(blocks, first, l) && k < |l| && blocks.Keys <= g.Keys && b !in l && b in g
    requires l[k] in blocks && g[b].next == blocks[l[k]].next
    requires forall a :: a in l && a in blocks && a != l[k] ==>
               g[a].next == if k > 0 && a == l[k - 1] then b else blocks[a].next
    ensures Chain(g, if k == 0 then b else first, l[k := b])
  {
    var m := l[k := b];
    assert Linked(blocks, l, k);
    forall i | 0 <= i < |m| ensures Linked(g, m, i) {
      if i != k {
        assert Linked(blocks, l, i) && m[i] == l[i] && l[i] in l && l[i] != l[k];
        assert k > 0 && i != k - 1 ==> l[i] != l[k - 1];
      }
    }
  }

  // ---------------------------------------------------------------- the pool

  /** Each block is either free or live, and a live block is as large as was asked for. */
  ghost predicate Parts(blocks: Blocks, tiles: seq<nat>, free: seq<nat>, live: map<nat, nat>) {
    && (forall a :: a in tiles <==> a in free || a in live)
    && (forall a :: a in live ==> a !in free && a in blocks && live[a] <= blocks[a].size)
  }

  /** A block that starts inside another is none of the old ones. */
  lemma Inside(blocks: Blocks, header: nat, tiles: seq<nat>, hi: nat, k: nat, b: nat)
    requires Tiles(blocks, header, tiles, 0, hi) && header > 0 && k < |tiles|
    ensures tiles[k] in blocks && (tiles[k] < b < End(blocks, header, tiles[k]) ==> b !in tiles)
  {
    TilesApart(blocks, header, tiles, 0, hi);
  }

  lemma PartsSplit(blocks: Blocks, g: Blocks, tiles: seq<nat>, free: seq<nat>, live: map<nat, nat>, j: nat, k: nat,
                   b: nat, size: nat)
    requires Parts(blocks, tiles, free, live) && Different(free) && k < |free| && j < |tiles| && tiles[j] == free[k]
             && b !in tiles
    requires free[k] in g && g[free[k]].size >= size
    requires forall a :: a in live && a in blocks ==> a in g && g[a].size == blocks[a].size
    ensures Parts(g, With(tiles, j, b), free[k := b], live[free[k] := size])
  {
    var tiles', free', live' := With(tiles, j, b), free[k := b], live[free[k] := size];
    assert tiles == tiles[..j + 1] + tiles[j + 1..];
    forall a ensures a in tiles' <==> a in tiles || a == b { }
    forall a ensures a in free' <==> (a in free && a != free[k]) || a == b {
      if a in free && a != free[k] {
        var i :| 0 <= i < |free| && free[i] == a;
        assert free'[i] == a;
      }
      assert free'[k] == b;
    }
    assert free[k] in free;
  }

  lemma PartsTake(blocks: Blocks, g: Blocks, tiles: seq<nat>, free: seq<nat>, live: map<nat, nat>, k: nat, size: nat)
    requires Parts(blocks, tiles, free, live) && Different(free) && k < |free|
    requires free[k] in g && g[free[k]].size >= size
    requires forall a :: a in live && a in blocks ==> a in g && g[a].size == blocks[a].size
    ensures Parts(g, tiles, Cut(free, k), live[free[k] := size])
  {
    var free', live' := Cut(free, k), live[free[k] := size];
    forall a ensures a in free' <==> a in free && a != free[k] {
      if a in free && a != free[k] { CutKeeps(free, k, a); }
    }
    assert free[k] in free;
  }

  /** The headers after block `a` is cut and its rest put in its place in the list. */
  function Carved(blocks: Blocks, prev: int, a: nat, b: nat, size: nat, rest: nat): Blocks
    requires a in blocks && (prev >= 0 ==> prev in blocks)
  {
    var g := blocks[b := Block(rest, blocks[a].next)][a := Block(size, blocks[a].next)];
    if prev >= 0 then g[prev := Block(blocks[prev].size, b)] else g
  }

  lemma CarvedFacts(blocks: Blocks, header: nat, first: int, tiles: seq<nat>, free: seq<nat>, live: map<nat, nat>,
                    i: nat, size: nat, g: Blocks)
    requires header > 0 && Chain(blocks, first, free) && Parts(blocks, tiles, free, live)
    requires i < |free| && free[i] in blocks && blocks[free[i]].size >= size + header + 1
             && (i > 0 ==> free[i - 1] in blocks)
    requires var a := free[i]; var b := a + header + size;
             b !in tiles && g == Carved(blocks, At(free, i - 1), a, b, size, blocks[a].size - size - header)
    ensures var a := free[i]; var b := a + header + size;
            && CutAt(blocks, g, header, a, size) && OthersSame(blocks, g, tiles, a)
            && Chain(g, if i == 0 then b else first, free[i := b])
            && forall c :: c in live ==> c in g && g[c].size == blocks[c].size
  {
    var a, b := free[i], free[i] + header + size;
    assert a in free && (i > 0 ==> free[i - 1] in free && free[i - 1] != a);
    ChainSwap(blocks, g, first, free, i, b);
  }

  /** The blocks tile the pool, and each is either in the free list or live. */
  ghost predicate InOrder(blocks: Blocks, header: nat, first: int, tiles: seq<nat>, hi: nat, free: seq<nat>,
                          live: map<nat, nat>)
  {
    Tiles(blocks, header, tiles, 0, hi) && Chain(blocks, first, free) && Parts(blocks, tiles, free, live)
  }

  /** Cutting block `i` of the free list keeps the pool in order. */
  lemma CarvedPool(blocks: Blocks, header: nat, first: int, tiles: seq<nat>, hi: nat, free: seq<nat>,
                   live: map<nat, nat>, i: nat, j: nat, size: nat, g: Blocks)
    requires header > 0 && Tiles(blocks, header, tiles, 0, hi) && Chain(blocks, first, free)
             && Parts(blocks, tiles, free, live)
    requires i < |free| && j < |tiles| && tiles[j] == free[i]
    requires free[i] in blocks && blocks[free[i]].size >= size + header + 1 && (i > 0 ==> free[i - 1] in blocks)
    requires g == Carved(blocks, At(free, i - 1), free[i], free[i] + header + size, size,
                         blocks[free[i]].size - size - header)
    ensures var b := free[i] + header + size;
            && InOrder(g, header, if i == 0 then b else first, With(tiles, j, b), hi, free[i := b],
                       live[free[i] := size])
            && OthersSame(blocks, g, tiles, free[i])
  {
    var b := free[i] + header + size;
    Inside(blocks, header, tiles, hi, j, b);
    CarvedFacts(blocks, header, first, tiles, free, live, i, size, g);
    SplitTiles(blocks, g, header, tiles, 0, hi, j, size);
    CarvedParts(blocks, g, tiles, free, live, j, i, b, size, header);
  }

  lemma CarvedParts(blocks: Blocks, g: Blocks, tiles: seq<nat>, free: seq<nat>, live: map<nat, nat>, j: nat, k: nat,
                    b: nat, size: nat, header: nat)
    requires Parts(blocks, tiles, free, live) && Different(free) && k < |free| && j < |tiles| && tiles[j] == free[k]
             && b !in tiles
    requires CutAt(blocks, g, header, free[k], size) && forall c :: c in live ==> c in g && g[c].size == blocks[c].size
    ensures Parts(g, With(tiles, j, b), free[k := b], live[free[k] := size])
  {
    PartsSplit(blocks, g, tiles, free, live, j, k, b, size);
  }

  /** The new block is none of the old ones. */
  lemma CarvedApart(blocks: Blocks, header: nat, tiles: seq<nat>, hi: nat, free: seq<nat>, live: map<nat, nat>, i: nat,
                    j: nat, size: nat)
    requires header > 0 && Tiles(blocks, header, tiles, 0, hi) && Parts(blocks, tiles, free, live) && Different(free)
    requires i < |free| && j < |tiles| && tiles[j] == free[i] && free[i] in blocks
             && blocks[free[i]].size >= size + header + 1
    ensures free[i] + header + size != At(free, i - 1) && At(free, i - 1) != free[i]
  {
    Inside(blocks, header, tiles, hi, j, free[i] + header + size);
    assert i > 0 ==> free[i - 1] in free;
  }

  lemma FreedFacts(blocks: Blocks, g: Blocks, first: int, tiles: seq<nat>, free: seq<nat>, live: map<nat, nat>, a: nat)
    requires Chain(blocks, first, free) && Parts(blocks, tiles, free, live) && a in live
    requires g == blocks[a := Block(blocks[a].size, first)]
    ensures Chain(g, a, [a] + free) && Parts(g, tiles, [a] + free, live - {a})
  {
    var l := [a] + free;
    forall i | 0 <= i < |l| ensures Linked(g, l, i) {
      if i > 0 { assert Linked(blocks, free, i - 1) && l[i] == free[i - 1] && free[i - 1] in free; }
    }
    forall c ensures c in l <==> c == a || c in free { }
  }

  /** Block `a` is the first of the free list that is large enough. */
  ghost predicate FirstOf(blocks: Blocks, free: seq<nat>, a: nat, size: nat) {
    exists i :: 0 <= i < |free| && free[i] == a && a in blocks && blocks[a].size >= size
                && forall j :: 0 <= j < i ==> free[j] in blocks && blocks[free[j]].size < size
  }

  /**
   Block `a` has left the free list.  If it had room for a header and a byte more than asked for, it is cut to size
   and the rest is free in its place; else it goes as a whole.
   */
  ghost predicate TakenFrom(blocks: Blocks, free: seq<nat>, g: Blocks, free': seq<nat>, header: nat, a: nat, size: nat)
      {
    && a in blocks && a in g
    && exists i :: 0 <= i < |free| && free[i] == a
                   && if blocks[a].size >= size + header + 1 then
                        && g[a].size == size && free' == free[i := a + header + size]
                        && a + header + size in g && g[a + header + size].size == blocks[a].size - size - header
                      else g[a].size == blocks[a].size && free' == Cut(free, i)
  }

  /** So a block given out is at most a header larger than asked for. */
  lemma TakenSnug(blocks: Blocks, free: seq<nat>, g: Blocks, free': seq<nat>, header: nat, a: nat, size: nat)
    requires TakenFrom(blocks, free, g, free', header, a, size)
    ensures g[a].size <= size + header
  { }

  lemma LiveKept(blocks: Blocks, g: Blocks, tiles: seq<nat>, free: seq<nat>, live: map<nat, nat>, a: nat)
    requires Parts(blocks, tiles, free, live) && OthersSame(blocks, g, tiles, a) && a in free
    ensures a !in live && forall c :: c in live ==> c in g && c in blocks && g[c].size == blocks[c].size
  { }

  class Pool {
    const poolSize: nat
    const header: nat
    var blocks: Blocks
    var freeList: int
    ghost var tiles: seq<nat>
    ghost var free: seq<nat>
    ghost var live: map<nat, nat>

    ghost predicate Valid()
      reads this
    {
      header > 0 && InOrder(blocks, header, freeList, tiles, poolSize, free, live)
    }

    constructor (pool: nat, head: nat)
      requires 0 < head <= pool
      ensures Valid() && poolSize == pool && header == head && live == map[] && free == [0]
    {
      poolSize, header := pool, head;
      freeList, blocks := 0, map[0 := Block(pool - head, NONE)];
      tiles, free, live := [0], [0], map[];
    }

    /** The first free block that is large enough, and the one before it. */
    method FirstFit(size: nat) returns (current: int, prev: int, ghost i: nat)
      requires Valid()
      ensures current == NONE <==> forall j :: 0 <= j < |free| ==> free[j] in blocks && blocks[free[j]].size < size
      ensures current != NONE ==> i < |free| && current == free[i] && prev == At(free, i - 1)
                                  && free[i] in blocks && blocks[free[i]].size >= size
                                     && (i > 0 ==> free[i - 1] in blocks)
      ensures current != NONE ==> forall j :: 0 <= j < i ==> free[j] in blocks && blocks[free[j]].size < size
    {
      prev, current, i := NONE, freeList, 0;
      while current != NONE
        invariant i <= |free| && current == At(free, i) && prev == At(free, i - 1)
        invariant forall j :: 0 <= j < i ==> free[j] in blocks && blocks[free[j]].size < size
        decreases |free| - i
      {
        assert Linked(blocks, free, i);
        if blocks[current].size >= size { return; }
        prev, current, i := current, blocks[current].next, i + 1;
      }
    }

    /** The block is cut, and the rest takes its place in the list. */
    method TakeFront(current: nat, prev: int, size: nat, ghost i: nat)
      requires Valid() && i < |free| && current == free[i] && prev == At(free, i - 1)
      requires i > 0 ==> free[i - 1] in blocks
      requires current in blocks && blocks[current].size >= size + header + 1
      modifies this
      ensures Valid() && live == old(live)[current := size] && free == old(free)[i := current + header + size]
      ensures current in blocks && blocks[current].size == size && OthersSame(old(blocks), blocks, old(tiles), current)
      ensures var b := current + header + size;
              b in blocks && blocks[b].size == old(blocks[current].size) - size - header
    {
      ghost var h := blocks;
      ghost var j := TileOf(i);
      var b := current + header + size;
      CarvedApart(blocks, header, tiles, poolSize, free, live, i, j, size);
      Carve(current, prev, b, size);
      CarvedPool(h, header, old(freeList), tiles, poolSize, free, live, i, j, size, blocks);
      tiles, free, live := With(tiles, j, b), free[i := b], live[current := size];
    }

    method Carve(current: nat, prev: int, b: nat, size: nat)
      requires current in blocks && (prev >= 0 ==> prev in blocks) && prev >= NONE && prev != current
               && b != current && b != prev
      requires blocks[current].size >= size + header
      modifies this`blocks, this`freeList
      ensures blocks == Carved(old(blocks), prev, current, b, size, old(blocks[current].size) - size - header)
      ensures freeList == if prev == NONE then b else old(freeList)
    {
      blocks := blocks[b := Block(blocks[current].size - size - header, blocks[current].next)];
      blocks := blocks[current := Block(size, blocks[current].next)];
      if prev != NONE {
        blocks := blocks[prev := Block(blocks[prev].size, b)];
      } else {
        freeList := b;
      }
    }

    /** Where a free block is in the tiling. */
    ghost method TileOf(i: nat) returns (j: nat)
      requires Valid() && i < |free|
      ensures j < |tiles| && tiles[j] == free[i]
    {
      assert free[i] in tiles;
      j :| 0 <= j < |tiles| && tiles[j] == free[i];
    }

    /** The whole block goes. */
    method TakeWhole(current: nat, prev: int, size: nat, ghost i: nat)
      requires Valid() && i < |free| && current == free[i] && prev == At(free, i - 1)
      requires i > 0 ==> free[i - 1] in blocks
      requires current in blocks && blocks[current].size >= size
      modifies this
      ensures Valid() && live == old(live)[current := size] && free == Cut(old(free), i)
      ensures current in blocks && blocks[current].size == old(blocks[current].size)
      ensures OthersSame(old(blocks), blocks, old(tiles), current)
    {
      ghost var h := blocks;
      if prev != NONE {
        blocks := blocks[prev := Block(blocks[prev].size, blocks[current].next)];
      } else {
        freeList := blocks[current].next;
      }
      FrameTiles(h, blocks, header, tiles, 0, poolSize);
      ChainOut(h, blocks, old(freeList), free, i);
      PartsTake(h, blocks, tiles, free, live, i, size);
      free, live := Cut(free, i), live[current := size];
    }

    /**
     Fails exactly when no free block is large enough; else the block found was free, is live from now on, and no other
     live block has changed.
     */
    method Allocate(size: nat) returns (ptr: int)
      requires Valid()
      modifies this
      ensures Valid()
      ensures ptr == NONE <==> forall a :: a in old(free) && a in old(blocks) ==> old(blocks)[a].size < size
      ensures ptr == NONE ==> live == old(live) && free == old(free) && blocks == old(blocks)
      ensures ptr != NONE ==> ptr >= header && ptr - header in old(free) && ptr - header !in old(live)
                              && live == old(live)[ptr - header := size]
      ensures ptr != NONE ==> FirstOf(old(blocks), old(free), ptr - header, size)
                              && TakenFrom(old(blocks), old(free), blocks, free, header, ptr - header, size)
                              && OthersSame(old(blocks), blocks, old(tiles), ptr - header)
      ensures forall a :: a in old(live) ==> a in blocks && a in old(blocks) && blocks[a].size == old(blocks[a].size)
    {
      var current, prev;
      ghost var i;
      current, prev, i := FirstFit(size);
      if current == NONE { return NONE; }
      assert free[i] in free;
      ghost var h, ts, fs, ls := blocks, tiles, free, live;
      if blocks[current].size >= size + header + 1 {
        TakeFront(current, prev, size, i);
      } else {
        TakeWhole(current, prev, size, i);
      }
      LiveKept(h, blocks, ts, fs, ls, current);
      ptr := current + header;
    }

    /** A live block goes to the front of the free list; the null pointer is ignored. */
    method Free(ptr: int)
      requires Valid() && (ptr == NONE || (ptr >= header && ptr - header in live))
      modifies this
      ensures Valid()
      ensures ptr == NONE ==> live == old(live) && free == old(free)
      ensures ptr != NONE ==> live == old(live) - {ptr - header} && free == [ptr - header] + old(free)
      ensures forall a :: a in live ==> a in blocks && a in old(blocks) && blocks[a].size == old(blocks[a].size)
    {
      if ptr == NONE { return; }
      ghost var h := blocks;
      var a := ptr - header;
      blocks := blocks[a := Block(blocks[a].size, freeList)];
      freeList := a;
      FrameTiles(h, blocks, header, tiles, 0, poolSize);
      FreedFacts(h, blocks, old(freeList), tiles, free, live, a);
      free, live := [a] + free, live - {a};
    }
  }
}
