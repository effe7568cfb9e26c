/** Sequences of allocations and frees on the memory pool, as a caller sees them. */
module PoolRuns {
  import opened MemoryPool

  /** A request: bytes, or the end of the use of what request `i` got. */
  datatype Request = Alloc(size: nat) | Release(i: nat)

  /** A pointer in use and the size asked for. */
  datatype Held = Held(ptr: int, size: nat)

  /** Only the result of an earlier allocation is freed, and once only. */
  predicate ValidFree(done: seq<Request>, req: Request) {
    req.Release? ==> req.i < |done| && done[req.i].Alloc? && req !in done
  }

  predicate ValidFrees(reqs: seq<Request>) {
    forall k :: 0 <= k < |reqs| ==> ValidFree(reqs[..k], reqs[k])
  }

  /** What the caller holds after the requests, given the pointers they returned. */
  function HeldAfter(reqs: seq<Request>, ptrs: seq<int>): map<nat, Held>
    requires |reqs| == |ptrs|
  {
    if reqs == [] then map[]
    else
      var n := |reqs| - 1;
      HeldNow(HeldAfter(reqs[..n], ptrs[..n]), reqs[n], n, ptrs[n])
  }

  function HeldNow(held: map<nat, Held>, req: Request, n: nat, ptr: int): map<nat, Held> {
    match req
    case Alloc(size) => if ptr == NONE then held else held[n := Held(ptr, size)]
    case Release(i) => held - {i}
  }

  /** That is, what was allocated and not freed. */
  lemma {:induction false} HeldIff(reqs: seq<Request>, ptrs: seq<int>, i: nat)
    requires |reqs| == |ptrs| && ValidFrees(reqs)
    ensures i in HeldAfter(reqs, ptrs) <==> i < |reqs| && reqs[i].Alloc? && ptrs[i] != NONE && Release(i) !in reqs
    ensures i in HeldAfter(reqs, ptrs) ==> HeldAfter(reqs, ptrs)[i] == Held(ptrs[i], reqs[i].size)
  {
    if reqs != [] {
      var n := |reqs| - 1;
      FreesBefore(reqs, n);
      HeldIff(reqs[..n], ptrs[..n], i);
      assert reqs == reqs[..n] + [reqs[n]];
      if i == n { NotEarly(reqs, i); }
    }
  }

  lemma FreesBefore(reqs: seq<Request>, n: nat)
    requires ValidFrees(reqs) && n <= |reqs|
    ensures ValidFrees(reqs[..n])
  {
    forall k | 0 <= k < n ensures ValidFree(reqs[..n][..k], reqs[..n][k]) { assert reqs[..n][..k] == reqs[..k]; }
  }

  lemma NotEarly(reqs: seq<Request>, i: nat)
    requires ValidFrees(reqs) && i == |reqs| - 1
    ensures Release(i) !in reqs
  {
    forall k | 0 <= k < |reqs| ensures reqs[k] != Release(i) { assert ValidFree(reqs[..k], reqs[k]); }
  }

  /** The pointers held are different, and are those of the live blocks, with the sizes asked for. */
  ghost predicate Owned(held: map<nat, Held>, live: map<nat, nat>, header: nat) {
    && (forall i {:trigger OfBlock(live, header, held[i])} :: i in held ==> OfBlock(live, header, held[i]))
    && (forall i, j {:trigger Differ(held, i, j)} :: i in held && j in held && i != j ==> Differ(held, i, j))
    && (forall a {:trigger HasOwner(held, header, a)} :: a in live ==> HasOwner(held, header, a))
  }

  ghost predicate Differ(held: map<nat, Held>, i: nat, j: nat)
    requires i in held && j in held
  {
    held[i].ptr != held[j].ptr
  }

  ghost predicate OfBlock(live: map<nat, nat>, header: nat, h: Held) {
    h.ptr >= header && h.ptr - header in live && live[h.ptr - header] == h.size
  }

  ghost predicate HasOwner(held: map<nat, Held>, header: nat, a: nat) {
    exists i :: i in held && held[i].ptr == a + header
  }

  lemma OwnedAlloc(held: map<nat, Held>, live: map<nat, nat>, header: nat, n: nat, h: Held)
    requires Owned(held, live, header) && n !in held && h.ptr >= header && h.ptr - header !in live
    ensures Owned(held[n := h], live[h.ptr - header := h.size], header)
  {
    var held', live' := held[n := h], live[h.ptr - header := h.size];
    forall i | i in held' ensures OfBlock(live', header, held'[i]) { assert i != n ==> OfBlock(live, header, held[i]); }
    forall i, j | i in held' && j in held' && i != j ensures Differ(held', i, j) {
      if i != n { assert OfBlock(live, header, held[i]); }
      if j != n { assert OfBlock(live, header, held[j]); }
      if i != n && j != n { assert Differ(held, i, j); }
    }
    forall a | a in live' ensures HasOwner(held', header, a) {
      if a in live { OwnerStays(held, header, n, h, a); } else { OwnerNew(held', header, n, a); }
    }
  }

  lemma OwnerStays(held: map<nat, Held>, header: nat, n: nat, h: Held, a: nat)
    requires HasOwner(held, header, a) && n !in held
    ensures HasOwner(held[n := h], header, a)
  {
    var i :| i in held && held[i].ptr == a + header;
    assert held[n := h][i].ptr == a + header;
  }

  lemma OwnerNew(held: map<nat, Held>, header: nat, n: nat, a: nat)
    requires n in held && held[n].ptr == a + header
    ensures HasOwner(held, header, a)
  { }

  lemma OwnedRelease(held: map<nat, Held>, live: map<nat, nat>, header: nat, k: nat)
    requires Owned(held, live, header) && k in held
    ensures OfBlock(live, header, held[k]) && Owned(held - {k}, live - {held[k].ptr - header}, header)
  {
    assert OfBlock(live, header, held[k]);
    var held', live' := held - {k}, live - {held[k].ptr - header};
    forall i | i in held'
      ensures OfBlock(live', header, held'[i])
    {
      assert OfBlock(live, header, held[i]) && Differ(held, i, k);
    }
    forall i, j | i in held' && j in held' && i != j ensures Differ(held', i, j) { assert Differ(held, i, j); }
    forall a | a in live' ensures HasOwner(held', header, a) {
      assert HasOwner(held, header, a);
      var i :| i in held && held[i].ptr == a + header;
      assert i in held' && held'[i].ptr == a + header;
    }
  }

  /** No live block has more than a header's worth of bytes too many. */
  ghost predicate Snug(blocks: Blocks, live: map<nat, nat>, header: nat) {
    forall a :: a in live ==> a in blocks && blocks[a].size <= live[a] + header
  }

  /** Neither the bytes nor the headers of two pointers overlap. */
  predicate Apart(header: nat, g: Held, h: Held) {
    g.ptr + g.size <= h.ptr - header || h.ptr + h.size <= g.ptr - header
  }

  /** A pointer is that of a block in the pool which is as large as asked for, and not much larger. */
  predicate Served(blocks: Blocks, header: nat, hi: nat, h: Held) {
    && header <= h.ptr && h.ptr - header in blocks
    && h.size <= blocks[h.ptr - header].size <= h.size + header && h.ptr + h.size <= hi
  }

  /** All blocks are inside the pool, do not overlap, and with their headers add up to it. */
  ghost predicate Tiled(blocks: Blocks, header: nat, tiles: seq<nat>, hi: nat) {
    && (forall i :: 0 <= i < |tiles| ==> tiles[i] in blocks && End(blocks, header, tiles[i]) <= hi)
    && (forall i, j :: 0 <= i < j < |tiles| ==> End(blocks, header, tiles[i]) <= tiles[j])
    && Total(blocks, header, tiles) == hi
  }

  lemma ValidTiled(blocks: Blocks, header: nat, tiles: seq<nat>, hi: nat)
    requires Tiles(blocks, header, tiles, 0, hi) && header > 0
    ensures Tiled(blocks, header, tiles, hi)
  {
    TilesApart(blocks, header, tiles, 0, hi);
    TilesTotal(blocks, header, tiles, 0, hi);
  }

  lemma BlocksApart(blocks: Blocks, header: nat, tiles: seq<nat>, hi: nat, a: nat, b: nat)
    requires Tiled(blocks, header, tiles, hi) && a in tiles && b in tiles
    ensures a in blocks && b in blocks && End(blocks, header, a) <= hi
    ensures a != b ==> End(blocks, header, a) <= b || End(blocks, header, b) <= a
  {
    var x :| 0 <= x < |tiles| && tiles[x] == a;
    var y :| 0 <= y < |tiles| && tiles[y] == b;
    if x < y { assert End(blocks, header, tiles[x]) <= tiles[y]; }
    if y < x { assert End(blocks, header, tiles[y]) <= tiles[x]; }
  }

  lemma HeldApart(blocks: Blocks, header: nat, tiles: seq<nat>, hi: nat, free: seq<nat>, live: map<nat, nat>, g: Held,
                  h: Held)
    requires Tiled(blocks, header, tiles, hi) && Parts(blocks, tiles, free, live)
    requires OfBlock(live, header, g) && OfBlock(live, header, h) && Snug(blocks, live, header)
    ensures Served(blocks, header, hi, g) && (g.ptr != h.ptr ==> Apart(header, g, h))
  {
    BlocksApart(blocks, header, tiles, hi, g.ptr - header, h.ptr - header);
  }

  lemma SnugAlloc(blocks: Blocks, g: Blocks, live: map<nat, nat>, header: nat, a: nat, size: nat)
    requires Snug(blocks, live, header) && a in g && g[a].size <= size + header
    requires forall x :: x in live ==> x in g && x in blocks && g[x].size == blocks[x].size
    ensures Snug(g, live[a := size], header)
  { }

  lemma SnugRelease(blocks: Blocks, g: Blocks, live: map<nat, nat>, live': map<nat, nat>, header: nat)
    requires Snug(blocks, live, header) && (forall x :: x in live' ==> x in live && live'[x] == live[x])
    requires forall x :: x in live' ==> x in g && x in blocks && g[x].size == blocks[x].size
    ensures Snug(g, live', header)
  { }

  method ServeAlloc(pool: Pool, size: nat, ghost held: map<nat, Held>, ghost n: nat) returns (ptr: int)
    requires pool.Valid() && Owned(held, pool.live, pool.header) && Snug(pool.blocks, pool.live, pool.header)
             && n !in held
    modifies pool
    ensures pool.Valid() && Owned(HeldNow(held, Alloc(size), n, ptr), pool.live, pool.header)
    ensures Snug(pool.blocks, pool.live, pool.header)
  {
    ghost var live, blocks, free := pool.live, pool.blocks, pool.free;
    ptr := pool.Allocate(size);
    AllocFacts(blocks, free, live, pool.blocks, pool.free, pool.live, pool.header, held, n, size, ptr);
  }

  lemma AllocFacts(blocks: Blocks, free: seq<nat>, live: map<nat, nat>, g: Blocks, free': seq<nat>,
                   live': map<nat, nat>, header: nat, held: map<nat, Held>, n: nat, size: nat, ptr: int)
    requires Owned(held, live, header) && Snug(blocks, live, header) && n !in held
    requires ptr == NONE ==> live' == live && g == blocks
    requires ptr != NONE ==> ptr >= header && ptr - header !in live && live' == live[ptr - header := size]
                             && TakenFrom(blocks, free, g, free', header, ptr - header, size)
    requires forall x :: x in live ==> x in g && x in blocks && g[x].size == blocks[x].size
    ensures Owned(HeldNow(held, Alloc(size), n, ptr), live', header) && Snug(g, live', header)
  {
    if ptr != NONE {
      OwnedAlloc(held, live, header, n, Held(ptr, size));
      TakenSnug(blocks, free, g, free', header, ptr - header, size);
      SnugAlloc(blocks, g, live, header, ptr - header, size);
    }
  }

  method ServeRelease(pool: Pool, ptr: int, ghost held: map<nat, Held>, ghost i: nat)
    requires pool.Valid() && Owned(held, pool.live, pool.header) && Snug(pool.blocks, pool.live, pool.header)
    requires if i in held then held[i].ptr == ptr else ptr == NONE
    modifies pool
    ensures pool.Valid() && Owned(held - {i}, pool.live, pool.header) && Snug(pool.blocks, pool.live, pool.header)
  {
    ghost var live, blocks := pool.live, pool.blocks;
    if i in held { OwnedRelease(held, live, pool.header, i); } else { assert held - {i} == held; }
    pool.Free(ptr);
    SnugRelease(blocks, pool.blocks, live, pool.live, pool.header);
  }

  /** One request of a sequence. */
  method Serve(pool: Pool, ghost done: seq<Request>, ptrs: seq<int>, req: Request, ghost held: map<nat, Held>)
      returns (ptr: int)
    requires pool.Valid() && |ptrs| == |done| && ValidFrees(done) && ValidFree(done, req)
    requires held == HeldAfter(done, ptrs) && Owned(held, pool.live, pool.header)
    requires Snug(pool.blocks, pool.live, pool.header)
    modifies pool
    ensures pool.Valid() && Owned(HeldNow(held, req, |done|, ptr), pool.live, pool.header)
    ensures Snug(pool.blocks, pool.live, pool.header)
  {
    match req
    case Alloc(size) =>
      HeldIff(done, ptrs, |done|);
      ptr := ServeAlloc(pool, size, held, |done|);
    case Release(i) =>
      HeldIff(done, ptrs, i);
      ServeRelease(pool, ptrs[i], held, i);
      ptr := NONE;
  }

  /**
   Any sequence of allocations and valid frees on a new pool.  All blocks tile the pool; what the caller holds is
   inside the pool, as large as asked for and at most a header larger, and no two pointers share a byte or a header.
   */
  method Run(pool: Pool, reqs: seq<Request>) returns (ptrs: seq<int>)
    requires pool.Valid() && pool.live == map[] && ValidFrees(reqs)
    modifies pool
    ensures pool.Valid() && |ptrs| == |reqs| && Tiled(pool.blocks, pool.header, pool.tiles, pool.poolSize)
    ensures var held := HeldAfter(reqs, ptrs);
            && (forall i :: i in held ==> Served(pool.blocks, pool.header, pool.poolSize, held[i]))
            && (forall i, j :: i in held && j in held && i != j ==> Apart(pool.header, held[i], held[j]))
  {
    ptrs := [];
    ghost var held: map<nat, Held> := map[];
    for k := 0 to |reqs|
      invariant pool.Valid() && |ptrs| == k && held == HeldAfter(reqs[..k], ptrs) && Owned(held, pool.live, pool.header)
      invariant Snug(pool.blocks, pool.live, pool.header)
    {
      FreesBefore(reqs, k);
      var ptr := Serve(pool, reqs[..k], ptrs, reqs[k], held);
      HeldOne(reqs, k, ptrs, ptr);
      held := HeldNow(held, reqs[k], k, ptr);
      ptrs := ptrs + [ptr];
    }
    assert reqs[..|reqs|] == reqs;
    AllApart(pool.blocks, pool.header, pool.tiles, pool.poolSize, pool.free, pool.live, held);
  }

  lemma HeldOne(reqs: seq<Request>, k: nat, ptrs: seq<int>, ptr: int)
    requires k == |ptrs| < |reqs|
    ensures HeldAfter(reqs[..k + 1], ptrs + [ptr]) == HeldNow(HeldAfter(reqs[..k], ptrs), reqs[k], k, ptr)
  {
    assert reqs[..k + 1][..k] == reqs[..k] && (ptrs + [ptr])[..k] == ptrs;
  }

  lemma AllApart(blocks: Blocks, header: nat, tiles: seq<nat>, hi: nat, free: seq<nat>, live: map<nat, nat>,
                 held: map<nat, Held>)
    requires Tiles(blocks, header, tiles, 0, hi) && header > 0 && Parts(blocks, tiles, free, live)
             && Owned(held, live, header) && Snug(blocks, live, header)
    ensures Tiled(blocks, header, tiles, hi)
    ensures forall i :: i in held ==> Served(blocks, header, hi, held[i])
    ensures forall i, j :: i in held && j in held && i != j ==> Apart(header, held[i], held[j])
  {
    ValidTiled(blocks, header, tiles, hi);
    forall i, j | i in held && j in held
      ensures Served(blocks, header, hi, held[i]) && (i != j ==> Apart(header, held[i], held[j]))
    {
      assert OfBlock(live, header, held[i]) && OfBlock(live, header, held[j]);
      assert i != j ==> Differ(held, i, j);
      HeldApart(blocks, header, tiles, hi, free, live, held[i], held[j]);
    }
  }
}
