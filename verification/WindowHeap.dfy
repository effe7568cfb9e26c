/** The window maximum by a binary heap whose stale entries are dropped only when they come to the top. */
module WindowHeap {
  import opened SlidingWindow

  datatype HeapNode = HeapNode(value: int, index: int)

  function Parent(j: nat): nat
    requires j > 0
  {
    (j - 1) / 2
  }

  /** Node `j` is no larger than its parent. */
  predicate Below(h: seq<HeapNode>, j: nat)
    requires 0 < j < |h|
  {
    h[Parent(j)].value >= h[j].value
  }

  ghost predicate Heap(h: seq<HeapNode>) {
    forall j: nat :: 0 < j < |h| ==> Below(h, j)
  }

  /** Heap order but for node `i`, which may be larger than its parent. */
  ghost predicate HeapButUp(h: seq<HeapNode>, i: nat) {
    && i < |h|
    && (forall j: nat :: 0 < j < |h| && j != i ==> Below(h, j))
    && (forall j: nat :: 0 < j < |h| && i > 0 && Parent(j) == i ==> h[Parent(i)].value >= h[j].value)
  }

  /** Heap order but for node `i`, which may be smaller than its children. */
  ghost predicate HeapButDown(h: seq<HeapNode>, i: nat) {
    && (forall j: nat :: 0 < j < |h| && Parent(j) != i ==> Below(h, j))
    && (forall j: nat :: 0 < j < |h| && 0 < i < |h| && Parent(j) == i ==> h[Parent(i)].value >= h[j].value)
  }

  function Swapped(h: seq<HeapNode>, i: nat, j: nat): seq<HeapNode>
    requires i < |h| && j < |h|
  {
    h[i := h[j]][j := h[i]]
  }

  lemma SwapKeeps(h: seq<HeapNode>, i: nat, j: nat)
    requires i < |h| && j < |h|
    ensures multiset(Swapped(h, i, j)) == multiset(h)
  { }

  lemma UpStep(h: seq<HeapNode>, i: nat)
    requires HeapButUp(h, i) && i > 0 && h[Parent(i)].value < h[i].value
    ensures HeapButUp(Swapped(h, Parent(i), i), Parent(i))
  {
    var p := Parent(i);
    var g := Swapped(h, p, i);
    forall j: nat | 0 < j < |g| && j != p ensures Below(g, j) {
      if j != i { assert Below(h, j); }
    }
    forall j: nat | 0 < j < |g| && p > 0 && Parent(j) == p ensures g[Parent(p)].value >= g[j].value {
      assert Below(h, p);
      if j != i { assert Below(h, j); }
    }
  }

  lemma DownStep(h: seq<HeapNode>, i: nat, l: nat)
    requires HeapButDown(h, i) && 0 < l < |h| && Parent(l) == i && h[l].value > h[i].value
    requires forall j: nat :: 0 < j < |h| && Parent(j) == i ==> h[j].value <= h[l].value
    ensures HeapButDown(Swapped(h, i, l), l)
  {
    var g := Swapped(h, i, l);
    forall j: nat | 0 < j < |g| && Parent(j) != l ensures Below(g, j) {
      if j != i && Parent(j) != i { assert Below(h, j); }
    }
    forall j: nat | 0 < j < |g| && Parent(j) == l ensures g[Parent(l)].value >= g[j].value {
      assert Below(h, j);
    }
  }

  /** The root is largest. */
  lemma {:induction false} RootLargest(h: seq<HeapNode>, j: nat)
    requires Heap(h) && j < |h|
    ensures h[0].value >= h[j].value
    decreases j
  {
    if j > 0 {
      assert Below(h, j);
      RootLargest(h, Parent(j));
    }
  }

  // ---------------------------------------------------------------- the array

  method Swap(heap: array<HeapNode>, size: nat, i: nat, j: nat)
    requires i < size <= heap.Length && j < size
    modifies heap
    ensures heap[..size] == Swapped(old(heap[..size]), i, j)
    ensures multiset(heap[..size]) == multiset(old(heap[..size]))
  {
    SwapKeeps(heap[..size], i, j);
    heap[i], heap[j] := heap[j], heap[i];
    assert heap[..size] == Swapped(old(heap[..size]), i, j);
  }

  method HeapifyUp(heap: array<HeapNode>, size: nat, index0: nat)
    requires size <= heap.Length && HeapButUp(heap[..size], index0)
    modifies heap
    ensures Heap(heap[..size]) && multiset(heap[..size]) == multiset(old(heap[..size]))
  {
    var index := index0;
    while index > 0
      invariant HeapButUp(heap[..size], index) && multiset(heap[..size]) == multiset(old(heap[..size]))
    {
      var parent := Parent(index);
      if heap[parent].value >= heap[index].value {
        assert Below(heap[..size], index);
        break;
      }
      UpStep(heap[..size], index);
      Swap(heap, size, parent, index);
      index := parent;
    }
  }

  /** The larger child of `index` if it is larger than `index`, else `index`. */
  method Largest(heap: array<HeapNode>, size: nat, index: nat) returns (largest: nat)
    requires size <= heap.Length && (index < size || size == 0 == index)
    ensures largest == index
            || (index < largest < size && Parent(largest) == index && heap[largest].value > heap[index].value)
    ensures largest < size ==>
              forall j: nat :: 0 < j < size && Parent(j) == index ==> heap[j].value <= heap[largest].value
  {
    largest := index;
    var left, right := 2 * index + 1, 2 * index + 2;
    if left < size && heap[left].value > heap[largest].value { largest := left; }
    if right < size && heap[right].value > heap[largest].value { largest := right; }
    assert forall j: nat :: 0 < j && Parent(j) == index ==> j == left || j == right;
  }

  method HeapifyDown(heap: array<HeapNode>, size: nat, index0: nat)
    requires size <= heap.Length && (index0 < size || size == 0 == index0) && HeapButDown(heap[..size], index0)
    modifies heap
    ensures Heap(heap[..size]) && multiset(heap[..size]) == multiset(old(heap[..size]))
  {
    var index := index0;
    while true
      invariant index < size || size == 0 == index
      invariant HeapButDown(heap[..size], index) && multiset(heap[..size]) == multiset(old(heap[..size]))
      decreases size - index
    {
      var largest := Largest(heap, size, index);
      if largest == index { break; }
      DownStep(heap[..size], index, largest);
      Swap(heap, size, index, largest);
      index := largest;
    }
    SettledHeap(heap[..size], index);
  }

  lemma SettledHeap(h: seq<HeapNode>, i: nat)
    requires HeapButDown(h, i) && forall j: nat :: 0 < j < |h| && Parent(j) == i ==> i < |h| && h[j].value <= h[i].value
    ensures Heap(h)
  {
    forall j: nat | 0 < j < |h| ensures Below(h, j) { }
  }

  method Push(heap: array<HeapNode>, size: nat, node: HeapNode)
    requires size < heap.Length && Heap(heap[..size])
    modifies heap
    ensures Heap(heap[..size + 1]) && multiset(heap[..size + 1]) == multiset(old(heap[..size])) + multiset{node}
  {
    ghost var h := heap[..size];
    heap[size] := node;
    assert heap[..size + 1] == h + [node];
    assert HeapButUp(h + [node], size) by {
      forall j: nat | 0 < j < size ensures Below(h + [node], j) { assert Below(h, j); }
    }
    HeapifyUp(heap, size + 1, size);
  }

  method Pop(heap: array<HeapNode>, size0: nat) returns (size: nat)
    requires 0 < size0 <= heap.Length && Heap(heap[..size0])
    modifies heap
    ensures size == size0 - 1 && Heap(heap[..size])
    ensures multiset(heap[..size]) + multiset{old(heap[0])} == multiset(old(heap[..size0]))
  {
    ReplacedRoot(heap[..size0]);
    size := size0 - 1;
    MoveLast(heap, size);
    HeapifyDown(heap, size, 0);
  }

  method MoveLast(heap: array<HeapNode>, size: nat)
    requires size < heap.Length
    modifies heap
    ensures heap[..size] == Uprooted(old(heap[..size + 1]))
  {
    heap[0] := heap[size];
  }

  /** The last node in place of the first. */
  function Uprooted(h: seq<HeapNode>): seq<HeapNode>
    requires h != []
  {
    var n := |h| - 1;
    if n == 0 then [] else [h[n]] + h[1..n]
  }

  lemma ReplacedRoot(h: seq<HeapNode>)
    requires Heap(h) && h != []
    ensures HeapButDown(Uprooted(h), 0) && multiset(Uprooted(h)) + multiset{h[0]} == multiset(h)
  {
    var n := |h| - 1;
    if n > 0 {
      var g := [h[n]] + h[1..n];
      forall j: nat | 0 < j < |g| && Parent(j) != 0 ensures Below(g, j) { assert Below(h, j); }
      assert h == [h[0]] + h[1..n] + [h[n]];
    } else {
      assert h == [h[0]];
    }
  }

  // ---------------------------------------------------------------- lazy deletion

  /**
   Every entry is a number seen with its index, and the numbers from `lo` up to, not including, `hi` are all there.
   */
  ghost predicate Holds(nums: seq<int>, h: multiset<HeapNode>, lo: int, hi: int) {
    && hi <= |nums|
    && (forall e :: e in h ==> 0 <= e.index < hi && e.value == nums[e.index])
    && (forall j :: 0 <= j && lo <= j < hi ==> HeapNode(nums[j], j) in h)
  }

  lemma TopIsMax(nums: seq<int>, h: seq<HeapNode>, lo: int, hi: int)
    requires Holds(nums, multiset(h), lo, hi) && Heap(h) && 0 <= lo < hi && h != [] && h[0].index >= lo
    ensures IsMax(nums, lo, hi, h[0].value)
  {
    assert h[0] in multiset(h);
    forall j | lo <= j < hi ensures nums[j] <= h[0].value {
      assert HeapNode(nums[j], j) in h;
      var i :| 0 <= i < |h| && h[i] == HeapNode(nums[j], j);
      RootLargest(h, i);
    }
  }

  /** Drop stale entries while they are on top; the newest entry is never stale. */
  method DropStale(nums: seq<int>, heap: array<HeapNode>, size0: nat, lo: int, ghost hi: int) returns (size: nat)
    requires size0 <= heap.Length && Heap(heap[..size0]) && Holds(nums, multiset(heap[..size0]), lo, hi) && 0 < hi
             && lo < hi
    modifies heap
    ensures 0 < size <= size0 && Heap(heap[..size]) && Holds(nums, multiset(heap[..size]), lo, hi)
            && heap[0].index >= lo
  {
    size := size0;
    NotEmpty(nums, heap[..size], lo, hi);
    while heap[0].index < lo
      invariant 0 < size <= size0 && Heap(heap[..size]) && Holds(nums, multiset(heap[..size]), lo, hi)
      decreases size
    {
      PopKeeps(nums, heap[..size], lo, hi);
      size := Pop(heap, size);
      NotEmpty(nums, heap[..size], lo, hi);
    }
  }

  lemma NotEmpty(nums: seq<int>, h: seq<HeapNode>, lo: int, hi: int)
    requires Holds(nums, multiset(h), lo, hi) && 0 < hi && lo < hi
    ensures h != []
  {
    assert HeapNode(nums[hi - 1], hi - 1) in multiset(h);
  }

  lemma PopKeeps(nums: seq<int>, h: seq<HeapNode>, lo: int, hi: int)
    requires Holds(nums, multiset(h), lo, hi) && h != [] && h[0].index < lo
    ensures forall m :: m + multiset{h[0]} == multiset(h) ==> Holds(nums, m, lo, hi)
  {
    forall m | m + multiset{h[0]} == multiset(h) ensures Holds(nums, m, lo, hi) {
      forall e | e in m ensures 0 <= e.index < hi && e.value == nums[e.index] { assert e in multiset(h); }
      forall j | 0 <= j && lo <= j < hi
        ensures HeapNode(nums[j], j) in m
      {
        assert HeapNode(nums[j], j) in multiset(h);
      }
    }
  }

  lemma PushKeeps(nums: seq<int>, m: multiset<HeapNode>, lo: int, i: int)
    requires Holds(nums, m, lo - 1, i) && 0 <= i < |nums|
    ensures Holds(nums, m + multiset{HeapNode(nums[i], i)}, lo, i + 1)
  {
    var more := m + multiset{HeapNode(nums[i], i)};
    forall e | e in more
      ensures 0 <= e.index < i + 1 && e.value == nums[e.index]
    {
      assert e in m || e == HeapNode(nums[i], i);
    }
    forall j | 0 <= j && lo <= j < i + 1
      ensures HeapNode(nums[j], j) in more
    {
      assert j < i ==> HeapNode(nums[j], j) in m;
    }
  }

  /** The heap stands for the numbers from `lo` up to, not including, `hi`. */
  ghost predicate Window(nums: seq<int>, h: seq<HeapNode>, lo: int, hi: int) {
    Heap(h) && Holds(nums, multiset(h), lo, hi)
  }

  /** One number in, stale entries out: the top is the maximum of the window. */
  method Advance(nums: seq<int>, heap: array<HeapNode>, size0: nat, i: nat, lo: int) returns (size: nat)
    requires i < |nums| && size0 < heap.Length && lo <= i && Window(nums, heap[..size0], lo - 1, i)
    modifies heap
    ensures 0 < size <= size0 + 1 && Window(nums, heap[..size], lo, i + 1)
    ensures lo >= 0 ==> IsMax(nums, lo, i + 1, heap[0].value)
  {
    PushKeeps(nums, multiset(heap[..size0]), lo, i);
    Push(heap, size0, HeapNode(nums[i], i));
    size := DropStale(nums, heap, size0 + 1, lo, i + 1);
    if lo >= 0 { TopIsMax(nums, heap[..size], lo, i + 1); }
  }

  method LazyHeap(nums: seq<int>, k: int) returns (out: seq<int>)
    requires k >= 1
    ensures WindowMaxima(nums, k, out)
  {
    var heap := new HeapNode[|nums|](_ => HeapNode(0, 0));
    var size := 0;
    out := [];
    var lo := 1 - k;
    for i := 0 to |nums|
      invariant 0 <= size <= i && lo == i + 1 - k && Window(nums, heap[..size], lo - 1, i)
      invariant Printed(nums, k, i, out)
    {
      size := Advance(nums, heap, size, i, lo);
      PrintNext(nums, k, i, out, heap[0].value);
      if i >= k - 1 { out := out + [heap[0].value]; }
      lo := lo + 1;
    }
    PrintedAll(nums, k, out);
  }
}
