/** The maximum of every window of `k` neighbours, computed three ways. */
module SlidingWindow {

  /** `m` is the largest of the numbers from `lo` up to, not including, `hi`. */
  ghost predicate IsMax(nums: seq<int>, lo: int, hi: int, m: int) {
    && 0 <= lo < hi <= |nums|
    && (exists j :: lo <= j < hi && nums[j] == m)
    && forall j :: lo <= j < hi ==> nums[j] <= m
  }

  /** One maximum for each full window, from left to right; none if the window is wider than the row. */
  ghost predicate WindowMaxima(nums: seq<int>, k: int, out: seq<int>) {
    && |out| == (if k <= |nums| then |nums| - k + 1 else 0)
    && forall i :: 0 <= i < |out| ==> IsMax(nums, i, i + k, out[i])
  }

  /** The specification has one solution, so all the methods below give the same row. */
  lemma MaximaUnique(nums: seq<int>, k: int, a: seq<int>, b: seq<int>)
    requires WindowMaxima(nums, k, a) && WindowMaxima(nums, k, b)
    ensures a == b
  {
    forall i | 0 <= i < |a| ensures a[i] == b[i] {
      assert IsMax(nums, i, i + k, a[i]) && IsMax(nums, i, i + k, b[i]);
    }
  }

  /** What has been printed when `i` numbers have been read. */
  ghost predicate Printed(nums: seq<int>, k: int, i: int, out: seq<int>) {
    && |out| == (if k <= i then i - k + 1 else 0)
    && forall w :: 0 <= w < |out| ==> IsMax(nums, w, w + k, out[w])
  }

  lemma PrintNext(nums: seq<int>, k: int, i: int, out: seq<int>, m: int)
    requires k >= 1 && 0 <= i < |nums| && Printed(nums, k, i, out) && (i >= k - 1 ==> IsMax(nums, i - k + 1, i + 1, m))
    ensures Printed(nums, k, i + 1, if i >= k - 1 then out + [m] else out)
  { }

  lemma PrintedAll(nums: seq<int>, k: int, out: seq<int>)
    requires Printed(nums, k, |nums|, out)
    ensures WindowMaxima(nums, k, out)
  { }

  method BruteForce(nums: seq<int>, k: int) returns (out: seq<int>)
    requires k >= 1
    ensures WindowMaxima(nums, k, out)
  {
    out := [];
    var i := 0;
    while i <= |nums| - k
      invariant 0 <= i && |out| == i && (i <= |nums| - k + 1 || i == 0)
      invariant forall w :: 0 <= w < i ==> IsMax(nums, w, w + k, out[w])
    {
      var m := nums[i];
      for j := 1 to k
        invariant IsMax(nums, i, i + j, m)
      {
        if nums[i + j] > m { m := nums[i + j]; }
      }
      out := out + [m];
      i := i + 1;
    }
  }

  // ---------------------------------------------------------------- the monotone deque

  /** Indices from `lo` up to, not including, `hi`, ascending, with falling numbers. */
  ghost predicate Falling(nums: seq<int>, d: seq<int>, lo: int, hi: int) {
    && hi <= |nums|
    && (forall a :: 0 <= a < |d| ==> lo <= d[a] < hi && 0 <= d[a])
    && (forall a, b :: 0 <= a < b < |d| ==> d[a] < d[b] && nums[d[a]] > nums[d[b]])
  }

  /** Some index in the deque is no earlier than `j` and has a number at least as large. */
  ghost predicate Covered(nums: seq<int>, d: seq<int>, j: int)
    requires 0 <= j < |nums|
  {
    exists a :: 0 <= a < |d| && j <= d[a] < |nums| && nums[j] <= nums[d[a]]
  }

  /** The deque stands for all of the window. */
  ghost predicate Monotone(nums: seq<int>, d: seq<int>, lo: int, hi: int) {
    Falling(nums, d, lo, hi) && forall j :: 0 <= j && lo <= j < hi ==> Covered(nums, d, j)
  }

  /** All of the window but the newest number, which is at least those dropped from the back. */
  ghost predicate Pending(nums: seq<int>, d: seq<int>, lo: int, i: int) {
    0 <= i < |nums| && Falling(nums, d, lo, i) && forall j :: 0 <= j && lo <= j < i ==> Settled(nums, d, j, i)
  }

  ghost predicate Settled(nums: seq<int>, d: seq<int>, j: int, i: int)
    requires 0 <= j < |nums| && 0 <= i < |nums|
  {
    nums[j] <= nums[i] || Covered(nums, d, j)
  }

  lemma DropFirst(nums: seq<int>, d: seq<int>, lo: int, hi: int)
    requires Monotone(nums, d, lo - 1, hi) && d != [] && d[0] <= lo - 1
    ensures Monotone(nums, d[1..], lo, hi)
  {
    forall j | 0 <= j && lo <= j < hi ensures Covered(nums, d[1..], j) {
      assert Covered(nums, d, j);
      var a :| 0 <= a < |d| && j <= d[a] < |nums| && nums[j] <= nums[d[a]];
      assert d[1..][a - 1] == d[a];
    }
  }

  lemma DropNone(nums: seq<int>, d: seq<int>, lo: int, hi: int)
    requires Monotone(nums, d, lo - 1, hi) && (d == [] || d[0] > lo - 1)
    ensures Monotone(nums, d, lo, hi)
  {
    assert forall a :: 0 < a < |d| ==> d[0] < d[a];
  }

  lemma MonotonePending(nums: seq<int>, d: seq<int>, lo: int, i: int)
    requires Monotone(nums, d, lo, i) && 0 <= i < |nums|
    ensures Pending(nums, d, lo, i)
  {
    forall j | 0 <= j && lo <= j < i ensures Settled(nums, d, j, i) { assert Covered(nums, d, j); }
  }

  lemma DropBack(nums: seq<int>, d: seq<int>, lo: int, i: int)
    requires Pending(nums, d, lo, i) && d != [] && nums[d[|d| - 1]] <= nums[i]
    ensures Pending(nums, d[..|d| - 1], lo, i)
  {
    PrefixFalling(nums, d, lo, i);
    var e := d[..|d| - 1];
    forall j | 0 <= j && lo <= j < i ensures Settled(nums, e, j, i) {
      assert Settled(nums, d, j, i);
      if nums[j] > nums[i] { CoveredEarlier(nums, d, j, nums[i]); }
    }
  }

  lemma PrefixFalling(nums: seq<int>, d: seq<int>, lo: int, hi: int)
    requires Falling(nums, d, lo, hi) && d != []
    ensures Falling(nums, d[..|d| - 1], lo, hi)
  { }

  lemma CoveredEarlier(nums: seq<int>, d: seq<int>, j: int, m: int)
    requires 0 <= j < |nums| && Covered(nums, d, j) && nums[j] > m
    requires d != [] && 0 <= d[|d| - 1] < |nums| && nums[d[|d| - 1]] <= m
    ensures Covered(nums, d[..|d| - 1], j)
  {
    var a :| 0 <= a < |d| && j <= d[a] < |nums| && nums[j] <= nums[d[a]];
    assert d[..|d| - 1][a] == d[a];
  }

  lemma BackIndex(nums: seq<int>, d: seq<int>, lo: int, hi: int)
    requires Falling(nums, d, lo, hi)
    ensures d != [] ==> 0 <= d[|d| - 1] < hi
  { }

  /** Nothing left at the back that is no larger than the new number. */
  ghost predicate Trimmed(nums: seq<int>, d: seq<int>, lo: int, i: int) {
    Pending(nums, d, lo, i) && (d == [] || nums[d[|d| - 1]] > nums[i])
  }

  lemma Append(nums: seq<int>, d: seq<int>, lo: int, i: int)
    requires Trimmed(nums, d, lo, i) && lo <= i
    ensures Monotone(nums, d + [i], lo, i + 1)
  {
    var e := d + [i];
    forall a | 0 <= a < |d| ensures nums[d[a]] > nums[i] {
      if a < |d| - 1 { assert nums[d[a]] > nums[d[|d| - 1]]; }
    }
    forall j | 0 <= j && lo <= j < i + 1 ensures Covered(nums, e, j) {
      assert e[|d|] == i;
      if nums[j] > nums[i] {
        assert Settled(nums, d, j, i);
        var a :| 0 <= a < |d| && j <= d[a] < |nums| && nums[j] <= nums[d[a]];
        assert e[a] == d[a];
      }
    }
  }

  lemma FrontIsMax(nums: seq<int>, d: seq<int>, lo: int, hi: int)
    requires Monotone(nums, d, lo, hi) && 0 <= lo < hi
    ensures d != [] && 0 <= d[0] < |nums| && IsMax(nums, lo, hi, nums[d[0]])
  {
    assert Covered(nums, d, lo);
    forall j | lo <= j < hi ensures nums[j] <= nums[d[0]] {
      assert Covered(nums, d, j);
      var a :| 0 <= a < |d| && j <= d[a] < |nums| && nums[j] <= nums[d[a]];
      assert a > 0 ==> nums[d[0]] > nums[d[a]];
    }
  }

  /** Drop the index that left the window, if it is still there. */
  method DropOld(nums: seq<int>, deque: array<int>, front0: int, back: int, i: int, lo: int) returns (front: int)
    requires 0 <= front0 <= back + 1 <= deque.Length && Monotone(nums, deque[front0..back + 1], lo - 1, i)
    ensures front0 <= front <= back + 1 && Monotone(nums, deque[front..back + 1], lo, i)
  {
    ghost var d := deque[front0..back + 1];
    front := front0;
    if front <= back && deque[front] <= lo - 1 {
      DropFirst(nums, d, lo, i);
      assert d[1..] == deque[front + 1..back + 1];
      front := front + 1;
    } else {
      DropNone(nums, d, lo, i);
    }
  }

  /** Drop from the back what is no larger than the new number. */
  method TrimBack(nums: seq<int>, deque: array<int>, front: int, back0: int, i: int, ghost lo: int) returns (back: int)
    requires 0 <= front <= back0 + 1 <= deque.Length && Pending(nums, deque[front..back0 + 1], lo, i)
    ensures front - 1 <= back <= back0 && Trimmed(nums, deque[front..back + 1], lo, i)
  {
    back := back0;
    BackIndex(nums, deque[front..back + 1], lo, i);
    while front <= back && nums[deque[back]] <= nums[i]
      invariant front - 1 <= back <= back0
      invariant Pending(nums, deque[front..back + 1], lo, i)
      invariant front <= back ==> 0 <= deque[back] < i
      decreases back
    {
      ghost var d := deque[front..back + 1];
      DropBack(nums, d, lo, i);
      back := back - 1;
      assert d[..|d| - 1] == deque[front..back + 1];
      BackIndex(nums, d[..|d| - 1], lo, i);
    }
  }

  /** Indices that left the window go from the front, smaller numbers from the back; then the new index goes in. */
  method Slide(nums: seq<int>, deque: array<int>, front0: int, back0: int, i: int, lo: int)
      returns (front: int, back: int)
    requires 0 <= i < |nums| <= deque.Length && 0 <= front0 <= back0 + 1 <= i && lo <= i
    requires Monotone(nums, deque[front0..back0 + 1], lo - 1, i)
    modifies deque
    ensures 0 <= front <= back <= i
    ensures Monotone(nums, deque[front..back + 1], lo, i + 1)
  {
    front := DropOld(nums, deque, front0, back0, i, lo);
    MonotonePending(nums, deque[front..back0 + 1], lo, i);
    back := TrimBack(nums, deque, front, back0, i, lo);
    Append(nums, deque[front..back + 1], lo, i);
    back := back + 1;
    PushBack(deque, front, back, i);
  }

  method PushBack(deque: array<int>, front: int, back: int, i: int)
    requires 0 <= front <= back < deque.Length
    modifies deque
    ensures deque[front..back + 1] == old(deque[front..back]) + [i]
  {
    deque[back] := i;
  }

  /** The number at the front. */
  method Front(nums: seq<int>, deque: array<int>, front: int, back: int, ghost lo: int, ghost hi: int) returns (m: int)
    requires 0 <= front <= back < deque.Length && Monotone(nums, deque[front..back + 1], lo, hi) && 0 <= lo < hi
    ensures IsMax(nums, lo, hi, m)
  {
    FrontIsMax(nums, deque[front..back + 1], lo, hi);
    m := nums[deque[front]];
  }

  method MonotoneDeque(nums: seq<int>, k: int) returns (out: seq<int>)
    requires k >= 1
    ensures WindowMaxima(nums, k, out)
  {
    var deque := new int[|nums|](_ => 0);
    var front, back := 0, -1;
    out := [];
    var lo := 1 - k;
    for i := 0 to |nums|
      invariant 0 <= front <= back + 1 <= i && lo == i + 1 - k
      invariant Monotone(nums, deque[front..back + 1], lo - 1, i)
      invariant Printed(nums, k, i, out)
    {
      front, back := Slide(nums, deque, front, back, i, lo);
      if i >= k - 1 {
        var m := Front(nums, deque, front, back, lo, i + 1);
        PrintNext(nums, k, i, out, m);
        out := out + [m];
      } else {
        PrintNext(nums, k, i, out, 0);
      }
      lo := lo + 1;
    }
    PrintedAll(nums, k, out);
  }
}
