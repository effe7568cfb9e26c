/** What a least-recently-used cache holds, as a list of pairs, and its whole history. */
module CacheSpec {
  import opened LruPaging
  import opened Pigeonholes

  datatype Pair = Pair(key: int, value: int)
  datatype Op = Get(key: int) | Put(key: int, value: int)

  function Keys(s: seq<Pair>): (r: seq<int>)
    ensures |r| == |s| && forall i :: 0 <= i < |s| ==> r[i] == s[i].key
  {
    seq(|s|, i requires 0 <= i < |s| => s[i].key)
  }

  /** The pairs with other keys. */
  function Drop(s: seq<Pair>, k: int): seq<Pair> {
    if s == [] then [] else (if s[0].key == k then [] else [s[0]]) + Drop(s[1..], k)
  }

  /** The value of the first pair with key `k`, or -1. */
  function ValueOf(s: seq<Pair>, k: int): int {
    if s == [] then -1 else if s[0].key == k then s[0].value else ValueOf(s[1..], k)
  }

  function Clip(s: seq<Pair>, cap: nat): seq<Pair> {
    if |s| <= cap then s else s[..cap]
  }

  /** The used pair comes first; a full cache loses the last. */
  function Step(s: seq<Pair>, op: Op, cap: nat): seq<Pair> {
    match op
    case Get(k) => if k in Keys(s) then [Pair(k, ValueOf(s, k))] + Drop(s, k) else s
    case Put(k, v) => Clip([Pair(k, v)] + Drop(s, k), cap)
  }

  function Run(ops: seq<Op>, cap: nat): seq<Pair> {
    if ops == [] then [] else Step(Run(ops[..|ops| - 1], cap), ops[|ops| - 1], cap)
  }

  /** The keys used: all that were put, and those found by a get. */
  function Used(ops: seq<Op>, cap: nat): seq<int> {
    if ops == [] then []
    else
      var before, op := ops[..|ops| - 1], ops[|ops| - 1];
      Used(before, cap) + if op.Put? || op.key in Keys(Run(before, cap)) then [op.key] else []
  }

  /** What was last put under a key. */
  function LastPut(ops: seq<Op>, k: int): int {
    if ops == [] then -1
    else if ops[|ops| - 1].Put? && ops[|ops| - 1].key == k then ops[|ops| - 1].value
    else LastPut(ops[..|ops| - 1], k)
  }

  lemma {:induction false} DropKeys(s: seq<Pair>, k: int)
    ensures Keys(Drop(s, k)) == Without(Keys(s), k)
  {
    if s != [] {
      DropKeys(s[1..], k);
      assert Keys(s)[1..] == Keys(s[1..]);
    }
  }

  /** Moving a page to the front of the first `n` is the same as to the front of all, seen through `n`. */
  lemma FrontOfFront(recent: seq<int>, p: int, n: nat)
    requires Different(recent)
    ensures Front([p] + Without(Front(recent, n), p), n) == Front([p] + Without(recent, p), n)
  {
    if |recent| > n {
      var f := recent[..n];
      if k :| 0 <= k < n && recent[k] == p {
        WithoutAt(recent, k);
        WithoutAt(f, k);
      } else {
        WithoutNone(f, p);
        WithoutLater(recent, p, n);
      }
    }
  }

  lemma RecentAppend(reqs: seq<int>, p: int)
    ensures Recent(reqs + [p]) == [p] + Without(Recent(reqs), p)
  {
    assert (reqs + [p])[..|reqs|] == reqs;
  }

  lemma PutFront(s: seq<Pair>, k: int, v: int, cap: nat, used: seq<int>)
    requires Keys(s) == Front(Recent(used), cap)
    ensures Keys(Clip([Pair(k, v)] + Drop(s, k), cap)) == Front(Recent(used + [k]), cap)
  {
    RecentDistinct(used);
    DropKeys(s, k);
    RecentAppend(used, k);
    FrontOfFront(Recent(used), k, cap);
    var t := [Pair(k, v)] + Drop(s, k);
    assert Keys(t) == [k] + Without(Keys(s), k);
    assert Keys(Clip(t, cap)) == Front(Keys(t), cap);
  }

  lemma GetFront(s: seq<Pair>, k: int, cap: nat, used: seq<int>)
    requires Keys(s) == Front(Recent(used), cap) && k in Keys(s)
    ensures Keys([Pair(k, ValueOf(s, k))] + Drop(s, k)) == Front(Recent(used + [k]), cap)
  {
    PutFront(s, k, ValueOf(s, k), cap, used);
    DropShorter(s, k);
  }

  lemma {:induction false} DropShorter(s: seq<Pair>, k: int)
    ensures |Drop(s, k)| <= |s| && (k in Keys(s) ==> |Drop(s, k)| < |s|)
  {
    if s != [] {
      DropShorter(s[1..], k);
      assert Keys(s)[1..] == Keys(s[1..]);
      assert k in Keys(s) && s[0].key != k ==> k in Keys(s[1..]);
    }
  }

  /** Over every history the cache holds the `cap` most recently used keys, most recent first. */
  lemma {:induction false} HoldsMostRecent(ops: seq<Op>, cap: nat)
    ensures Keys(Run(ops, cap)) == Front(Recent(Used(ops, cap)), cap)
  {
    if ops != [] {
      var before, op := ops[..|ops| - 1], ops[|ops| - 1];
      HoldsMostRecent(before, cap);
      var s, used := Run(before, cap), Used(before, cap);
      if op.Put? { PutFront(s, op.key, op.value, cap, used); }
      else if op.key in Keys(s) { GetFront(s, op.key, cap, used); }
      else { assert used + [] == used; }
    }
  }

  lemma {:induction false} DropValues(s: seq<Pair>, k: int, j: int)
    requires j != k
    ensures ValueOf(Drop(s, k), j) == ValueOf(s, j) && (j in Keys(Drop(s, k)) ==> j in Keys(s))
  {
    if s != [] {
      DropValues(s[1..], k, j);
      assert Keys(s)[1..] == Keys(s[1..]);
      if s[0].key != k {
        assert Drop(s, k)[1..] == Drop(s[1..], k);
        assert Keys(Drop(s, k))[1..] == Keys(Drop(s[1..], k));
      }
      else { assert Drop(s, k) == Drop(s[1..], k); }
    }
  }

  lemma {:induction false} ClipValues(s: seq<Pair>, n: nat, j: int)
    requires j in Keys(Clip(s, n))
    ensures j in Keys(s) && ValueOf(Clip(s, n), j) == ValueOf(s, j)
  {
    if |s| > n > 0 && s[0].key != j {
      assert Clip(s, n)[1..] == Clip(s[1..], n - 1);
      assert Keys(Clip(s, n))[1..] == Keys(Clip(s[1..], n - 1));
      ClipValues(s[1..], n - 1, j);
      assert Keys(s)[1..] == Keys(s[1..]);
    }
  }

  /** A key in the cache has the value last put under it. */
  lemma {:induction false} HoldsLastPut(ops: seq<Op>, cap: nat, k: int)
    requires k in Keys(Run(ops, cap))
    ensures ValueOf(Run(ops, cap), k) == LastPut(ops, k)
  {
    if ops != [] {
      var before, op := ops[..|ops| - 1], ops[|ops| - 1];
      var s := Run(before, cap);
      if op.Put? {
        var t := [Pair(op.key, op.value)] + Drop(s, op.key);
        ClipValues(t, cap, k);
        if k != op.key { FrontValues(op.key, op.value, s, k); HoldsLastPut(before, cap, k); }
      } else {
        if op.key in Keys(s) && k != op.key { FrontValues(op.key, ValueOf(s, op.key), s, k); }
        HoldsLastPut(before, cap, k);
      }
    }
  }

  lemma FrontValues(k: int, v: int, s: seq<Pair>, j: int)
    requires j != k && j in Keys([Pair(k, v)] + Drop(s, k))
    ensures j in Keys(s) && ValueOf([Pair(k, v)] + Drop(s, k), j) == ValueOf(s, j)
  {
    var t := [Pair(k, v)] + Drop(s, k);
    assert t[1..] == Drop(s, k) && Keys(t)[1..] == Keys(Drop(s, k));
    DropValues(s, k, j);
  }
}
