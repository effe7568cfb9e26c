/** Lists of different things, and of different numbers below a bound. */
module Pigeonholes {

  ghost predicate Different<T>(p: seq<T>) {
    forall i, j :: 0 <= i < j < |p| ==> p[i] != p[j]
  }

  /** The list without its entry at `k`. */
  function Cut(p: seq<nat>, k: nat): (q: seq<nat>)
    requires k < |p|
    ensures |q| == |p| - 1
    ensures forall i :: 0 <= i < |q| ==> q[i] == p[if i < k then i else i + 1]
  {
    p[..k] + p[k + 1..]
  }

  lemma CutKeeps(p: seq<nat>, k: nat, x: nat)
    requires k < |p| && x in p && x != p[k]
    ensures x in Cut(p, k)
  {
    var i :| 0 <= i < |p| && p[i] == x;
    assert Cut(p, k)[if i < k then i else i - 1] == x;
  }

  /** At most `n` different numbers are below `n`. */
  lemma {:induction false} Pigeonhole(p: seq<nat>, n: nat)
    requires Different(p) && forall i :: 0 <= i < |p| ==> p[i] < n
    ensures |p| <= n
    decreases n
  {
    if k :| 0 <= k < |p| && p[k] == n - 1 {
      Pigeonhole(Cut(p, k), n - 1);
    } else if p != [] {
      assert p[0] < n;
      Pigeonhole(p, n - 1);
    }
  }

  /** A list with every number below `n` has at least `n` entries. */
  lemma {:induction false} Covers(p: seq<nat>, n: nat)
    requires forall x: nat :: x < n ==> x in p
    ensures n <= |p|
    decreases n
  {
    if n > 0 {
      assert (n - 1) in p;
      var k :| 0 <= k < |p| && p[k] == n - 1;
      forall x: nat | x < n - 1 ensures x in Cut(p, k) { CutKeeps(p, k, x); }
      Covers(Cut(p, k), n - 1);
    }
  }
}
