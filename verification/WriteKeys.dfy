/** The loops over a transaction's write list and over a version chain. */
module WriteKeys {
  import opened Mvcc
  import opened Options
  import opened Pigeonholes

  /** `find_local_write`: walk the list for the first entry of the key. */
  method FindLocalWrite(ws: seq<Write>, k: Key) returns (r: Option<Value>)
    ensures r == Lookup(ws, k)
    ensures r.Some? <==> k in KeySet(ws)
  {
    LookupIff(ws, k);
    var i := 0;
    while i < |ws|
      invariant 0 <= i <= |ws|
      invariant Lookup(ws, k) == Lookup(ws[i..], k)
    {
      if ws[i].key == k { return Some(ws[i].value); }
      assert ws[i..][1..] == ws[i + 1..];
      i := i + 1;
    }
    return None;
  }

  /** The chain walk of `txn_read`: on a descending chain it stops at the newest visible version. */
  method ReadVersion(chain: seq<Version>, ts: nat) returns (v: Value)
    requires forall i, j :: 0 <= i < j < |chain| ==> chain[i].commitTs > chain[j].commitTs
    ensures v == ReadChain(chain, ts)
    ensures (forall w :: w in chain ==> w.commitTs > ts) ==> v == ""
    ensures forall w ::
              && w in chain && w.commitTs <= ts
              && (forall u :: u in chain && u.commitTs <= ts ==> u.commitTs <= w.commitTs)
              ==> v == w.value
  {
    var i := 0;
    while i < |chain| && chain[i].commitTs > ts
      invariant 0 <= i <= |chain|
      invariant ReadChain(chain, ts) == ReadChain(chain[i..], ts)
      invariant forall m :: 0 <= m < i ==> chain[m].commitTs > ts
    {
      assert chain[i..][1..] == chain[i + 1..];
      i := i + 1;
    }
    if i < |chain| {
      v := chain[i].value;
      assert chain[i] in chain;
    } else {
      v := "";
    }
  }

  lemma SwapKeeps(s: seq<Key>, i: nat, j: nat)
    requires i < j < |s| && Different(s)
    ensures Different(s[i := s[j]][j := s[i]])
    ensures Elements(s[i := s[j]][j := s[i]]) == Elements(s)
  {
    var r := s[i := s[j]][j := s[i]];
    forall k | k in s ensures k in r {
      var m :| 0 <= m < |s| && s[m] == k;
      assert r[if m == i then j else if m == j then i else m] == k;
    }
    forall k | k in r ensures k in s {
      var m :| 0 <= m < |r| && r[m] == k;
    }
  }

  /** The keys of the write list, each once, in list order. */
  method CollectKeys(ws: seq<Write>, maxKeys: nat) returns (keys: array<Key>, n: nat)
    requires forall w :: w in ws ==> w.key < maxKeys
    ensures n <= keys.Length && fresh(keys)
    ensures Different(keys[..n]) && Elements(keys[..n]) == KeySet(ws)
  {
    var present := new bool[maxKeys](_ => false);
    keys := new Key[|ws|](_ => 0);
    n := 0;
    var i := 0;
    while i < |ws|
      invariant 0 <= n <= i <= |ws| == keys.Length
      invariant Different(keys[..n])
      invariant Elements(keys[..n]) == KeySet(ws[..i])
      invariant forall k :: 0 <= k < maxKeys ==> (present[k] <==> k in keys[..n])
    {
      assert ws[i] in ws;
      var k := ws[i].key;
      ghost var before := keys[..n];
      ghost var was := n;
      if !present[k] {
        present[k] := true;
        keys[n] := k;
        n := n + 1;
        assert keys[..n] == before + [k];
      }
      assert Elements(keys[..n]) == Elements(before) + {k};
      assert ws[..i + 1] == ws[..i] + [ws[i]];
      assert KeySet(ws[..i + 1]) == KeySet(ws[..i]) + {k} by {
        assert forall m :: 0 <= m < i ==> ws[..i + 1][m] == ws[..i][m];
        assert ws[..i + 1][i].key == k;
      }
      i := i + 1;
    }
    assert ws[..i] == ws;
  }

  /** One pass of the exchange sort: brings the least of keys[i..n] to position i. */
  method ExchangePass(keys: array<Key>, n: nat, i: nat)
    requires i < n <= keys.Length && Different(keys[..n])
    requires forall p, q :: 0 <= p < i && p < q < n ==> keys[p] < keys[q]
    modifies keys
    ensures Different(keys[..n]) && Elements(keys[..n]) == old(Elements(keys[..n]))
    ensures forall p, q :: 0 <= p < i + 1 && p < q < n ==> keys[p] < keys[q]
  {
    var j := i + 1;
    while j < n
      invariant i < j <= n
      invariant Different(keys[..n]) && Elements(keys[..n]) == old(Elements(keys[..n]))
      invariant forall p, q :: 0 <= p < i && p < q < n ==> keys[p] < keys[q]
      invariant forall q :: i < q < j ==> keys[i] < keys[q]
    {
      assert keys[..n][i] != keys[..n][j];
      if keys[j] < keys[i] {
        ghost var s := keys[..n];
        SwapKeeps(s, i, j);
        keys[i], keys[j] := keys[j], keys[i];
        assert keys[..n] == s[i := s[j]][j := s[i]];
      }
      j := j + 1;
    }
  }

  /** The lock order of `lock_write_keys_sorted`: all written keys, strictly ascending. */
  method LockOrder(ws: seq<Write>, maxKeys: nat) returns (order: seq<Key>)
    requires forall w :: w in ws ==> w.key < maxKeys
    ensures SortedKeysOf(order, ws)
  {
    var keys, n := CollectKeys(ws, maxKeys);
    var i := 0;
    while i < n
      invariant 0 <= i <= n <= keys.Length
      invariant Different(keys[..n]) && Elements(keys[..n]) == KeySet(ws)
      invariant forall p, q :: 0 <= p < i && p < q < n ==> keys[p] < keys[q]
    {
      ExchangePass(keys, n, i);
      i := i + 1;
    }
    order := keys[..n];
  }

  /** There is only one such order, so every transaction locks its keys in the one global order. */
  lemma {:induction false} LockOrderUnique(a: seq<Key>, b: seq<Key>, ws: seq<Write>)
    requires SortedKeysOf(a, ws) && SortedKeysOf(b, ws)
    ensures a == b
  {
    AscendingUnique(a, b);
  }

  lemma NoElements(s: seq<Key>)
    ensures Elements(s) == {} <==> s == []
  {
    if s != [] { assert s[0] in Elements(s); }
  }

  lemma {:induction false} AscendingUnique(a: seq<Key>, b: seq<Key>)
    requires Ascending(a) && Ascending(b) && Elements(a) == Elements(b)
    ensures a == b
  {
    if a == [] {
      NoElements(b);
    } else {
      assert a[0] in Elements(a);
      assert b[0] in Elements(b);
      assert a[0] == b[0] by {
        var i :| 0 <= i < |b| && b[i] == a[0];
        var j :| 0 <= j < |a| && a[j] == b[0];
      }
      assert Elements(a[1..]) == Elements(a) - {a[0]};
      assert Elements(b[1..]) == Elements(b) - {b[0]};
      AscendingUnique(a[1..], b[1..]);
    }
  }
}
