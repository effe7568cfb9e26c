/** The cache: a hash table that finds list nodes, and the list in order of use, updated in place. */
module LruCache {
  import opened Pigeonholes
  import opened LinkedList
  import opened HashChains
  import opened CacheSpec
  import LruPaging

  /** The list holds one node for each key of the dictionary, under which the dictionary finds it. */
  ghost predicate ListOk(nodes: seq<Node>, l: seq<Ref>, dict: Dict) {
    && (forall j :: 0 <= j < |l| ==> l[j] < |nodes|)
    && (forall j: nat {:trigger Entered(nodes, l, dict, j)} :: j < |l| ==> Entered(nodes, l, dict, j))
    && (forall k {:trigger InList(nodes, l, dict, k)} :: k in dict ==> InList(nodes, l, dict, k))
  }

  /** The key of the `j`-th node is mapped to it. */
  ghost predicate Entered(nodes: seq<Node>, l: seq<Ref>, dict: Dict, j: nat)
    requires j < |l|
  {
    l[j] < |nodes| && nodes[l[j]].key in dict && dict[nodes[l[j]].key] == l[j]
  }

  /** The node of a key is in the list. */
  ghost predicate InList(nodes: seq<Node>, l: seq<Ref>, dict: Dict, k: int)
    requires k in dict
  {
    dict[k] in l && dict[k] < |nodes| && nodes[dict[k]].key == k
  }

  /** The pairs in the list. */
  function Pairs(nodes: seq<Node>, l: seq<Ref>): (s: seq<Pair>)
    requires forall j :: 0 <= j < |l| ==> l[j] < |nodes|
    ensures |s| == |l| && forall j :: 0 <= j < |l| ==> s[j] == Pair(nodes[l[j]].key, nodes[l[j]].value)
  {
    seq(|l|, j requires 0 <= j < |l| => Pair(nodes[l[j]].key, nodes[l[j]].value))
  }

  ghost predicate SameData(nodes: seq<Node>, g: seq<Node>) {
    |g| == |nodes| && forall r :: 0 <= r < |g| ==> g[r].key == nodes[r].key && g[r].value == nodes[r].value
  }

  ghost predicate DistinctKeys(s: seq<Pair>) {
    forall i, j :: 0 <= i < j < |s| ==> s[i].key != s[j].key
  }

  lemma ListKeys(nodes: seq<Node>, l: seq<Ref>, dict: Dict)
    requires ListOk(nodes, l, dict) && Different(l)
    ensures DistinctKeys(Pairs(nodes, l)) && forall k :: k in Keys(Pairs(nodes, l)) <==> k in dict
  {
    var s := Pairs(nodes, l);
    assert forall j: nat :: j < |l| ==> Entered(nodes, l, dict, j);
    forall i, j | 0 <= i < j < |s| ensures s[i].key != s[j].key {
      assert Entered(nodes, l, dict, i) && Entered(nodes, l, dict, j);
    }
    forall k ensures k in Keys(s) <==> k in dict {
      if k in dict {
        assert InList(nodes, l, dict, k);
        var j :| 0 <= j < |l| && l[j] == dict[k];
        assert Keys(s)[j] == k;
      }
      if k in Keys(s) {
        var j: nat :| j < |s| && Keys(s)[j] == k;
        assert Entered(nodes, l, dict, j);
      }
    }
  }

  lemma {:induction false} DropAt(s: seq<Pair>, i: nat)
    requires i < |s| && DistinctKeys(s)
    ensures Drop(s, s[i].key) == s[..i] + s[i + 1..] && ValueOf(s, s[i].key) == s[i].value
  {
    if i == 0 {
      DropNone(s[1..], s[0].key);
      assert s[..0] + s[1..] == s[1..];
    } else {
      assert s[1..][i - 1] == s[i] && s[0].key != s[i].key;
      DropAt(s[1..], i - 1);
      CutTail(s, i);
    }
  }

  lemma CutTail(s: seq<Pair>, i: nat)
    requires 0 < i < |s|
    ensures [s[0]] + (s[1..][..i - 1] + s[1..][i..]) == s[..i] + s[i + 1..]
  { }

  lemma {:induction false} DropNone(s: seq<Pair>, k: int)
    requires forall i :: 0 <= i < |s| ==> s[i].key != k
    ensures Drop(s, k) == s && ValueOf(s, k) == -1
  {
    if s != [] { DropNone(s[1..], k); }
  }

  /** A list of the same nodes in another order. */
  lemma SameNodes(nodes: seq<Node>, g: seq<Node>, l: seq<Ref>, m: seq<Ref>, dict: Dict)
    requires ListOk(nodes, l, dict) && SameData(nodes, g)
    requires (forall j :: 0 <= j < |m| ==> m[j] in l) && (forall x :: x in l ==> x in m)
    ensures ListOk(g, m, dict)
  {
    forall j: nat | j < |m| ensures Entered(g, m, dict, j) {
      var i: nat :| i < |l| && l[i] == m[j];
      assert Entered(nodes, l, dict, i);
    }
    forall k | k in dict ensures InList(g, m, dict, k) { assert InList(nodes, l, dict, k); }
  }

  lemma FrontNodes(l: seq<Ref>, k: nat)
    requires k < |l|
    ensures var m := [l[k]] + Cut(l, k); (forall j :: 0 <= j < |m| ==> m[j] in l) && (forall x :: x in l ==> x in m)
  {
    var m := [l[k]] + Cut(l, k);
    forall j | 0 <= j < |m| ensures m[j] in l { if j > 0 { assert m[j] == l[if j - 1 < k then j - 1 else j]; } }
    forall x | x in l ensures x in m { if x != l[k] { CutKeeps(l, k, x); } }
  }

  lemma FrontPairs(nodes: seq<Node>, g: seq<Node>, l: seq<Ref>, k: nat)
    requires (forall j :: 0 <= j < |l| ==> l[j] < |nodes|) && SameData(nodes, g) && k < |l|
    ensures forall j :: 0 <= j < |l| ==> ([l[k]] + Cut(l, k))[j] < |g|
    ensures var s := Pairs(nodes, l); Pairs(g, [l[k]] + Cut(l, k)) == [s[k]] + (s[..k] + s[k + 1..])
  {
    var s, m := Pairs(nodes, l), [l[k]] + Cut(l, k);
    var a, b := Pairs(g, m), [s[k]] + (s[..k] + s[k + 1..]);
    forall j | 0 <= j < |l| ensures a[j] == b[j] { }
  }

  /** Moving node `k` of the list to the front. */
  lemma MovedPairs(nodes: seq<Node>, g: seq<Node>, l: seq<Ref>, dict: Dict, k: nat)
    requires ListOk(nodes, l, dict) && Different(l) && SameData(nodes, g) && k < |l|
    ensures ListOk(g, [l[k]] + Cut(l, k), dict)
    ensures var s, key := Pairs(nodes, l), nodes[l[k]].key;
            Pairs(g, [l[k]] + Cut(l, k)) == [Pair(key, ValueOf(s, key))] + Drop(s, key)
  {
    FrontNodes(l, k);
    SameNodes(nodes, g, l, [l[k]] + Cut(l, k), dict);
    ListKeys(nodes, l, dict);
    DropAt(Pairs(nodes, l), k);
    FrontPairs(nodes, g, l, k);
  }

  lemma NewNode(nodes: seq<Node>, g: seq<Node>, l: seq<Ref>, dict: Dict, n: Ref)
    requires ListOk(nodes, l, dict) && n == |nodes| && |g| == |nodes| + 1 && g[n].key !in dict
    requires forall r :: 0 <= r < |nodes| ==> g[r].key == nodes[r].key
    ensures ListOk(g, [n] + l, dict[g[n].key := n])
  {
    var m, dict' := [n] + l, dict[g[n].key := n];
    forall j: nat | j < |m| ensures Entered(g, m, dict', j) {
      if j > 0 { assert m[j] == l[j - 1] && Entered(nodes, l, dict, j - 1); }
    }
    forall k | k in dict' ensures InList(g, m, dict', k) {
      if k != g[n].key { assert InList(nodes, l, dict, k); }
    }
  }

  /** A new node in front. */
  lemma NewPairs(nodes: seq<Node>, g: seq<Node>, l: seq<Ref>, dict: Dict, n: Ref)
    requires ListOk(nodes, l, dict) && Different(l) && n == |nodes| && |g| == |nodes| + 1 && g[n].key !in dict
    requires forall r :: 0 <= r < |nodes| ==> g[r].key == nodes[r].key && g[r].value == nodes[r].value
    ensures ListOk(g, [n] + l, dict[g[n].key := n])
    ensures Pairs(g, [n] + l) == [Pair(g[n].key, g[n].value)] + Drop(Pairs(nodes, l), g[n].key)
  {
    NewNode(nodes, g, l, dict, n);
    NewFront(nodes, g, l, n);
    FreshKey(nodes, l, dict, g[n].key);
  }

  lemma NewFront(nodes: seq<Node>, g: seq<Node>, l: seq<Ref>, n: Ref)
    requires (forall j :: 0 <= j < |l| ==> l[j] < |nodes|) && n == |nodes| && |g| == |nodes| + 1
    requires forall r :: 0 <= r < |nodes| ==> g[r].key == nodes[r].key && g[r].value == nodes[r].value
    ensures Pairs(g, [n] + l) == [Pair(g[n].key, g[n].value)] + Pairs(nodes, l)
  {
    var a, b := Pairs(g, [n] + l), [Pair(g[n].key, g[n].value)] + Pairs(nodes, l);
    forall j | 0 <= j < |a| ensures a[j] == b[j] { assert j > 0 ==> ([n] + l)[j] == l[j - 1]; }
  }

  lemma FreshKey(nodes: seq<Node>, l: seq<Ref>, dict: Dict, k: int)
    requires ListOk(nodes, l, dict) && k !in dict
    ensures Drop(Pairs(nodes, l), k) == Pairs(nodes, l) && k !in Keys(Pairs(nodes, l))
  {
    forall j: nat | j < |l| ensures Pairs(nodes, l)[j].key != k { assert Entered(nodes, l, dict, j); }
    DropNone(Pairs(nodes, l), k);
  }

  lemma LastOut(nodes: seq<Node>, g: seq<Node>, l: seq<Ref>, dict: Dict)
    requires ListOk(nodes, l, dict) && Different(l) && SameData(nodes, g) && l != []
    ensures var k := |l| - 1; ListOk(g, Cut(l, k), dict - {nodes[l[k]].key})
  {
    var k := |l| - 1;
    var m, dict' := Cut(l, k), dict - {nodes[l[k]].key};
    assert Entered(nodes, l, dict, k);
    forall j: nat | j < |m| ensures Entered(g, m, dict', j) {
      assert m[j] == l[j] && l[j] != l[k] && Entered(nodes, l, dict, j);
    }
    forall x | x in dict' ensures InList(g, m, dict', x) {
      assert InList(nodes, l, dict, x);
      CutKeeps(l, k, dict[x]);
    }
  }

  /** The last node out. */
  lemma LessPairs(nodes: seq<Node>, g: seq<Node>, l: seq<Ref>, dict: Dict)
    requires ListOk(nodes, l, dict) && Different(l) && SameData(nodes, g) && l != []
    ensures var k := |l| - 1;
            ListOk(g, Cut(l, k), dict - {nodes[l[k]].key}) && Pairs(g, Cut(l, k)) == Pairs(nodes, l)[..k]
  {
    var k := |l| - 1;
    LastOut(nodes, g, l, dict);
    forall j | 0 <= j < k ensures Pairs(g, Cut(l, k))[j] == Pairs(nodes, l)[j] { assert Cut(l, k)[j] == l[j]; }
  }

  lemma Fresh(nodes: seq<Node>, head: Ref, tail: Ref, l: seq<Ref>)
    requires Links(nodes, head, tail, l)
    ensures |nodes| !in l
  {
    forall i | 0 <= i < |l| ensures l[i] != |nodes| { assert Linked(nodes, l, i); }
  }

  /** Another value in the node at place `k`. */
  lemma ValueSet(nodes: seq<Node>, g: seq<Node>, l: seq<Ref>, dict: Dict, k: nat, v: int)
    requires ListOk(nodes, l, dict) && Different(l) && k < |l| && g == nodes[l[k] := nodes[l[k]].(value := v)]
    ensures ListOk(g, l, dict)
    ensures var s, t, key := Pairs(nodes, l), Pairs(g, l), nodes[l[k]].key;
            ValueOf(t, key) == v && Drop(t, key) == Drop(s, key) && |Drop(s, key)| == |s| - 1
  {
    var s, t := Pairs(nodes, l), Pairs(g, l);
    forall j: nat | j < |l| ensures Entered(g, l, dict, j) { assert Entered(nodes, l, dict, j); }
    forall x | x in dict ensures InList(g, l, dict, x) { assert InList(nodes, l, dict, x); }
    ListKeys(nodes, l, dict);
    ListKeys(g, l, dict);
    DropAt(s, k);
    DropAt(t, k);
    assert t == s[k := Pair(s[k].key, v)];
  }

  lemma LastKey(nodes: seq<Node>, head: Ref, tail: Ref, l: seq<Ref>, entries: seq<Entry>, table: seq<Ref>,
                ch: seq<seq<Ref>>, dict: Dict)
    requires Links(nodes, head, tail, l) && HashOk(entries, table, ch, dict) && ListOk(nodes, l, dict) && l != []
    ensures tail == l[|l| - 1] < |nodes| && nodes[tail].key >= 0
  {
    assert Linked(nodes, l, |l| - 1) && Entered(nodes, l, dict, |l| - 1);
    assert Stored(entries, ch, nodes[l[|l| - 1]].key);
  }

  lemma NoValue(s: seq<Pair>, k: int)
    requires k !in Keys(s)
    ensures ValueOf(s, k) == -1 && Drop(s, k) == s
  {
    assert forall i :: 0 <= i < |s| ==> Keys(s)[i] == s[i].key;
    DropNone(s, k);
  }

  class LRUCache {
    const capacity: nat
    var size: int
    var nodes: seq<Node>
    var head: Ref
    var tail: Ref
    var entries: seq<Entry>
    var table: seq<Ref>
    ghost var list: seq<Ref>
    ghost var chains: seq<seq<Ref>>
    ghost var dict: Dict

    ghost predicate LinksOk()
      reads this`nodes, this`head, this`tail, this`list
    {
      |nodes| > 0 && Links(nodes, head, tail, list)
    }

    ghost predicate TableOk()
      reads this`entries, this`table, this`chains, this`dict
    {
      |entries| > 0 && HashOk(entries, table, chains, dict)
    }

    ghost predicate Sound()
      reads this`nodes, this`head, this`tail, this`list, this`entries, this`table, this`chains, this`dict
    {
      LinksOk() && TableOk() && ListOk(nodes, list, dict)
    }

    ghost predicate Valid()
      reads this
    {
      Sound() && size == |list| <= capacity
    }

    /** Keys and values, most recently used first. */
    ghost function Contents(): seq<Pair>
      requires ListOk(nodes, list, dict)
      reads this
    {
      Pairs(nodes, list)
    }

    constructor (cap: nat, hashSize: nat)
      requires hashSize > 0
      ensures Valid() && Contents() == [] && capacity == cap
    {
      capacity, size, head, tail := cap, 0, NULL, NULL;
      nodes, entries := [Node(0, 0, NULL, NULL)], [Entry(0, NULL, NULL)];
      table := seq(hashSize, _ => NULL);
      list, chains, dict := [], seq(hashSize, _ => []), map[];
    }

    // -------------------------------------------------------------- the list

    method AddToHead(n: Ref)
      requires LinksOk() && 0 < n < |nodes| && n !in list
      modifies this`nodes, this`head, this`tail, this`list
      ensures LinksOk() && list == [n] + old(list) && SameData(old(nodes), nodes)
    {
      ghost var h := nodes;
      AddedLinks(nodes, head, tail, list, n);
      nodes := nodes[n := nodes[n].(next := head)];
      nodes := nodes[n := nodes[n].(prev := NULL)];
      if head != NULL { nodes := nodes[head := nodes[head].(prev := n)]; }
      assert nodes == Added(h, head, n);
      head := n;
      if tail == NULL { tail := n; }
      list := [n] + list;
    }

    method RemoveNode(n: Ref, ghost k: nat)
      requires LinksOk() && k < |list| && list[k] == n
      modifies this`nodes, this`head, this`tail, this`list
      ensures LinksOk() && list == Cut(old(list), k) && n !in list && SameData(old(nodes), nodes)
    {
      ghost var h := nodes;
      UnlinkedLinks(nodes, head, tail, list, k);
      Around(nodes, head, tail, list, k);
      var p, q := nodes[n].prev, nodes[n].next;
      if nodes[n].prev != NULL { nodes := nodes[p := nodes[p].(next := q)]; } else { head := q; }
      if nodes[n].next != NULL { nodes := nodes[q := nodes[q].(prev := p)]; } else { tail := p; }
      assert nodes == Unlinked(h, n);
      list := Cut(list, k);
    }

    method MoveToHead(n: Ref, ghost k: nat)
      requires LinksOk() && k < |list| && list[k] == n
      modifies this`nodes, this`head, this`tail, this`list
      ensures LinksOk() && list == [n] + Cut(old(list), k) && SameData(old(nodes), nodes)
    {
      assert Linked(nodes, list, k);
      RemoveNode(n, k);
      AddToHead(n);
    }

    // -------------------------------------------------------------- the table

    method HashGetEntry(key: int) returns (e: Ref, ghost i: nat)
      requires TableOk() && key >= 0
      ensures e == NULL <==> key !in dict
      ensures e != NULL ==> var c := chains[Hash(key, |table|)];
                            i < |c| && c[i] == e < |entries| && entries[e].key == key && entries[e].node == dict[key]
    {
      ghost var c := chains[Hash(key, |table|)];
      e, i := table[Hash(key, |table|)], 0;
      assert Bucket(entries, table, chains, dict, Hash(key, |table|)) && (key in dict ==> Stored(entries, chains, key));
      assert c != [] ==> EntryOk(entries, c, 0, Hash(key, |table|), |table|);
      while e != NULL
        invariant i <= |c| && e == At(c, i) && (i < |c| ==> e != NULL)
        invariant forall j :: 0 <= j < i ==> c[j] < |entries| && entries[c[j]].key != key
        decreases |c| - i
      {
        assert EntryOk(entries, c, i, Hash(key, |table|), |table|);
        if entries[e].key == key { return; }
        e, i := entries[e].next, i + 1;
        assert i < |c| ==> EntryOk(entries, c, i, Hash(key, |table|), |table|);
      }
      assert !Found(entries, c, key);
    }

    method HashGet(key: int) returns (n: Ref)
      requires TableOk() && key >= 0
      ensures key in dict ==> n == dict[key]
      ensures key !in dict ==> n == NULL
    {
      ghost var i;
      var e;
      e, i := HashGetEntry(key);
      n := if e != NULL then entries[e].node else NULL;
    }

    method HashPut(key: int, n: Ref)
      requires TableOk() && key >= 0
      modifies this`entries, this`table, this`chains, this`dict
      ensures TableOk() && dict == old(dict)[key := n]
    {
      ghost var i;
      var e;
      e, i := HashGetEntry(key);
      if e != NULL {
        PutOld(entries, table, chains, dict, key, n, i);
        entries := entries[e := entries[e].(node := n)];
      } else {
        PutNew(entries, table, chains, dict, key, n);
        var h := Hash(key, |table|);
        var r := |entries|;
        entries := entries + [Entry(key, n, table[h])];
        table := table[h := r];
        chains := chains[h := [r] + chains[h]];
      }
      dict := dict[key := n];
    }

    /** The entry of a key and the one before it in its chain. */
    method FindWithPrev(key: int) returns (e: Ref, prev: Ref, ghost i: nat)
      requires TableOk() && key >= 0
      ensures e == NULL <==> key !in dict
      ensures e != NULL ==> var c := chains[Hash(key, |table|)];
                            i < |c| && c[i] == e < |entries| && entries[e].key == key
                            && prev == At(c, i - 1) && (i > 0 ==> 0 < prev < |entries|)
    {
      var h := Hash(key, |table|);
      ghost var c := chains[h];
      e, prev, i := table[h], NULL, 0;
      assert Bucket(entries, table, chains, dict, h) && (key in dict ==> Stored(entries, chains, key));
      assert c != [] ==> EntryOk(entries, c, 0, h, |table|);
      while e != NULL
        invariant i <= |c| && e == At(c, i) && prev == At(c, i - 1) && (i < |c| ==> e != NULL)
                  && (i > 0 ==> 0 < prev < |entries|)
        invariant forall j :: 0 <= j < i ==> c[j] < |entries| && entries[c[j]].key != key
        decreases |c| - i
      {
        assert EntryOk(entries, c, i, h, |table|);
        if entries[e].key == key { return; }
        prev, e, i := e, entries[e].next, i + 1;
        assert i < |c| ==> EntryOk(entries, c, i, h, |table|);
      }
      assert !Found(entries, c, key);
    }

    method HashRemove(key: int)
      requires TableOk() && key >= 0
      modifies this`entries, this`table, this`chains, this`dict
      ensures TableOk() && dict == old(dict) - {key}
    {
      var e, prev;
      ghost var i;
      e, prev, i := FindWithPrev(key);
      if e == NULL {
        assert dict - {key} == dict;
        return;
      }
      var h := Hash(key, |table|);
      TakeOut(entries, table, chains, dict, key, i);
      if prev != NULL {
        entries := entries[prev := entries[prev].(next := entries[e].next)];
        assert table[h := table[h]] == table;
      } else {
        table := table[h := entries[e].next];
      }
      chains, dict := chains[h := Cut(chains[h], i)], dict - {key};
    }

    // -------------------------------------------------------------- the cache

    /** The place of a key's node in the list. */
    ghost method Place(key: int) returns (k: nat)
      requires ListOk(nodes, list, dict) && key in dict
      ensures k < |list| && list[k] == dict[key] && nodes[list[k]].key == key
    {
      assert InList(nodes, list, dict, key);
      k :| 0 <= k < |list| && list[k] == dict[key];
    }

    /** The node of a key, or null; the dictionary has the keys of the contents. */
    method Find(key: int) returns (n: Ref)
      requires Valid() && key >= 0
      ensures n != NULL <==> key in Keys(Contents())
      ensures n != NULL ==> key in dict && n == dict[key]
      ensures n == NULL ==> key !in dict
    {
      ListKeys(nodes, list, dict);
      n := HashGet(key);
      if key in dict {
        ghost var k := Place(key);
        assert Linked(nodes, list, k);
      }
    }

    /** A node found goes to the front. */
    method Touch(n: Ref, ghost key: int) returns (value: int)
      requires LinksOk() && ListOk(nodes, list, dict) && key in dict && n == dict[key]
      modifies this`nodes, this`head, this`tail, this`list
      ensures LinksOk() && ListOk(nodes, list, dict) && |list| == old(|list|)
      ensures value == ValueOf(old(Contents()), key)
      ensures Contents() == [Pair(key, ValueOf(old(Contents()), key))] + Drop(old(Contents()), key)
    {
      ghost var h, l := nodes, list;
      ghost var k := Place(key);
      ListKeys(nodes, list, dict);
      DropAt(Contents(), k);
      MoveToHead(n, k);
      MovedPairs(h, nodes, l, dict, k);
      value := nodes[n].value;
    }

    method Get(key: int) returns (value: int)
      requires Valid() && key >= 0
      modifies this
      ensures Valid() && Contents() == Step(old(Contents()), CacheSpec.Get(key), capacity)
      ensures value == ValueOf(old(Contents()), key)
    {
      var n := Find(key);
      if n == NULL {
        NoValue(Contents(), key);
        value := -1;
      } else {
        value := GetPresent(n, key);
      }
    }

    method GetPresent(n: Ref, ghost key: int) returns (value: int)
      requires Valid() && key in dict && n == dict[key]
      modifies this`nodes, this`head, this`tail, this`list
      ensures Valid() && value == ValueOf(old(Contents()), key)
      ensures Contents() == [Pair(key, ValueOf(old(Contents()), key))] + Drop(old(Contents()), key)
    {
      value := Touch(n, key);
    }

    /** A new value for a key in the cache. */
    method PutOver(n: Ref, ghost key: int, value: int)
      requires LinksOk() && ListOk(nodes, list, dict) && |list| <= capacity && key in dict && n == dict[key]
      modifies this`nodes, this`head, this`tail, this`list
      ensures LinksOk() && ListOk(nodes, list, dict) && |list| == old(|list|)
      ensures Contents() == Clip([Pair(key, value)] + Drop(old(Contents()), key), capacity)
    {
      ghost var h := nodes;
      ghost var k := Place(key);
      nodes := nodes[n := nodes[n].(value := value)];
      ValueSet(h, nodes, list, dict, k, value);
      SameLinks(h, nodes, head, tail, list);
      var v := Touch(n, key);
    }

    /** A new node in front. */
    method PutFront(key: int, value: int)
      requires Sound() && key >= 0 && key !in dict
      modifies this`nodes, this`head, this`tail, this`list, this`entries, this`table, this`chains, this`dict
      ensures Sound() && |list| == old(|list|) + 1
      ensures Contents() == [Pair(key, value)] + Drop(old(Contents()), key)
    {
      ghost var h, l, d := nodes, list, dict;
      var n := |nodes|;
      nodes := nodes + [Node(key, value, NULL, NULL)];
      SameLinks(h, nodes, head, tail, list);
      Fresh(h, head, tail, l);
      AddToHead(n);
      HashPut(key, n);
      NewPairs(h, nodes, l, d, n);
    }

    /** The least recently used key goes. */
    method Evict()
      requires Sound() && list != []
      modifies this`nodes, this`head, this`tail, this`list, this`entries, this`table, this`chains, this`dict
      ensures Sound() && |list| == old(|list|) - 1
      ensures Contents() == old(Contents())[..|list|]
    {
      ghost var h, l, d := nodes, list, dict;
      var t := tail;
      LastKey(nodes, head, tail, list, entries, table, chains, dict);
      RemoveNode(t, |list| - 1);
      LessPairs(h, nodes, l, d);
      HashRemove(nodes[t].key);
    }

    method PutAbsent(key: int, value: int)
      requires Valid() && key >= 0 && key !in dict
      modifies this
      ensures Valid() && Contents() == Clip([Pair(key, value)] + Drop(old(Contents()), key), capacity)
    {
      PutFront(key, value);
      size := size + 1;
      Shrink();
    }

    /** One key over the capacity goes. */
    method Shrink()
      requires Sound() && size == |list| <= capacity + 1
      modifies this
      ensures Sound() && size == |list| <= capacity
      ensures Contents() == Clip(old(Contents()), capacity)
    {
      if size > capacity {
        Evict();
        size := size - 1;
      }
    }

    method Put(key: int, value: int)
      requires Valid() && key >= 0
      modifies this
      ensures Valid() && Contents() == Step(old(Contents()), CacheSpec.Put(key, value), capacity)
    {
      var n := Find(key);
      if n != NULL {
        PutPresent(n, key, value);
      } else {
        PutAbsent(key, value);
      }
    }

    method PutPresent(n: Ref, ghost key: int, value: int)
      requires Valid() && key in dict && n == dict[key]
      modifies this`nodes, this`head, this`tail, this`list
      ensures Valid() && Contents() == Clip([Pair(key, value)] + Drop(old(Contents()), key), capacity)
    {
      PutOver(n, key, value);
    }

    /** Any history of calls on a new cache: it holds the most recently used keys with the values last put. */
    method Serve(ops: seq<Op>)
      requires Valid() && Contents() == [] && forall i :: 0 <= i < |ops| ==> ops[i].key >= 0
      modifies this
      ensures Valid() && Contents() == Run(ops, capacity)
      ensures Keys(Contents()) == LruPaging.Front(LruPaging.Recent(Used(ops, capacity)), capacity)
    {
      for i := 0 to |ops|
        invariant Valid() && Contents() == Run(ops[..i], capacity)
      {
        assert ops[..i + 1][..i] == ops[..i];
        match ops[i] {
          case Get(k) => var v := Get(k);
          case Put(k, v) => Put(k, v);
        }
      }
      assert ops[..|ops|] == ops;
      HoldsMostRecent(ops, capacity);
    }
  }
}
