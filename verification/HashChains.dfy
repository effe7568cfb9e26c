/** The chained hash table of the cache: entries in an arena, index 0 standing for the null pointer. */
module HashChains {
  import opened Pigeonholes
  import opened LinkedList

  datatype Entry = Entry(key: int, node: Ref, next: Ref)

  type Dict = map<int, Ref>

  function Hash(key: int, size: nat): nat
    requires key >= 0 && size > 0
  {
    key % size
  }

  ghost predicate EntryOk(entries: seq<Entry>, c: seq<Ref>, i: nat, b: nat, size: nat)
    requires i < |c| && size > 0
  {
    && 0 < c[i] < |entries| && entries[c[i]].next == At(c, i + 1)
    && entries[c[i]].key >= 0 && Hash(entries[c[i]].key, size) == b
  }

  /** The entries of `c`, in this order, are linked from `first` on, belong to bucket `b` and have different keys. */
  ghost predicate ChainOk(entries: seq<Entry>, first: Ref, c: seq<Ref>, b: nat, size: nat)
    requires size > 0
  {
    && first == At(c, 0)
    && (forall i :: 0 <= i < |c| ==> EntryOk(entries, c, i, b, size))
    && (forall i, j :: 0 <= i < j < |c| && c[i] < |entries| && c[j] < |entries| ==>
          entries[c[i]].key != entries[c[j]].key)
  }

  /** Each entry of the chain maps its key as the dictionary does. */
  ghost predicate Agrees(entries: seq<Entry>, c: seq<Ref>, dict: Dict) {
    forall i :: 0 <= i < |c| && c[i] < |entries| ==>
      entries[c[i]].key in dict && dict[entries[c[i]].key] == entries[c[i]].node
  }

  ghost predicate Found(entries: seq<Entry>, c: seq<Ref>, key: int) {
    exists i :: 0 <= i < |c| && c[i] < |entries| && entries[c[i]].key == key
  }

  /** The table stores exactly the dictionary. */
  ghost predicate HashOk(entries: seq<Entry>, table: seq<Ref>, ch: seq<seq<Ref>>, dict: Dict) {
    && |table| == |ch| > 0
    && (forall b: nat {:trigger Bucket(entries, table, ch, dict, b)} ::
          b < |ch| ==> Bucket(entries, table, ch, dict, b))
    && (forall k {:trigger Stored(entries, ch, k)} :: k in dict ==> Stored(entries, ch, k))
  }

  ghost predicate Bucket(entries: seq<Entry>, table: seq<Ref>, ch: seq<seq<Ref>>, dict: Dict, b: nat)
    requires |table| == |ch| > b
  {
    ChainOk(entries, table[b], ch[b], b, |table|) && Agrees(entries, ch[b], dict)
  }

  ghost predicate Stored(entries: seq<Entry>, ch: seq<seq<Ref>>, k: int)
    requires |ch| > 0
  {
    k >= 0 && Found(entries, ch[Hash(k, |ch|)], k)
  }

  lemma FrameChain(entries: seq<Entry>, g: seq<Entry>, first: Ref, c: seq<Ref>, b: nat, size: nat)
    requires size > 0 && ChainOk(entries, first, c, b, size) && |entries| <= |g|
    requires forall i :: 0 <= i < |c| && c[i] < |entries| ==> g[c[i]] == entries[c[i]]
    ensures ChainOk(g, first, c, b, size)
  {
    forall i | 0 <= i < |c| ensures EntryOk(g, c, i, b, size) { assert EntryOk(entries, c, i, b, size); }
    forall i, j | 0 <= i < j < |c| && c[i] < |g| && c[j] < |g| ensures g[c[i]].key != g[c[j]].key {
      assert EntryOk(entries, c, i, b, size) && EntryOk(entries, c, j, b, size);
    }
  }

  /** An entry with a key of another bucket is not in the chain. */
  lemma OtherBucket(entries: seq<Entry>, first: Ref, c: seq<Ref>, b: nat, size: nat, e: Ref)
    requires size > 0 && ChainOk(entries, first, c, b, size)
    requires e >= |entries| || entries[e].key < 0 || Hash(entries[e].key, size) != b
    ensures e !in c
  {
    forall i | 0 <= i < |c| ensures c[i] != e { assert EntryOk(entries, c, i, b, size); }
  }

  // ---------------------------------------------------------------- a new entry in front

  lemma PushChain(entries: seq<Entry>, first: Ref, c: seq<Ref>, b: nat, size: nat, key: int, node: Ref)
    requires size > 0 && ChainOk(entries, first, c, b, size) && !Found(entries, c, key) && |entries| > 0
    requires key >= 0 && Hash(key, size) == b
    ensures ChainOk(entries + [Entry(key, node, first)], |entries|, [|entries|] + c, b, size)
  {
    var g, m := entries + [Entry(key, node, first)], [|entries|] + c;
    forall i | 0 <= i < |m| ensures EntryOk(g, m, i, b, size) {
      if i > 0 { assert EntryOk(entries, c, i - 1, b, size) && m[i] == c[i - 1]; }
    }
    forall i, j | 0 <= i < j < |m| && m[i] < |g| && m[j] < |g| ensures g[m[i]].key != g[m[j]].key {
      assert EntryOk(entries, c, j - 1, b, size) && m[j] == c[j - 1] && entries[c[j - 1]].key != key;
      if i > 0 { assert EntryOk(entries, c, i - 1, b, size) && m[i] == c[i - 1]; }
    }
  }

  lemma PutNew(entries: seq<Entry>, table: seq<Ref>, ch: seq<seq<Ref>>, dict: Dict, key: int, node: Ref)
    requires HashOk(entries, table, ch, dict) && key >= 0 && key !in dict && |entries| > 0
    ensures var h, r := Hash(key, |table|), |entries|;
            HashOk(entries + [Entry(key, node, table[h])], table[h := r], ch[h := [r] + ch[h]], dict[key := node])
  {
    var h, r := Hash(key, |table|), |entries|;
    var g := entries + [Entry(key, node, table[h])];
    var table', ch', dict' := table[h := r], ch[h := [r] + ch[h]], dict[key := node];
    NotFound(entries, table, ch, dict, key);
    assert Bucket(entries, table, ch, dict, h);
    PushChain(entries, table[h], ch[h], h, |table|, key, node);
    forall b | 0 <= b < |ch| ensures Bucket(g, table', ch', dict', b) {
      assert Bucket(entries, table, ch, dict, b);
      if b != h { FrameChain(entries, g, table[b], ch[b], b, |table|); }
      AgreesMore(entries, g, table[b], ch[b], b, |table|, dict, key, node);
      if b == h { assert forall i :: 0 < i < |ch'[b]| ==> ch'[b][i] == ch[b][i - 1]; }
    }
    forall k | k in dict' ensures Stored(g, ch', k) {
      assert k != key ==> Stored(entries, ch, k);
      if k == key {
        assert g[ch'[h][0]].key == key;
      } else {
        FoundMore(entries, g, ch[Hash(k, |table|)], ch'[Hash(k, |table|)], k);
      }
    }
  }

  lemma NotFound(entries: seq<Entry>, table: seq<Ref>, ch: seq<seq<Ref>>, dict: Dict, key: int)
    requires HashOk(entries, table, ch, dict) && key >= 0 && key !in dict
    ensures !Found(entries, ch[Hash(key, |table|)], key)
  {
    assert Bucket(entries, table, ch, dict, Hash(key, |table|));
  }

  lemma AgreesMore(entries: seq<Entry>, g: seq<Entry>, first: Ref, c: seq<Ref>, b: nat, size: nat, dict: Dict, key: int,
                   node: Ref)
    requires size > 0 && ChainOk(entries, first, c, b, size) && Agrees(entries, c, dict) && key !in dict
    requires |entries| < |g| && g[..|entries|] == entries
    ensures Agrees(g, c, dict[key := node])
  {
    forall i | 0 <= i < |c| && c[i] < |g|
      ensures g[c[i]].key in dict[key := node] && dict[key := node][g[c[i]].key] == g[c[i]].node
    {
      assert EntryOk(entries, c, i, b, size);
      assert g[c[i]] == entries[c[i]];
    }
  }

  lemma FoundMore(entries: seq<Entry>, g: seq<Entry>, c: seq<Ref>, m: seq<Ref>, k: int)
    requires Found(entries, c, k) && |entries| <= |g| && g[..|entries|] == entries
             && (m == c || (m != [] && m[1..] == c))
    ensures Found(g, m, k)
  {
    var i :| 0 <= i < |c| && c[i] < |entries| && entries[c[i]].key == k;
    assert g[c[i]] == entries[c[i]];
    if m != c { assert m[i + 1] == c[i]; }
  }

  // ---------------------------------------------------------------- another node under an old key

  lemma PutOld(entries: seq<Entry>, table: seq<Ref>, ch: seq<seq<Ref>>, dict: Dict, key: int, node: Ref, i: nat)
    requires HashOk(entries, table, ch, dict) && key >= 0
    requires var c := ch[Hash(key, |table|)]; i < |c| && c[i] < |entries| && entries[c[i]].key == key
    ensures var e := ch[Hash(key, |table|)][i];
            HashOk(entries[e := entries[e].(node := node)], table, ch, dict[key := node])
  {
    var h := Hash(key, |table|);
    var e := ch[h][i];
    var g, dict' := entries[e := entries[e].(node := node)], dict[key := node];
    assert Bucket(entries, table, ch, dict, h);
    forall b | 0 <= b < |ch| ensures Bucket(g, table, ch, dict', b) {
      assert Bucket(entries, table, ch, dict, b);
      SameKeys(entries, g, table[b], ch[b], b, |table|);
      OneKey(entries, table, ch, b, h, i);
    }
    forall k | k in dict' ensures Stored(g, ch, k) {
      assert k != key ==> Stored(entries, ch, k);
      if k == key { assert g[ch[h][i]].key == key; } else { FoundSame(entries, g, ch[Hash(k, |table|)], k); }
    }
  }

  /** A key occurs in one entry only. */
  lemma OneKey(entries: seq<Entry>, table: seq<Ref>, ch: seq<seq<Ref>>, b: nat, h: nat, i: nat)
    requires |table| == |ch| > 0 && b < |ch| && h < |ch| && i < |ch[h]|
    requires ChainOk(entries, table[b], ch[b], b, |table|) && ChainOk(entries, table[h], ch[h], h, |table|)
    ensures ch[h][i] < |entries|
    ensures forall j :: 0 <= j < |ch[b]| && ch[b][j] < |entries| && entries[ch[b][j]].key == entries[ch[h][i]].key ==>
              b == h && j == i
  {
    assert EntryOk(entries, ch[h], i, h, |table|);
    forall j | 0 <= j < |ch[b]| && ch[b][j] < |entries| && entries[ch[b][j]].key == entries[ch[h][i]].key
      ensures b == h && j == i
    {
      assert EntryOk(entries, ch[b], j, b, |table|);
    }
  }

  lemma SameKeys(entries: seq<Entry>, g: seq<Entry>, first: Ref, c: seq<Ref>, b: nat, size: nat)
    requires size > 0 && ChainOk(entries, first, c, b, size) && |entries| == |g|
    requires forall r :: 0 <= r < |g| ==> g[r].key == entries[r].key && g[r].next == entries[r].next
    ensures ChainOk(g, first, c, b, size)
  {
    forall i | 0 <= i < |c| ensures EntryOk(g, c, i, b, size) { assert EntryOk(entries, c, i, b, size); }
  }

  lemma FoundSame(entries: seq<Entry>, g: seq<Entry>, c: seq<Ref>, k: int)
    requires Found(entries, c, k) && |entries| == |g| && forall r :: 0 <= r < |g| ==> g[r].key == entries[r].key
    ensures Found(g, c, k)
  {
    var i :| 0 <= i < |c| && c[i] < |entries| && entries[c[i]].key == k;
    assert g[c[i]].key == k;
  }

  // ---------------------------------------------------------------- unlinking an entry

  /** The arena and the bucket's first entry after entry `i` of chain `c` is bypassed. */
  function Bypassed(entries: seq<Entry>, c: seq<Ref>, i: nat): seq<Entry>
    requires i < |c| && c[i] < |entries| && (i > 0 ==> c[i - 1] < |entries|)
  {
    if i == 0 then entries else entries[c[i - 1] := entries[c[i - 1]].(next := entries[c[i]].next)]
  }

  lemma CutChain(entries: seq<Entry>, first: Ref, c: seq<Ref>, b: nat, size: nat, i: nat)
    requires size > 0 && ChainOk(entries, first, c, b, size) && i < |c|
    ensures c[i] < |entries| && (i > 0 ==> c[i - 1] < |entries|)
    ensures ChainOk(Bypassed(entries, c, i), if i == 0 then entries[c[i]].next else first, Cut(c, i), b, size)
  {
    assert EntryOk(entries, c, i, b, size);
    assert i > 0 ==> EntryOk(entries, c, i - 1, b, size);
    var g, m := Bypassed(entries, c, i), Cut(c, i);
    forall j | 0 <= j < |m| ensures EntryOk(g, m, j, b, size) {
      var o := if j < i then j else j + 1;
      assert EntryOk(entries, c, o, b, size) && m[j] == c[o];
      assert o != i - 1 ==> c[o] != At(c, i - 1) || i == 0;
    }
    forall j, k | 0 <= j < k < |m| && m[j] < |g| && m[k] < |g| ensures g[m[j]].key != g[m[k]].key {
      assert m[j] == c[if j < i then j else j + 1] && m[k] == c[if k < i then k else k + 1];
    }
  }

  lemma TakeOut(entries: seq<Entry>, table: seq<Ref>, ch: seq<seq<Ref>>, dict: Dict, key: int, i: nat)
    requires HashOk(entries, table, ch, dict) && key >= 0
    requires var c := ch[Hash(key, |table|)]; i < |c| && c[i] < |entries| && entries[c[i]].key == key
    ensures var h := Hash(key, |table|); var c := ch[h];
            && (i > 0 ==> c[i - 1] < |entries|)
            && HashOk(Bypassed(entries, c, i), table[h := if i == 0 then entries[c[i]].next else table[h]],
                      ch[h := Cut(c, i)], dict - {key})
  {
    var h := Hash(key, |table|);
    var c := ch[h];
    assert Bucket(entries, table, ch, dict, h);
    CutChain(entries, table[h], c, h, |table|, i);
    var g, table', ch', dict' := Bypassed(entries, c, i), table[h := if i == 0 then entries[c[i]].next else table[h]],
      ch[h := Cut(c, i)], dict - {key};
    forall b | 0 <= b < |ch| ensures Bucket(g, table', ch', dict', b) {
      assert Bucket(entries, table, ch, dict, b);
      if b != h {
        if i > 0 {
          assert EntryOk(entries, c, i - 1, h, |table|);
          OtherBucket(entries, table[b], ch[b], b, |table|, c[i - 1]);
        }
        FrameChain(entries, g, table[b], ch[b], b, |table|);
      }
      OneKey(entries, table, ch, b, h, i);
      AgreesCut(entries, g, ch[b], ch'[b], dict, key, if b == h then i else |ch[b]|);
    }
    forall k | k in dict' ensures Stored(g, ch', k) {
      assert k != key ==> Stored(entries, ch, k);
      FoundCut(entries, g, ch[Hash(k, |table|)], ch'[Hash(k, |table|)], k,
               if Hash(k, |table|) == h then i else |ch[Hash(k, |table|)]|);
    }
  }

  /** The chain without its entry `i`, or the whole chain if `i` is its length. */
  ghost predicate IsCut(c: seq<Ref>, m: seq<Ref>, i: nat) {
    i <= |c| && (i < |c| ==> m == Cut(c, i)) && (i == |c| ==> m == c)
  }

  lemma AgreesCut(entries: seq<Entry>, g: seq<Entry>, c: seq<Ref>, m: seq<Ref>, dict: Dict, key: int, i: nat)
    requires Agrees(entries, c, dict) && IsCut(c, m, i) && |g| == |entries|
    requires forall r :: 0 <= r < |g| ==> g[r].key == entries[r].key && g[r].node == entries[r].node
    requires forall j :: 0 <= j < |c| && j != i && c[j] < |entries| ==> entries[c[j]].key != key
    ensures Agrees(g, m, dict - {key})
  {
    forall j | 0 <= j < |m| && m[j] < |g|
      ensures g[m[j]].key in dict - {key} && (dict - {key})[g[m[j]].key] == g[m[j]].node
    {
      assert m[j] == c[if j < i then j else j + 1];
    }
  }

  lemma FoundCut(entries: seq<Entry>, g: seq<Entry>, c: seq<Ref>, m: seq<Ref>, k: int, i: nat)
    requires Found(entries, c, k) && IsCut(c, m, i) && |g| == |entries|
    requires forall r :: 0 <= r < |g| ==> g[r].key == entries[r].key
    requires i < |c| ==> c[i] < |entries| && entries[c[i]].key != k
    ensures Found(g, m, k)
  {
    var j :| 0 <= j < |c| && c[j] < |entries| && entries[c[j]].key == k;
    assert m[if j < i then j else j - 1] == c[j];
  }
}
