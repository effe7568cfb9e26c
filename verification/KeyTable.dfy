/**
 The open-addressed table that turns key strings into store indices.  A slot, once used, is never
 freed or renamed.  Names are held in a buffer of `nameLen` bytes with a terminating zero, so a
 stored name is at most `nameLen - 1` bytes, while the search compares the whole key.
 */
module KeyTable {
  import opened Circles
  import opened Options

  type Byte = b: nat | 0 < b < 256 witness 1  // a C string holds no zero byte
  type Name = seq<Byte>

  const WORD := 0x1_0000_0000_0000_0000

  function Power33(n: nat): nat {
    if n == 0 then 1 else 33 * Power33(n - 1)
  }

  /** The bytes of a key read as the digits of a number to base 33. */
  function Digits(k: Name): nat {
    if k == [] then 0 else k[0] * Power33(|k| - 1) + Digits(k[1..])
  }

  /** The hash of a key: its number, with 5381 as a leading digit, on unsigned 64-bit words. */
  function Hash(k: Name): nat {
    (5381 * Power33(|k|) + Digits(k)) % WORD
  }

  /** What `strncpy` leaves in a slot. */
  function Stored(k: Name, nameLen: nat): Name
    requires 0 < nameLen
  {
    if |k| < nameLen then k else k[..nameLen - 1]
  }

  /** The loop's stopping test: a free slot, or one whose name equals the key. */
  predicate Stops(slot: Option<Name>, k: Name) {
    slot.None? || slot.value == k
  }

  /** The i-th and later probes from `start`: where the search stops, if before coming round. */
  function Probe(slots: seq<Option<Name>>, start: nat, i: nat, k: Name): (r: Option<nat>)
    requires start < |slots| && i <= |slots|
    ensures r.Some? ==> r.value < |slots| && Stops(slots[r.value], k)
    decreases |slots| - i
  {
    if i == |slots| then None
    else if Stops(slots[Slot(start, i, |slots|)], k) then Some(Slot(start, i, |slots|))
    else Probe(slots, start, i + 1, k)
  }

  function Start(slots: seq<Option<Name>>, k: Name): (r: nat)
    requires slots != []
    ensures r < |slots|
  {
    Hash(k) % |slots|
  }

  /** The index a call returns; none means the program exits with "Key store full". */
  function Find(slots: seq<Option<Name>>, k: Name): (r: Option<nat>)
    requires slots != []
    ensures r.Some? ==> r.value < |slots| && Stops(slots[r.value], k)
  {
    Probe(slots, Start(slots, k), 0, k)
  }

  /** The table a call leaves. */
  function After(slots: seq<Option<Name>>, k: Name, nameLen: nat): (r: seq<Option<Name>>)
    requires slots != [] && 0 < nameLen
    ensures |r| == |slots|
    ensures forall i :: 0 <= i < |slots| && slots[i].Some? ==> r[i] == slots[i]
  {
    var f := Find(slots, k);
    if f.Some? && slots[f.value].None? then slots[f.value := Some(Stored(k, nameLen))] else slots
  }

  function AfterAll(slots: seq<Option<Name>>, ks: seq<Name>, nameLen: nat): (r: seq<Option<Name>>)
    requires slots != [] && 0 < nameLen
    ensures |r| == |slots|
    ensures forall i :: 0 <= i < |slots| && slots[i].Some? ==> r[i] == slots[i]
    decreases |ks|
  {
    if ks == [] then slots else AfterAll(After(slots, ks[0], nameLen), ks[1..], nameLen)
  }

  /** The store's slots, as the program keeps them. */
  class Table {
    const slots: array<Option<Name>>
    const nameLen: nat

    constructor (maxKeys: nat, nameLen: nat)
      requires 0 < maxKeys && 0 < nameLen
      ensures slots.Length == maxKeys && this.nameLen == nameLen && fresh(slots)
      ensures forall i :: 0 <= i < maxKeys ==> slots[i].None?
    {
      this.slots := new Option<Name>[maxKeys](_ => None);
      this.nameLen := nameLen;
    }

    method GetOrCreate(k: Name) returns (r: Option<nat>)
      requires 0 < slots.Length && 0 < nameLen
      modifies slots
      ensures r == old(Find(slots[..], k))
      ensures slots[..] == old(After(slots[..], k, nameLen))
    {
      ghost var s := slots[..];
      var h := HashOf(k);
      var start := h % slots.Length;
      var idx, i := start, 0;
      while i < slots.Length
        invariant 0 <= i <= slots.Length == |s| && slots[..] == s
        invariant idx == Slot(start, i, slots.Length)
        invariant start == Start(s, k)
        invariant Find(s, k) == Probe(s, start, i, k)
      {
        if slots[idx].None? {
          slots[idx] := Some(Stored(k, nameLen));
          assert slots[..] == s[idx := Some(Stored(k, nameLen))];
          return Some(idx);
        } else if slots[idx].value == k {
          return Some(idx);
        }
        NextProbe(slots.Length, start, i);
        idx := (idx + 1) % slots.Length;
        i := i + 1;
      }
      r := None;
    }
  }

  lemma NextProbe(n: nat, start: nat, i: nat)
    requires start < n && i < n
    ensures Slot(start, i, n) < n && (Slot(start, i, n) + 1) % n == Slot(start, i + 1, n)
  {
    NextSlot(Slot(start, i, n), n);
  }

  /** Addition and shifting to the left by five on unsigned 64-bit words. */
  function Add(a: nat, b: nat): nat { (a + b) % WORD }
  function Shl5(a: nat): nat { (a * 32) % WORD }

  method HashOf(k: Name) returns (h: nat)
    ensures h == Hash(k)
  {
    h := 5381;
    var i := 0;
    while i < |k|
      invariant 0 <= i <= |k| && h == Hash(k[..i])
    {
      assert k[..i + 1] == k[..i] + [k[i]];
      HashAppend(k[..i], k[i]);
      h := Add(Add(Shl5(h), h), k[i]);
      i := i + 1;
    }
    assert k[..i] == k;
  }

  lemma {:induction false} DigitsAppend(k: Name, c: Byte)
    ensures Digits(k + [c]) == 33 * Digits(k) + c
  {
    if k == [] {
      assert k + [c] == [c];
      assert Digits([c][1..]) == 0;
    } else {
      assert (k + [c])[1..] == k[1..] + [c];
      DigitsAppend(k[1..], c);
      assert k[0] * (33 * Power33(|k| - 1)) == 33 * (k[0] * Power33(|k| - 1));
    }
  }

  /** Wrapping around at every operation is wrapping around once at the end. */
  lemma WrapOnce(n: nat, c: nat)
    ensures Add(Add(Shl5(n % WORD), n % WORD), c) == (33 * n + c) % WORD
  {
    var m, q := n % WORD, n / WORD;
    assert n == q * WORD + m;
    var a := (m * 32) / WORD;
    assert Shl5(m) == m * 32 - a * WORD;
    var b := (Shl5(m) + m) / WORD;
    assert Add(Shl5(m), m) == Shl5(m) + m - b * WORD;
    var t := Add(Shl5(m), m) + c;
    assert 33 * n + c == t + (33 * q + a + b) * WORD;
    SameRest(t, 33 * q + a + b);
  }

  lemma SameRest(t: nat, q: nat)
    ensures (t + q * WORD) % WORD == t % WORD
  {
    if q > 0 {
      SameRest(t, q - 1);
      assert (t + (q - 1) * WORD + WORD) % WORD == (t + (q - 1) * WORD) % WORD;
    }
  }

  lemma HashAppend(k: Name, c: Byte)
    ensures Hash(k + [c]) == Add(Add(Shl5(Hash(k)), Hash(k)), c)
  {
    DigitsAppend(k, c);
    WrapOnce(5381 * Power33(|k|) + Digits(k), c);
  }

  // ---------------------------------------------------------------- what callers rely on

  /** The first stop of a probe: everything before it is used and bears another name. */
  lemma {:induction false} ProbeFirst(slots: seq<Option<Name>>, start: nat, i: nat, k: Name, m: nat)
    requires start < |slots| && i <= m < |slots|
    requires Stops(slots[Slot(start, m, |slots|)], k)
    requires forall j :: i <= j < m ==> !Stops(slots[Slot(start, j, |slots|)], k)
    ensures Probe(slots, start, i, k) == Some(Slot(start, m, |slots|))
    decreases m - i
  {
    if i < m { ProbeFirst(slots, start, i + 1, k, m); }
  }

  lemma {:induction false} ProbeOffset(slots: seq<Option<Name>>, start: nat, i: nat, k: Name) returns (m: nat)
    requires start < |slots| && i <= |slots| && Probe(slots, start, i, k).Some?
    ensures i <= m < |slots| && Probe(slots, start, i, k) == Some(Slot(start, m, |slots|))
    ensures Stops(slots[Slot(start, m, |slots|)], k)
    ensures forall j :: i <= j < m ==> !Stops(slots[Slot(start, j, |slots|)], k)
    decreases |slots| - i
  {
    if Stops(slots[Slot(start, i, |slots|)], k) { m := i; } else { m := ProbeOffset(slots, start, i + 1, k); }
  }

  /** Going round from where the hash of the key points, the search comes in `m` steps to its first stop. */
  ghost predicate StopsAfter(slots: seq<Option<Name>>, k: Name, m: nat)
    requires slots != []
  {
    var start := Hash(k) % |slots|;
    && m < |slots| && Stops(slots[Slot(start, m, |slots|)], k)
    && forall j :: 0 <= j < m ==> !Stops(slots[Slot(start, j, |slots|)], k)
  }

  /** A call returns that slot, and none exactly when there is none. */
  lemma FindIs(slots: seq<Option<Name>>, k: Name, r: nat)
    requires slots != []
    ensures Find(slots, k) == Some(r) <==>
              exists m :: StopsAfter(slots, k, m) && r == Slot(Hash(k) % |slots|, m, |slots|)
  {
    if Find(slots, k) == Some(r) {
      var m := ProbeOffset(slots, Start(slots, k), 0, k);
      assert StopsAfter(slots, k, m);
    }
    if m :| StopsAfter(slots, k, m) && r == Slot(Hash(k) % |slots|, m, |slots|) {
      ProbeFirst(slots, Start(slots, k), 0, k, m);
    }
  }

  /** The hashes of the empty key and of the key "a". */
  lemma HashExamples()
    ensures Hash([]) == 5381 && Hash([97]) == 177670
  {
    assert Power33(1) == 33 * Power33(0);
    assert [97][1..] == [] && Digits([97]) == 97;
  }

  /** Filling free slots elsewhere does not divert the search for a key that is already there. */
  lemma FindStable(slots: seq<Option<Name>>, later: seq<Option<Name>>, k: Name)
    requires slots != [] && |later| == |slots|
    requires forall i :: 0 <= i < |slots| && slots[i].Some? ==> later[i] == slots[i]
    requires Find(slots, k).Some? && slots[Find(slots, k).value] == Some(k)
    ensures Find(later, k) == Find(slots, k)
  {
    var start := Start(slots, k);
    var m := ProbeOffset(slots, start, 0, k);
    ProbeFirst(later, start, 0, k, m);
  }

  /** After a call with a key that fits its buffer, the key is found under its own name. */
  lemma FoundAfter(slots: seq<Option<Name>>, k: Name, nameLen: nat)
    requires slots != [] && |k| < nameLen && Find(slots, k).Some?
    ensures Find(After(slots, k, nameLen), k) == Find(slots, k)
    ensures After(slots, k, nameLen)[Find(slots, k).value] == Some(k)
  {
    var start := Start(slots, k);
    var m := ProbeOffset(slots, start, 0, k);
    var later := After(slots, k, nameLen);
    forall j | 0 <= j < m ensures !Stops(later[Slot(start, j, |slots|)], k) { }
    ProbeFirst(later, start, 0, k, m);
  }

  /** No stored name is as long as the buffer. */
  ghost predicate NamesFit(slots: seq<Option<Name>>, nameLen: nat) {
    forall i :: 0 <= i < |slots| && slots[i].Some? ==> |slots[i].value| < nameLen
  }

  lemma {:induction false} NamesStayFit(slots: seq<Option<Name>>, ks: seq<Name>, nameLen: nat)
    requires slots != [] && 0 < nameLen && NamesFit(slots, nameLen)
    ensures NamesFit(AfterAll(slots, ks, nameLen), nameLen)
    decreases |ks|
  {
    if ks != [] { NamesStayFit(After(slots, ks[0], nameLen), ks[1..], nameLen); }
  }

  /**
   One key, one index: if two calls with `k` both succeed, whatever calls `ks` come between, they
   return the same index exactly when the key fits its buffer.  A longer key gets a new slot on
   every call, so a transaction does not even read its own write to it.
   */
  lemma SameIndexIffFits(slots: seq<Option<Name>>, k: Name, ks: seq<Name>, nameLen: nat)
    requires slots != [] && 0 < nameLen && NamesFit(slots, nameLen)
    requires Find(slots, k).Some? && Find(AfterAll(After(slots, k, nameLen), ks, nameLen), k).Some?
    ensures Find(AfterAll(After(slots, k, nameLen), ks, nameLen), k) == Find(slots, k) <==> |k| < nameLen
  {
    var mid := After(slots, k, nameLen);
    var later := AfterAll(mid, ks, nameLen);
    if |k| < nameLen {
      FoundAfter(slots, k, nameLen);
      FindStable(mid, later, k);
    } else {
      NamesStayFit(mid, ks, nameLen);
      var i := Find(slots, k).value;
      assert slots[i].None? && mid[i].Some? && later[i] == mid[i];
      assert |later[i].value| < |k|;
    }
  }

  /** A key that does not fit: the second call takes another slot. */
  lemma LongKeyMoves()
    ensures var k: Name, slots: seq<Option<Name>> := [1, 2], [None, None];
            Find(slots, k) == Some(0) && Find(After(slots, k, 2), k) == Some(1)
  {
    var k: Name, slots: seq<Option<Name>> := [1, 2], [None, None];
    assert Hash(k) == 5859944 by {
      assert Power33(1) == 33 && Power33(2) == 1089;
      assert k[1..] == [2] && [2][1..] == [];
      assert Digits([2]) == 2;
    }
    assert Start(slots, k) == 0;
    assert Stored(k, 2) == [1];
    var mid := After(slots, k, 2);
    assert mid == [Some([1]), None];
    assert !Stops(mid[Slot(0, 0, 2)], k) && Stops(mid[Slot(0, 1, 2)], k);
    assert Probe(mid, 0, 1, k) == Some(1);
  }

  /** The slot of a call with `a` is returned for `b`, after the calls `ks`. */
  ghost predicate Shares(slots: seq<Option<Name>>, a: Name, b: Name, ks: seq<Name>, nameLen: nat) {
    && slots != [] && 0 < nameLen && NamesFit(slots, nameLen) && Find(slots, a).Some?
    && Find(AfterAll(After(slots, a, nameLen), ks, nameLen), b) == Find(slots, a)
  }

  /** Whatever the table and the calls between, only the stored name of `a` gets the slot of `a`. */
  lemma SharedIsStored(slots: seq<Option<Name>>, a: Name, b: Name, ks: seq<Name>, nameLen: nat)
    requires Shares(slots, a, b, ks, nameLen)
    ensures b == Stored(a, nameLen)
  {
    var i := Find(slots, a).value;
    assert After(slots, a, nameLen)[i] == Some(Stored(a, nameLen));
  }

  /** With one slot, it always does. */
  lemma StoredShares(a: Name, nameLen: nat)
    requires 0 < nameLen
    ensures Shares([None], a, Stored(a, nameLen), [], nameLen)
  {
    var mid := After([None], a, nameLen);
    assert mid == [Some(Stored(a, nameLen))];
  }

  /**
   Two keys can meet in one slot exactly when the second is what the first is stored as.  So keys that
   fit never do unless they are equal, and a key that does not fit shares versions and lock with its
   own beginning.
   */
  lemma SharesIff(a: Name, b: Name, nameLen: nat)
    requires 0 < nameLen
    ensures (exists slots, ks :: Shares(slots, a, b, ks, nameLen)) <==> b == Stored(a, nameLen)
  {
    if slots, ks :| Shares(slots, a, b, ks, nameLen) { SharedIsStored(slots, a, b, ks, nameLen); }
    if b == Stored(a, nameLen) { StoredShares(a, nameLen); }
  }

  /** Two different keys in one slot. */
  lemma LongKeyMeetsShort()
    ensures var a: Name, b: Name, slots: seq<Option<Name>> := [1, 2], [1], [None];
            a != b && Find(slots, a) == Some(0) && Find(After(slots, a, 2), b) == Some(0)
  {
    StoredShares([1, 2], 2);
    assert Stored([1, 2], 2) == [1];
  }

  /** The search fails only when every slot is used under another name. */
  lemma FullOnlyWhenFull(slots: seq<Option<Name>>, k: Name)
    requires slots != []
    ensures Find(slots, k).None? <==> forall i :: 0 <= i < |slots| ==> !Stops(slots[i], k)
  {
    var start := Start(slots, k);
    if Find(slots, k).None? {
      forall i | 0 <= i < |slots| ensures !Stops(slots[i], k) {
        var j := if i >= start then i - start else i + |slots| - start;
        ProbeNone(slots, start, 0, k, j);
      }
    }
  }

  lemma {:induction false} ProbeNone(slots: seq<Option<Name>>, start: nat, i: nat, k: Name, j: nat)
    requires start < |slots| && i <= j < |slots| && Probe(slots, start, i, k).None?
    ensures !Stops(slots[Slot(start, j, |slots|)], k)
    decreases j - i
  {
    if i < j { ProbeNone(slots, start, i + 1, k, j); }
  }
}
