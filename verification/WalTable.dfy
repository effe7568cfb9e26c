/** The table a write-ahead log rebuilds, and what replaying the log does to it. */
module WalTable {

  datatype Op = Op(name: string, key: string, value: string)
  datatype Record = Record(key: string, value: string, valid: bool)

  type Table = seq<Record>

  /** The first record of a key, or -1. */
  function Find(db: Table, key: string): (i: int)
    ensures -1 <= i < |db|
    ensures i >= 0 ==> db[i].key == key
    ensures forall j :: 0 <= j < (if i >= 0 then i else |db|) ==> db[j].key != key
  {
    FindFrom(db, key, 0)
  }

  function FindFrom(db: Table, key: string, from: nat): (i: int)
    requires from <= |db|
    ensures i == -1 || from <= i < |db|
    ensures i >= 0 ==> db[i].key == key
    ensures forall j :: from <= j < (if i >= 0 then i else |db|) ==> db[j].key != key
    decreases |db| - from
  {
    if from == |db| then -1 else if db[from].key == key then from else FindFrom(db, key, from + 1)
  }

  /** What an operation does to the record of its key. */
  function Changed(r: Record, op: Op): Record {
    if op.name == "INSERT" || op.name == "UPDATE" then Record(r.key, op.value, true)
    else if op.name == "DELETE" then Record(r.key, r.value, false)
    else r
  }

  function Applied(db: Table, op: Op, max: nat): Table {
    var i := Find(db, op.key);
    if i >= 0 then db[i := Changed(db[i], op)]
    else if op.name == "INSERT" && |db| < max then db + [Record(op.key, op.value, true)]
    else db
  }

  /** The table after a sequence of operations. */
  function Replayed(ops: seq<Op>, db: Table, max: nat): Table {
    if ops == [] then db else Applied(Replayed(ops[..|ops| - 1], db, max), ops[|ops| - 1], max)
  }

  lemma ReplayedOne(ops: seq<Op>, op: Op, db: Table, max: nat)
    ensures Replayed(ops + [op], db, max) == Applied(Replayed(ops, db, max), op, max)
  {
    assert (ops + [op])[..|ops|] == ops;
  }

  // ---------------------------------------------------------------- what a table says

  ghost predicate KeysDiffer(db: Table) {
    forall i, j :: 0 <= i < j < |db| ==> db[i].key != db[j].key
  }

  /** The keys that have a record, valid or not, in the order of the table. */
  ghost function Keys(db: Table): seq<string> {
    seq(|db|, i requires 0 <= i < |db| => db[i].key)
  }

  /** The keys of the valid records, with their values. */
  ghost function View(db: Table): map<string, string>
    requires KeysDiffer(db)
  {
    map i | 0 <= i < |db| && db[i].valid :: db[i].key := db[i].value
  }

  /** What an operation means: an insertion needs a record or a free slot, an update needs a record. */
  ghost predicate Acts(db: Table, db': Table, op: Op, max: nat)
    requires KeysDiffer(db) && KeysDiffer(db')
  {
    && (op.name == "INSERT" && op.key in Keys(db) ==>
          View(db') == View(db)[op.key := op.value] && Keys(db') == Keys(db))
    && (op.name == "INSERT" && op.key !in Keys(db) && |db| < max ==>
          View(db') == View(db)[op.key := op.value] && Keys(db') == Keys(db) + [op.key])
    && (op.name == "INSERT" && op.key !in Keys(db) && |db| >= max ==> db' == db)
    && (op.name == "UPDATE" && op.key in Keys(db) ==>
          View(db') == View(db)[op.key := op.value] && Keys(db') == Keys(db))
    && (op.name == "UPDATE" && op.key !in Keys(db) ==> db' == db)
    && (op.name == "DELETE" ==> View(db') == View(db) - {op.key} && Keys(db') == Keys(db))
    && (op.name !in {"INSERT", "UPDATE", "DELETE"} ==> db' == db)
  }

  lemma FindIsKey(db: Table, key: string)
    ensures key in Keys(db) <==> Find(db, key) >= 0
  {
    var i := Find(db, key);
    if i >= 0 { assert Keys(db)[i] == key; }
  }

  /** The table and the map say the same of a key. */
  ghost predicate Says(db: Table, m: map<string, string>, key: string) {
    var i := Find(db, key);
    (key in m <==> i >= 0 && db[i].valid) && (key in m ==> m[key] == db[i].value)
  }

  lemma ViewSays(db: Table, key: string)
    requires KeysDiffer(db)
    ensures Says(db, View(db), key)
  { }

  lemma SameView(db: Table, m: map<string, string>)
    requires KeysDiffer(db) && forall k :: Says(db, m, k)
    ensures View(db) == m
  {
    forall k ensures k in View(db) <==> k in m { ViewSays(db, k); assert Says(db, m, k); }
    forall k | k in m ensures View(db)[k] == m[k] { ViewSays(db, k); assert Says(db, m, k); }
  }

  lemma FindPut(db: Table, i: nat, r: Record, key: string)
    requires i < |db| && r.key == db[i].key
    ensures Find(db[i := r], key) == Find(db, key)
  {
    var next := db[i := r];
    var m, n := Find(db, key), Find(next, key);
    assert forall j :: 0 <= j < |db| ==> next[j].key == db[j].key;
    if m >= 0 { assert next[m].key == key; }
    if n >= 0 { assert db[n].key == key; }
  }

  lemma FindAdd(db: Table, r: Record, key: string)
    requires Find(db, r.key) < 0
    ensures Find(db + [r], key) == if key == r.key then |db| else Find(db, key)
  {
    var next := db + [r];
    var m, n := Find(db, key), Find(next, key);
    assert forall j :: 0 <= j < |db| ==> next[j] == db[j];
    if m >= 0 { assert next[m].key == key; }
    if 0 <= n < |db| { assert db[n].key == key; }
    assert next[|db|].key == r.key;
  }

  lemma PutSays(db: Table, i: nat, r: Record, key: string)
    requires KeysDiffer(db) && i < |db| && r.key == db[i].key
    ensures Says(db[i := r], if r.valid then View(db)[r.key := r.value] else View(db) - {r.key}, key)
  {
    FindPut(db, i, r, key);
    ViewSays(db, key);
  }

  lemma AddSays(db: Table, r: Record, key: string)
    requires KeysDiffer(db) && Find(db, r.key) < 0 && r.valid
    ensures Says(db + [r], View(db)[r.key := r.value], key)
  {
    FindAdd(db, r, key);
    ViewSays(db, key);
  }

  /** A record put into its place, with the same key. */
  lemma ViewPut(db: Table, i: nat, r: Record, next: Table)
    requires KeysDiffer(db) && i < |db| && r.key == db[i].key && next == db[i := r]
    ensures KeysDiffer(next) && Keys(next) == Keys(db)
    ensures View(next) == if r.valid then View(db)[r.key := r.value] else View(db) - {r.key}
  {
    var m := if r.valid then View(db)[r.key := r.value] else View(db) - {r.key};
    forall k ensures Says(next, m, k) { PutSays(db, i, r, k); }
    SameView(next, m);
  }

  /** A valid record behind the others, with a new key. */
  lemma ViewAdd(db: Table, r: Record, next: Table)
    requires KeysDiffer(db) && Find(db, r.key) < 0 && r.valid && next == db + [r]
    ensures KeysDiffer(next) && Keys(next) == Keys(db) + [r.key]
    ensures View(next) == View(db)[r.key := r.value]
  {
    var m := View(db)[r.key := r.value];
    forall k ensures Says(next, m, k) { AddSays(db, r, k); }
    SameView(next, m);
  }

  /** Each operation does to the table what it means. */
  lemma AppliedActs(db: Table, op: Op, max: nat)
    requires KeysDiffer(db)
    ensures KeysDiffer(Applied(db, op, max)) && Acts(db, Applied(db, op, max), op, max)
  {
    var i := Find(db, op.key);
    FindIsKey(db, op.key);
    if i >= 0 {
      ViewPut(db, i, Changed(db[i], op), Applied(db, op, max));
    } else if op.name == "INSERT" && |db| < max {
      ViewAdd(db, Record(op.key, op.value, true), Applied(db, op, max));
    } else {
      ViewSays(db, op.key);
    }
  }

  /** The table in memory: a fixed number of slots, the first `|db|` in use. */
  class Store {
    const max: nat
    var db: Table

    constructor (slots: nat)
      ensures db == [] && max == slots
    {
      max, db := slots, [];
    }

    method Apply(op: Op)
      modifies this
      ensures db == Applied(old(db), op, max)
      ensures KeysDiffer(old(db)) ==> KeysDiffer(db) && Acts(old(db), db, op, max)
    {
      if KeysDiffer(db) { AppliedActs(db, op, max); }
      var found := -1;
      var i := 0;
      while i < |db|
        invariant 0 <= i <= |db| && found == -1 && FindFrom(db, op.key, 0) == FindFrom(db, op.key, i)
      {
        if db[i].key == op.key {
          found := i;
          break;
        }
        i := i + 1;
      }
      if op.name == "INSERT" {
        if found == -1 && |db| < max {
          db := db + [Record(op.key, op.value, true)];
        } else if found != -1 {
          db := db[found := Record(db[found].key, op.value, true)];
        }
      } else if op.name == "UPDATE" && found != -1 {
        db := db[found := Record(db[found].key, op.value, true)];
      } else if op.name == "DELETE" && found != -1 {
        db := db[found := Record(db[found].key, db[found].value, false)];
      }
    }
  }

  // ---------------------------------------------------------------- replaying twice

  ghost predicate SameKeys(a: Table, b: Table) {
    |a| == |b| && forall i :: 0 <= i < |a| ==> a[i].key == b[i].key
  }

  /** `b` has the keys of `a` in the same places, and maybe more behind them. */
  ghost predicate Extends(a: Table, b: Table) {
    |a| <= |b| && forall i :: 0 <= i < |a| ==> a[i].key == b[i].key
  }

  lemma AppliedKeys(db: Table, op: Op, max: nat)
    requires KeysDiffer(db)
    ensures KeysDiffer(Applied(db, op, max)) && Extends(db, Applied(db, op, max))
    ensures |db| <= max ==> |Applied(db, op, max)| <= max
  { }

  lemma {:induction false} ReplayedKeys(ops: seq<Op>, max: nat)
    ensures KeysDiffer(Replayed(ops, [], max)) && |Replayed(ops, [], max)| <= max
  {
    if ops != [] {
      ReplayedKeys(ops[..|ops| - 1], max);
      AppliedKeys(Replayed(ops[..|ops| - 1], [], max), ops[|ops| - 1], max);
    }
  }

  /** A table only grows at the end. */
  lemma {:induction false} ReplayedGrows(ops: seq<Op>, n: nat, max: nat)
    requires n <= |ops|
    ensures Extends(Replayed(ops[..n], [], max), Replayed(ops, [], max))
    decreases |ops| - n
  {
    if n == |ops| {
      assert ops[..n] == ops;
    } else {
      ReplayedGrows(ops, n + 1, max);
      ReplayedKeys(ops[..n], max);
      assert ops[..n + 1][..n] == ops[..n];
      AppliedKeys(Replayed(ops[..n], [], max), ops[n], max);
    }
  }

  /** The second pass agrees with the first on all keys the first has inserted so far. */
  ghost predicate CatchesUp(first: Table, second: Table, final: Table) {
    && SameKeys(second, final) && Extends(first, final)
    && forall i :: 0 <= i < |first| ==> second[i] == first[i]
  }

  lemma StepCatchesUp(first: Table, second: Table, final: Table, op: Op, max: nat)
    requires CatchesUp(first, second, final) && KeysDiffer(final) && |final| <= max
    requires Extends(Applied(first, op, max), final)
    ensures CatchesUp(Applied(first, op, max), Applied(second, op, max), final)
  {
    var i, j := Find(first, op.key), Find(second, op.key);
    var f, s := Applied(first, op, max), Applied(second, op, max);
    if i >= 0 {
      assert second[i].key == op.key;
      assert j == i;
    } else if op.name == "INSERT" && |first| < max {
      assert final[|first|].key == op.key;
      assert second[|first|].key == op.key;
      assert j == |first|;
    } else {
      assert j >= 0 ==> j >= |first|;
      if op.name == "INSERT" { assert |first| == |final| == |second|; }
    }
  }

  lemma {:induction false} SecondPass(ops: seq<Op>, n: nat, max: nat)
    requires n <= |ops|
    ensures var final := Replayed(ops, [], max);
            CatchesUp(Replayed(ops[..n], [], max), Replayed(ops[..n], final, max), final)
  {
    var final := Replayed(ops, [], max);
    ReplayedGrows(ops, n, max);
    if n > 0 {
      SecondPass(ops, n - 1, max);
      ReplayedKeys(ops, max);
      assert ops[..n][..n - 1] == ops[..n - 1];
      StepCatchesUp(Replayed(ops[..n - 1], [], max), Replayed(ops[..n - 1], final, max), final, ops[n - 1], max);
    }
  }

  /** Replaying a log a second time changes nothing, even when it filled the table. */
  lemma ReplayTwice(ops: seq<Op>, max: nat)
    ensures Replayed(ops, Replayed(ops, [], max), max) == Replayed(ops, [], max)
  {
    SecondPass(ops, |ops|, max);
    assert ops[..|ops|] == ops;
  }

  /** Replaying a log, then going on, is replaying the longer log. */
  lemma {:induction false} ReplayGoesOn(ops: seq<Op>, more: seq<Op>, db: Table, max: nat)
    ensures Replayed(ops + more, db, max) == Replayed(more, Replayed(ops, db, max), max)
    decreases |more|
  {
    if more == [] {
      assert ops + more == ops;
    } else {
      ReplayGoesOn(ops, more[..|more| - 1], db, max);
      assert (ops + more)[..|ops + more| - 1] == ops + more[..|more| - 1];
    }
  }
}
