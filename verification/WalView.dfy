/** What replaying a log means for each key, told from the operations alone, and what is printed of it. */
module WalView {
  import opened Options
  import opened WalTable
  import opened WalLog

  /** The keys inserted while there was room, in the order of their first insertion. */
  function Inserted(ops: seq<Op>, max: nat): seq<string> {
    if ops == [] then []
    else
      var before, op := Inserted(ops[..|ops| - 1], max), ops[|ops| - 1];
      if op.name == "INSERT" && op.key !in before && |before| < max then before + [op.key] else before
  }

  /** The value the last operation on a key has left there; without a record nothing but an insertion counts. */
  function LastValue(ops: seq<Op>, max: nat, key: string): Option<string> {
    if ops == [] then None
    else
      var n := |ops| - 1;
      if ops[n].key == key && ops[n].name == "DELETE" then None
      else if ops[n].key == key && ops[n].name in ["INSERT", "UPDATE"] && key in Inserted(ops, max) then
        Some(ops[n].value)
      else LastValue(ops[..n], max, key)
  }

  /** A key has this value in the table, or none. */
  ghost predicate Shows(db: Table, key: string, v: Option<string>)
    requires KeysDiffer(db)
  {
    if v.Some? then key in View(db) && View(db)[key] == v.value else key !in View(db)
  }

  lemma KeysKnown(db: Table, key: string)
    requires KeysDiffer(db) && key in View(db)
    ensures key in Keys(db)
  {
    ViewSays(db, key);
    FindIsKey(db, key);
  }

  lemma StepShows(db: Table, op: Op, max: nat, key: string, v: Option<string>, db': Table)
    requires KeysDiffer(db) && KeysDiffer(db') && Acts(db, db', op, max) && Shows(db, key, v)
    ensures Shows(db', key,
              if op.key == key && op.name == "DELETE" then None
              else if op.key == key && op.name in ["INSERT", "UPDATE"] && key in Keys(db') then Some(op.value)
              else v)
  {
    if key in View(db) { KeysKnown(db, key); }
  }

  /** The replayed table has a record for the inserted keys and shows for each key what its last operation left. */
  lemma {:induction false} ReplayedShows(ops: seq<Op>, max: nat, key: string)
    ensures KeysDiffer(Replayed(ops, [], max)) && Keys(Replayed(ops, [], max)) == Inserted(ops, max)
    ensures Shows(Replayed(ops, [], max), key, LastValue(ops, max, key))
  {
    ReplayedKeys(ops, max);
    if ops != [] {
      var n := |ops| - 1;
      var db := Replayed(ops[..n], [], max);
      ReplayedShows(ops[..n], max, key);
      AppliedActs(db, ops[n], max);
      StepShows(db, ops[n], max, key, LastValue(ops[..n], max, key), Applied(db, ops[n], max));
      assert |Inserted(ops[..n], max)| == |db|;
    }
  }

  /** While there are slots enough, every insertion finds room. */
  lemma {:induction false} InsertedIs(ops: seq<Op>, max: nat, key: string)
    requires |ops| <= max
    ensures |Inserted(ops, max)| <= |ops|
    ensures key in Inserted(ops, max) <==> exists i :: 0 <= i < |ops| && ops[i].name == "INSERT" && ops[i].key == key
  {
    if ops != [] {
      InsertedIs(ops[..|ops| - 1], max, key);
      assert forall i :: 0 <= i < |ops| - 1 ==> ops[..|ops| - 1][i] == ops[i];
    }
  }

  // ---------------------------------------------------------------- what is printed

  /** The lines printed are the keys and values of the view. */
  lemma {:induction false} SummaryIsView(db: Table, key: string, value: string)
    requires KeysDiffer(db)
    ensures (key, value) in Summary(db) <==> key in View(db) && View(db)[key] == value
  {
    if db != [] {
      var n := |db| - 1;
      SummaryIsView(db[..n], key, value);
      ViewLast(db, key);
    }
  }

  lemma ViewLast(db: Table, key: string)
    requires KeysDiffer(db) && db != []
    ensures var n, m := |db| - 1, View(db[..|db| - 1]);
            && (key in View(db) <==> if key == db[n].key then db[n].valid else key in m)
            && (key in View(db) ==> View(db)[key] == if key == db[n].key then db[n].value else m[key])
            && db[n].key !in m
  {
    var n := |db| - 1;
    ViewSays(db, key);
    ViewSays(db[..n], key);
    ViewSays(db[..n], db[n].key);
    FindAdd(db[..n], db[n], key);
    assert db == db[..n] + [db[n]];
  }

  lemma LineHasRecord(db: Table, i: nat)
    requires KeysDiffer(db) && i < |Summary(db)|
    ensures Find(db, Summary(db)[i].0) >= 0
  {
    var line := Summary(db)[i];
    SummaryIsView(db, line.0, line.1);
    ViewSays(db, line.0);
  }

  lemma FindEarlier(db: Table, n: nat, key: string)
    requires n <= |db| && Find(db[..n], key) >= 0
    ensures Find(db, key) == Find(db[..n], key)
  {
    var i := Find(db[..n], key);
    assert db[i].key == key && forall j :: 0 <= j < n ==> db[..n][j] == db[j];
  }

  /** They come in the order of the table, so none comes twice. */
  lemma {:induction false} SummaryOrder(db: Table, i: nat, j: nat)
    requires KeysDiffer(db) && i < j < |Summary(db)|
    ensures 0 <= Find(db, Summary(db)[i].0) < Find(db, Summary(db)[j].0)
  {
    var n := |db| - 1;
    var s := Summary(db[..n]);
    LineHasRecord(db[..n], i);
    FindEarlier(db, n, s[i].0);
    if j < |s| {
      SummaryOrder(db[..n], i, j);
      LineHasRecord(db[..n], j);
      FindEarlier(db, n, s[j].0);
    } else {
      assert Summary(db)[j].0 == db[n].key;
    }
  }

  /** What is printed after a replay: each key whose last operation left a value, with that value. */
  lemma PrintedIs(ops: seq<Op>, max: nat, key: string, value: string)
    ensures (key, value) in Summary(Replayed(ops, [], max)) <==> LastValue(ops, max, key) == Some(value)
  {
    ReplayedShows(ops, max, key);
    SummaryIsView(Replayed(ops, [], max), key, value);
  }
}
