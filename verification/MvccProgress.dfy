/** What a transaction can do at any time, and how long its commit takes. */
module MvccProgress {
  import opened Mvcc
  import opened MvccHistory
  import opened Options

  // ---------------------------------------------------------------- what a client can always do

  lemma {:induction false} SortedInsert(keys: seq<Key>, k: Key) returns (more: seq<Key>)
    requires Ascending(keys)
    ensures Ascending(more) && forall x :: x in more <==> x in keys || x == k
  {
    var n := |keys| - 1;
    if keys == [] || keys[n] < k {
      more := keys + [k];
    } else if keys[n] == k {
      more := keys;
    } else {
      var front := SortedInsert(keys[..n], k);
      more := front + [keys[n]];
      assert keys == keys[..n] + [keys[n]];
      forall i | 0 <= i < |front| ensures front[i] < keys[n] { assert front[i] in front; }
    }
  }

  lemma {:induction false} LockOrderExists(ws: seq<Write>) returns (keys: seq<Key>)
    ensures SortedKeysOf(keys, ws)
  {
    if ws == [] {
      keys := [];
    } else {
      var n := |ws| - 1;
      var front := LockOrderExists(ws[..n]);
      keys := SortedInsert(front, ws[n].key);
      forall k ensures k in Elements(keys) <==> k in KeySet(ws) {
        assert k in front <==> k in Elements(front);
        if k in KeySet(ws[..n]) { var i :| 0 <= i < n && ws[..n][i].key == k; assert ws[i].key == k; }
        if k in KeySet(ws) && k != ws[n].key { var i :| 0 <= i < |ws| && ws[i].key == k; assert ws[..n][i].key == k; }
      }
    }
  }

  /** Whether a transaction has written anything. */
  ghost predicate WroteNothing(steps: seq<Step>, t: TxnId) {
    forall k :: LastWrite(steps, t, k).None?
  }

  /**
   Whatever the others do, a running transaction can write, abort, and start its commit, and it can read what it has
   written and what is not locked.
   */
  lemma Offered(ss: seq<State>, steps: seq<Step>, n: nat, t: TxnId, k: Key, v: Value)
    requires IsRun(ss, steps) && n < |ss| && t < |ss[n].txns| && ss[n].txns[t].pc.Running? && k < ss[n].limits.keys
    ensures Enabled(ss[n], WriteLocal(t, k, v)) && Enabled(ss[n], Abort(t))
    ensures Enabled(ss[n], Read(t, k)) <==> LastWrite(steps[..n], t, k).Some? || ss[n].locks[k].None?
    ensures Enabled(ss[n], CommitReadOnly(t)) <==> WroteNothing(steps[..n], t)
    ensures (exists keys :: Enabled(ss[n], StartCommit(t, keys))) <==> !WroteNothing(steps[..n], t)
  {
    RunInv(ss, steps, n);
    RunHistory(ss, steps, n);
    var ws := ss[n].txns[t].writes;
    var keys := LockOrderExists(ws);
    assert ListOk(ws, steps[..n], t, ss[n].limits.valueLen);
    if ws != [] {
      LookupIff(ws, ws[0].key);
      assert LastWrite(steps[..n], t, ws[0].key).Some?;
      assert Enabled(ss[n], StartCommit(t, keys));
    } else {
      assert forall j :: Lookup(ws, j).None?;
    }
  }

  /** A transaction can begin as long as the table has room. */
  lemma BeginOffered(ss: seq<State>, steps: seq<Step>, n: nat)
    requires IsRun(ss, steps) && n < |ss|
    ensures Enabled(ss[n], Begin) <==> Begun(steps[..n]) + 1 < ss[0].limits.txns
  {
    RunInv(ss, steps, n);
    ClockIs(ss, steps, n);
  }

  // ---------------------------------------------------------------- the length of a commit

  predicate CommitStep(step: Step, t: TxnId) {
    match step
    case LockNext(u) => u == t
    case ValidateNext(u) => u == t
    case Stamp(u) => u == t
    case InstallNext(u) => u == t
    case DropWrites(u) => u == t
    case UnlockNext(u) => u == t
    case Finish(u) => u == t
    case _ => false
  }

  /** How many steps the commit of `t` has taken. */
  function Taken(steps: seq<Step>, t: TxnId): nat {
    if steps == [] then 0 else Taken(steps[..|steps| - 1], t) + if CommitStep(steps[|steps| - 1], t) then 1 else 0
  }

  /** The keys `t` has written. */
  function Wrote(steps: seq<Step>, t: TxnId): set<Key> {
    if steps == [] then {}
    else
      var last := steps[|steps| - 1];
      Wrote(steps[..|steps| - 1], t) + if last.WriteLocal? && last.t == t then {last.k} else {}
  }

  lemma {:induction false} WroteIs(steps: seq<Step>, t: TxnId, k: Key)
    ensures k in Wrote(steps, t) <==> LastWrite(steps, t, k).Some?
  {
    if steps != [] { WroteIs(steps[..|steps| - 1], t, k); }
  }

  lemma {:induction false} AscendingSize(keys: seq<Key>)
    requires Ascending(keys)
    ensures |Elements(keys)| == |keys|
  {
    if keys != [] {
      var n := |keys| - 1;
      AscendingSize(keys[..n]);
      assert keys == keys[..n] + [keys[n]];
      assert Elements(keys) == Elements(keys[..n]) + {keys[n]};
      assert forall i :: 0 <= i < n ==> keys[..n][i] < keys[n];
    }
  }

  lemma {:induction false} KeySetSize(ws: seq<Write>)
    requires DistinctKeys(ws)
    ensures |KeySet(ws)| == |ws|
  {
    if ws != [] {
      var n := |ws| - 1;
      KeySetSize(ws[..n]);
      assert ws == ws[..n] + [ws[n]];
      assert KeySet(ws) == KeySet(ws[..n]) + {ws[n].key};
    }
  }

  /** The steps left of a commit that does not fail. */
  function Left(x: Txn): int {
    match x.pc
    case Running => 0
    case Locking(keys, i) => 2 * |keys| - i + 2 * |x.writes| + 4
    case Validating(keys, j) => |keys| + 2 * |x.writes| - j + 3
    case Installing(keys, _, j) => |keys| + |x.writes| - j + 2
    case Unlocking(keys, i, _) => |keys| - i + 1
    case Done(_) => 0
  }

  /** Steps taken and steps left add up to four for each of the `w` keys and four more; a failing commit takes fewer. */
  predicate CountOk(x: Txn, taken: nat, w: nat) {
    match x.pc
    case Running => taken == 0
    case Locking(keys, _) => |keys| == |x.writes| == w > 0 && taken + Left(x) == 4 * w + 4
    case Validating(keys, j) => |keys| == |x.writes| == w > 0 && j <= w && taken + Left(x) == 4 * w + 4
    case Installing(keys, _, j) => |keys| == |x.writes| == w > 0 && j <= w && taken + Left(x) == 4 * w + 4
    case Unlocking(keys, i, committed) =>
      |keys| == w && i <= w && taken + Left(x) <= 4 * w + 4 && (committed ==> w > 0 && taken + Left(x) == 4 * w + 4)
    case Done(committed) => taken <= 4 * w + 4 && (committed ==> taken == if w == 0 then 0 else 4 * w + 4)
  }

  /** A step of another transaction leaves `u` as it is. */
  lemma OthersStep(s: State, s': State, step: Step, u: TxnId)
    requires Enabled(s, step) && s' == Apply(s, step) && u < |s.txns| && (step.Begin? || step.t != u)
    ensures u < |s'.txns| && s'.txns[u] == s.txns[u] && !CommitStep(step, u)
  { }

  /** A step of its commit. */
  lemma CommitStepCount(s: State, s': State, step: Step, u: TxnId, taken: nat, w: nat)
    requires Enabled(s, step) && s' == Apply(s, step) && u < |s.txns| && CommitStep(step, u)
    requires CountOk(s.txns[u], taken, w)
    ensures u < |s'.txns| && CountOk(s'.txns[u], taken + 1, w)
  { }

  /** A call, or the start of its commit. */
  lemma CallCount(s: State, s': State, step: Step, u: TxnId, taken: nat, w: nat, w': nat)
    requires Enabled(s, step) && s' == Apply(s, step) && u < |s.txns| && !step.Begin? && step.t == u
    requires !CommitStep(step, u) && CountOk(s.txns[u], taken, w)
    requires !step.WriteLocal? ==> w' == w == |s.txns[u].writes| && DistinctKeys(s.txns[u].writes)
    ensures u < |s'.txns| && CountOk(s'.txns[u], taken, w')
  {
    if step.StartCommit? {
      AscendingSize(step.keys);
      KeySetSize(s.txns[u].writes);
    }
  }

  /** The writes of a running transaction are those of its steps. */
  lemma RunningWrites(s: State, steps: seq<Step>, t: TxnId)
    requires Inv(s) && HistoryOk(s, steps) && t < |s.txns| && s.txns[t].pc.Running?
    ensures |s.txns[t].writes| == |Wrote(steps, t)| && DistinctKeys(s.txns[t].writes)
  {
    var ws := s.txns[t].writes;
    assert TxnOk(s, t);
    KeySetSize(ws);
    assert ListOk(ws, steps, t, s.limits.valueLen);
    forall k ensures k in KeySet(ws) <==> k in Wrote(steps, t) {
      LookupIff(ws, k);
      WroteIs(steps, t, k);
    }
    assert KeySet(ws) == Wrote(steps, t);
  }

  lemma CountOneMore(steps: seq<Step>, n: nat, t: TxnId)
    requires n < |steps|
    ensures Taken(steps[..n + 1], t) == Taken(steps[..n], t) + if CommitStep(steps[n], t) then 1 else 0
    ensures !(steps[n].WriteLocal? && steps[n].t == t) ==> Wrote(steps[..n + 1], t) == Wrote(steps[..n], t)
  {
    OneStep(steps, n);
  }

  lemma StepCount(s: State, s': State, step: Step, steps: seq<Step>, t: TxnId, taken: nat, w': nat)
    requires Inv(s) && HistoryOk(s, steps) && Enabled(s, step) && s' == Apply(s, step) && t < |s.txns|
    requires CountOk(s.txns[t], taken, |Wrote(steps, t)|)
    requires !(step.WriteLocal? && step.t == t) ==> w' == |Wrote(steps, t)|
    ensures t < |s'.txns| && CountOk(s'.txns[t], taken + if CommitStep(step, t) then 1 else 0, w')
  {
    var w := |Wrote(steps, t)|;
    if step.Begin? || step.t != t {
      OthersStep(s, s', step, t);
    } else if CommitStep(step, t) {
      CommitStepCount(s, s', step, t, taken, w);
    } else {
      if s.txns[t].pc.Running? { RunningWrites(s, steps, t); }
      CallCount(s, s', step, t, taken, w, w');
    }
  }

  /** A transaction that has just begun, or not yet. */
  lemma NewCount(s: State, s': State, step: Step, t: TxnId)
    requires Enabled(s, step) && s' == Apply(s, step) && t >= |s.txns|
    ensures !CommitStep(step, t) && (t < |s'.txns| ==> s'.txns[t].pc == Running)
  { }

  ghost predicate CountAt(ss: seq<State>, steps: seq<Step>, n: nat, t: TxnId) {
    && n < |ss| && n <= |steps|
    && (t < |ss[n].txns| ==> CountOk(ss[n].txns[t], Taken(steps[..n], t), |Wrote(steps[..n], t)|))
    && (t >= |ss[n].txns| ==> Taken(steps[..n], t) == 0)
  }

  lemma CountStep(ss: seq<State>, steps: seq<Step>, n: nat, t: TxnId)
    requires IsRun(ss, steps) && n < |steps| && CountAt(ss, steps, n, t)
    ensures CountAt(ss, steps, n + 1, t)
  {
    CountOneMore(steps, n, t);
    RunInv(ss, steps, n);
    RunHistory(ss, steps, n);
    if t < |ss[n].txns| {
      StepCount(ss[n], ss[n + 1], steps[n], steps[..n], t, Taken(steps[..n], t), |Wrote(steps[..n + 1], t)|);
    } else {
      NewCount(ss[n], ss[n + 1], steps[n], t);
    }
  }

  lemma {:induction false} RunCount(ss: seq<State>, steps: seq<Step>, n: nat, t: TxnId)
    requires IsRun(ss, steps) && n < |ss|
    ensures CountAt(ss, steps, n, t)
  {
    if n > 0 {
      RunCount(ss, steps, n - 1, t);
      CountStep(ss, steps, n - 1, t);
    }
  }

  /**
   A commit takes four steps for each key written and four more, a failing one no more than that, and a commit without
   writes none.
   */
  lemma CommitLength(ss: seq<State>, steps: seq<Step>, n: nat, t: TxnId)
    requires IsRun(ss, steps) && n < |ss| && t < |ss[n].txns|
    ensures var w := |Wrote(steps[..n], t)|;
            && Taken(steps[..n], t) <= 4 * w + 4
            && (ss[n].txns[t].pc == Done(true) ==> Taken(steps[..n], t) == if w == 0 then 0 else 4 * w + 4)
  {
    RunCount(ss, steps, n, t);
    RunInv(ss, steps, n);
    assert TxnOk(ss[n], t);
  }
}
