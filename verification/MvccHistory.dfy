/**
 The multi-version store against its history: what reads return and what commits leave, told from the steps of a
 run alone, and which commits go through.
 */
module MvccHistory {
  import opened Mvcc
  import opened Options
  import opened SnapshotIsolation

  // ---------------------------------------------------------------- what the steps say

  /** The last value that transaction `t` wrote to `k`. */
  function LastWrite(steps: seq<Step>, t: TxnId, k: Key): Option<Value> {
    if steps == [] then None
    else
      var last := steps[|steps| - 1];
      if last.WriteLocal? && last.t == t && last.k == k then Some(last.v)
      else LastWrite(steps[..|steps| - 1], t, k)
  }

  /** The transactions that drew a commit timestamp, in this order. */
  function Stamped(steps: seq<Step>): seq<TxnId> {
    if steps == [] then []
    else
      var last := steps[|steps| - 1];
      Stamped(steps[..|steps| - 1]) + if last.Stamp? then [last.t] else []
  }

  /** The value of `k` after the transactions of `order` have committed one after the other. */
  function Committed(steps: seq<Step>, order: seq<TxnId>, k: Key, valueLen: nat): Value {
    if order == [] then ""
    else
      match LastWrite(steps, order[|order| - 1], k)
      case Some(v) => Clip(v, valueLen)
      case None => Committed(steps, order[..|order| - 1], k, valueLen)
  }

  /** How often the clock has been advanced. */
  function Ticks(steps: seq<Step>): nat {
    if steps == [] then 0
    else
      var last := steps[|steps| - 1];
      Ticks(steps[..|steps| - 1]) + if last.Begin? || last.CommitReadOnly? || last.Stamp? then 1 else 0
  }

  /** How many transactions have begun. */
  function Begun(steps: seq<Step>): nat {
    if steps == [] then 0 else Begun(steps[..|steps| - 1]) + if steps[|steps| - 1].Begin? then 1 else 0
  }

  lemma OneStep(steps: seq<Step>, n: nat)
    requires n < |steps|
    ensures steps[..n + 1][..n] == steps[..n] && steps[..n + 1][n] == steps[n]
  { }

  /** A value is kept up to the length of its buffer, less one for the terminating zero. */
  lemma ClipKeeps(v: Value, valueLen: nat)
    requires valueLen > 0
    ensures Clip(v, valueLen) <= v && |Clip(v, valueLen)| == if |v| < valueLen - 1 then |v| else valueLen - 1
  { }

  // ---------------------------------------------------------------- the write list

  lemma {:induction false} OverwriteLookup(ws: seq<Write>, k: Key, v: Value, j: Key)
    ensures Lookup(Overwrite(ws, k, v), j) == if j == k && Lookup(ws, k).Some? then Some(v) else Lookup(ws, j)
  {
    if ws != [] {
      OverwriteLookup(ws[1..], k, v, j);
      var r := Overwrite(ws, k, v);
      assert ws[0].key != k ==> r[1..] == Overwrite(ws[1..], k, v);
    }
  }

  /** A write gives its key the new value, and leaves all other keys as they are. */
  lemma PutLocalLookup(ws: seq<Write>, k: Key, v: Value, j: Key)
    ensures Lookup(PutLocal(ws, k, v), j) == if j == k then Some(v) else Lookup(ws, j)
  {
    OverwriteLookup(ws, k, v, j);
    assert ([Write(k, v)] + ws)[1..] == ws;
  }

  // ---------------------------------------------------------------- writes against the steps

  function Kept(w: Option<Value>, valueLen: nat): Option<Value> {
    if w.Some? then Some(Clip(w.value, valueLen)) else None
  }

  /** The write list is given up when its versions are installed, or at the end. */
  predicate HasWrites(pc: Pc) {
    !pc.Done? && !(pc.Unlocking? && pc.committed)
  }

  /** The write list gives each key what was last written to it. */
  ghost predicate ListOk(ws: seq<Write>, steps: seq<Step>, t: TxnId, valueLen: nat) {
    forall k :: Lookup(ws, k) == Kept(LastWrite(steps, t, k), valueLen)
  }

  ghost predicate HistoryOk(s: State, steps: seq<Step>) {
    && (forall t: TxnId {:trigger ListOk(s.txns[t].writes, steps, t, s.limits.valueLen)} ::
          t < |s.txns| && HasWrites(s.txns[t].pc) ==> ListOk(s.txns[t].writes, steps, t, s.limits.valueLen))
    && (forall c {:trigger ListOk(c.writes, steps, c.id, s.limits.valueLen)} ::
          c in s.log ==> ListOk(c.writes, steps, c.id, s.limits.valueLen))
    && (forall t: TxnId, k :: t >= |s.txns| ==> LastWrite(steps, t, k).None?)
  }

  lemma LastWriteOne(steps: seq<Step>, step: Step, t: TxnId, k: Key)
    ensures LastWrite(steps + [step], t, k) ==
              if step.WriteLocal? && step.t == t && step.k == k then Some(step.v) else LastWrite(steps, t, k)
  {
    assert (steps + [step])[..|steps|] == steps;
  }

  /** A step that does not write for `t` changes nothing about its writes. */
  lemma ListStays(ws: seq<Write>, steps: seq<Step>, step: Step, t: TxnId, valueLen: nat)
    requires ListOk(ws, steps, t, valueLen) && !(step.WriteLocal? && step.t == t)
    ensures ListOk(ws, steps + [step], t, valueLen)
  {
    forall k
      ensures Lookup(ws, k) == Kept(LastWrite(steps + [step], t, k), valueLen)
    {
      LastWriteOne(steps, step, t, k);
    }
  }

  lemma ListGrows(ws: seq<Write>, steps: seq<Step>, step: Step, valueLen: nat)
    requires step.WriteLocal? && ListOk(ws, steps, step.t, valueLen)
    ensures ListOk(PutLocal(ws, step.k, Clip(step.v, valueLen)), steps + [step], step.t, valueLen)
  {
    var ws' := PutLocal(ws, step.k, Clip(step.v, valueLen));
    forall k ensures Lookup(ws', k) == Kept(LastWrite(steps + [step], step.t, k), valueLen) {
      LastWriteOne(steps, step, step.t, k);
      PutLocalLookup(ws, step.k, Clip(step.v, valueLen), k);
    }
  }

  lemma ListStarts(steps: seq<Step>, t: TxnId, valueLen: nat)
    requires forall k :: LastWrite(steps, t, k).None?
    ensures ListOk([], steps, t, valueLen)
  { }

  /** What a step does to transaction `u`. */
  lemma StepTxn(s: State, s': State, step: Step, u: TxnId)
    requires Inv(s) && Enabled(s, step) && s' == Apply(s, step) && u < |s.txns|
    ensures |s.txns| <= |s'.txns| && s'.limits == s.limits
    ensures HasWrites(s'.txns[u].pc) ==>
              HasWrites(s.txns[u].pc) && s'.txns[u].writes ==
                if step.WriteLocal? && step.t == u
                then PutLocal(s.txns[u].writes, step.k, Clip(step.v, s.limits.valueLen))
                else s.txns[u].writes
  { }

  lemma StepLog(s: State, s': State, step: Step)
    requires Inv(s) && Enabled(s, step) && s' == Apply(s, step)
    ensures if step.Stamp?
            then s'.log == s.log + [Commit(step.t, s.txns[step.t].startTs, s.globalTs, s.txns[step.t].writes)]
            else s'.log == s.log
  { }

  lemma TxnHistory(s: State, s': State, step: Step, steps: seq<Step>, u: TxnId)
    requires Inv(s) && Enabled(s, step) && s' == Apply(s, step) && HistoryOk(s, steps)
    requires u < |s'.txns| && HasWrites(s'.txns[u].pc)
    ensures ListOk(s'.txns[u].writes, steps + [step], u, s'.limits.valueLen)
  {
    if u < |s.txns| {
      StepTxn(s, s', step, u);
      assert ListOk(s.txns[u].writes, steps, u, s.limits.valueLen);
      if step.WriteLocal? && step.t == u {
        ListGrows(s.txns[u].writes, steps, step, s.limits.valueLen);
      } else {
        ListStays(s.txns[u].writes, steps, step, u, s.limits.valueLen);
      }
    } else {
      ListStarts(steps, u, s.limits.valueLen);
      ListStays([], steps, step, u, s.limits.valueLen);
    }
  }

  lemma CommitHistory(s: State, s': State, step: Step, steps: seq<Step>, c: Commit)
    requires Inv(s) && Enabled(s, step) && s' == Apply(s, step) && HistoryOk(s, steps) && c in s'.log
    ensures ListOk(c.writes, steps + [step], c.id, s'.limits.valueLen)
  {
    StepLog(s, s', step);
    if c in s.log {
      assert ListOk(c.writes, steps, c.id, s.limits.valueLen);
      assert PastStamp(s.txns[c.id].pc);
      ListStays(c.writes, steps, step, c.id, s.limits.valueLen);
    } else {
      assert ListOk(s.txns[step.t].writes, steps, step.t, s.limits.valueLen);
      ListStays(c.writes, steps, step, c.id, s.limits.valueLen);
    }
  }

  lemma KeepHistory(s: State, s': State, step: Step, steps: seq<Step>)
    requires Inv(s) && Enabled(s, step) && s' == Apply(s, step) && HistoryOk(s, steps)
    ensures HistoryOk(s', steps + [step])
  {
    forall u: TxnId | u < |s'.txns| && HasWrites(s'.txns[u].pc)
      ensures ListOk(s'.txns[u].writes, steps + [step], u, s'.limits.valueLen)
    {
      TxnHistory(s, s', step, steps, u);
    }
    forall c | c in s'.log ensures ListOk(c.writes, steps + [step], c.id, s'.limits.valueLen) {
      CommitHistory(s, s', step, steps, c);
    }
    forall t: TxnId, k | t >= |s'.txns|
      ensures LastWrite(steps + [step], t, k).None?
    {
      LastWriteOne(steps, step, t, k);
    }
  }

  lemma {:induction false} RunHistory(ss: seq<State>, steps: seq<Step>, n: nat)
    requires IsRun(ss, steps) && n < |ss|
    ensures HistoryOk(ss[n], steps[..n]) && ss[n].limits == ss[0].limits
  {
    if n > 0 {
      RunHistory(ss, steps, n - 1);
      RunInv(ss, steps, n - 1);
      KeepHistory(ss[n - 1], ss[n], steps[n - 1], steps[..n - 1]);
      assert steps[..n] == steps[..n - 1] + [steps[n - 1]];
    }
  }

  /** The commits of the log are those of the steps, in the order in which they drew their timestamps. */
  lemma {:induction false} LogIsStamped(ss: seq<State>, steps: seq<Step>, n: nat)
    requires IsRun(ss, steps) && n < |ss|
    ensures |ss[n].log| == |Stamped(steps[..n])|
    ensures forall m :: 0 <= m < |ss[n].log| ==> ss[n].log[m].id == Stamped(steps[..n])[m]
  {
    if n > 0 {
      LogIsStamped(ss, steps, n - 1);
      RunInv(ss, steps, n - 1);
      OneStep(steps, n - 1);
      StepLog(ss[n - 1], ss[n], steps[n - 1]);
    }
  }

  /** What a commit wrote to a key is what its transaction wrote there last. */
  lemma CommitWrites(ss: seq<State>, steps: seq<Step>, n: nat, c: Commit, k: Key)
    requires IsRun(ss, steps) && n < |ss| && c in ss[n].log
    ensures Lookup(c.writes, k) == Kept(LastWrite(steps[..n], c.id, k), ss[n].limits.valueLen)
  {
    RunHistory(ss, steps, n);
    assert ListOk(c.writes, steps[..n], c.id, ss[n].limits.valueLen);
  }

  lemma {:induction false} LatestIsCommitted(log: seq<Commit>, order: seq<TxnId>, steps: seq<Step>, k: Key,
                                             valueLen: nat)
    requires |log| == |order| && forall m :: 0 <= m < |log| ==> log[m].id == order[m]
    requires forall c :: c in log ==> ListOk(c.writes, steps, c.id, valueLen)
    ensures Latest(log, k) == Committed(steps, order, k, valueLen)
  {
    if log != [] {
      var n := |log| - 1;
      assert log[n] in log && ListOk(log[n].writes, steps, log[n].id, valueLen);
      assert Lookup(log[n].writes, k) == Kept(LastWrite(steps, order[n], k), valueLen);
      LatestIsCommitted(log[..n], order[..n], steps, k, valueLen);
    }
  }

  /**
   What a read returns, told from the steps: the value the transaction itself wrote last, if it wrote the key;
   else the value the key has after all commits that drew their timestamps before the transaction began.
   */
  lemma ReadIs(ss: seq<State>, steps: seq<Step>, i: nat, j: nat, k: Key)
    requires IsRun(ss, steps) && i < j < |steps| && steps[i].Begin? && steps[j] == Read(|ss[i].txns|, k)
    ensures var t, len := |ss[i].txns|, ss[0].limits.valueLen;
            ReadResult(ss[j], t, k) ==
              match LastWrite(steps[..j], t, k)
              case Some(v) => Clip(v, len)
              case None => Committed(steps[..i], Stamped(steps[..i]), k, len)
  {
    var t := |ss[i].txns|;
    RunHistory(ss, steps, i);
    RunHistory(ss, steps, j);
    assert ListOk(ss[j].txns[t].writes, steps[..j], t, ss[j].limits.valueLen);
    assert Lookup(ss[j].txns[t].writes, k) == Kept(LastWrite(steps[..j], t, k), ss[j].limits.valueLen);
    if LastWrite(steps[..j], t, k).None? {
      SnapshotRead(ss, steps, i, j, k);
      LogIsStamped(ss, steps, i);
      LatestIsCommitted(ss[i].log, Stamped(steps[..i]), steps[..i], k, ss[i].limits.valueLen);
    }
  }

  /** The clock, and the number of transactions, which stays below the size of their table. */
  lemma {:induction false} ClockIs(ss: seq<State>, steps: seq<Step>, n: nat)
    requires IsRun(ss, steps) && n < |ss|
    ensures ss[n].globalTs == 1 + Ticks(steps[..n]) && |ss[n].txns| == Begun(steps[..n])
    ensures ss[n].limits == ss[0].limits && (|ss[n].txns| > 0 ==> |ss[n].txns| < ss[n].limits.txns)
  {
    if n > 0 {
      ClockIs(ss, steps, n - 1);
      OneStep(steps, n - 1);
      StepClock(ss[n - 1], ss[n], steps[n - 1]);
    }
  }

  lemma StepClock(s: State, s': State, step: Step)
    requires Enabled(s, step) && s' == Apply(s, step)
    ensures s'.limits == s.limits
    ensures s'.globalTs == s.globalTs + if step.Begin? || step.CommitReadOnly? || step.Stamp? then 1 else 0
    ensures |s'.txns| == |s.txns| + if step.Begin? then 1 else 0
    ensures step.Begin? ==> |s.txns| + 1 < s.limits.txns
  { }

  // ---------------------------------------------------------------- which commits go through

  /** Another transaction has committed a key of `t` since `t` began. */
  ghost predicate Conflict(s: State, t: TxnId)
    requires t < |s.txns|
  {
    exists c, k :: Conflicts(s, t, c, k)
  }

  ghost predicate Conflicts(s: State, t: TxnId, c: Commit, k: Key)
    requires t < |s.txns|
  {
    c in s.log && Writes(c, k) && k in KeySet(s.txns[t].writes) && c.ts > s.txns[t].startTs
  }

  /** The newest version of a key is that of a commit. */
  lemma {:induction false} HeadIsCommit(log: seq<Commit>, k: Key) returns (c: Commit)
    requires VersionsOf(log, k) != []
    ensures c in log && Writes(c, k) && c.ts == VersionsOf(log, k)[0].commitTs
  {
    var n := |log| - 1;
    if Writes(log[n], k) {
      c := log[n];
    } else {
      c := HeadIsCommit(log[..n], k);
    }
  }

  /** A key that fails its validation has been committed since. */
  lemma FailsOnConflict(s: State, t: TxnId)
    requires Inv(s) && t < |s.txns| && s.txns[t].pc.Validating? && s.txns[t].pc.j < |s.txns[t].writes|
    requires var k := s.txns[t].writes[s.txns[t].pc.j].key;
             k < |s.chains| && s.chains[k] != [] && s.chains[k][0].commitTs > s.txns[t].startTs
    ensures Conflict(s, t)
  {
    var x := s.txns[t];
    var k := x.writes[x.pc.j].key;
    assert TxnOk(s, t);
    assert k in KeySet(x.writes) && Holds(x, k);
    SettledChain(s, k);
    var c := HeadIsCommit(s.log, k);
    assert Conflicts(s, t, c, k);
  }

  /** When all keys have passed there is no such commit. */
  lemma PassesWithout(s: State, t: TxnId)
    requires Inv(s) && Enabled(s, Stamp(t))
    ensures !Conflict(s, t)
  {
    forall c, k ensures !Conflicts(s, t, c, k) {
      if c in s.log && Writes(c, k) && k in KeySet(s.txns[t].writes) { NoneAfter(s, t, c, k); }
    }
  }

  lemma NoneAfter(s: State, t: TxnId, c: Commit, k: Key)
    requires Inv(s) && Enabled(s, Stamp(t)) && c in s.log && Writes(c, k) && k in KeySet(s.txns[t].writes)
    ensures c.ts < s.txns[t].startTs
  {
    var x := s.txns[t];
    assert TxnOk(s, t);
    var i :| 0 <= i < |x.writes| && x.writes[i].key == k;
    assert NoneSince(s.log, x.writes[i].key, x.startTs);
  }

  /** While a transaction validates, nobody commits its keys. */
  lemma ConflictStays(s: State, s': State, step: Step, t: TxnId)
    requires Inv(s) && Enabled(s, step) && s' == Apply(s, step) && t < |s.txns| && s.txns[t].pc.Validating?
    requires |s'.txns| >= |s.txns| && s'.txns[t].pc.Validating?
    ensures Conflict(s', t) <==> Conflict(s, t)
  {
    StepLog(s, s', step);
    if c, k :| Conflicts(s, t, c, k) { assert Conflicts(s', t, c, k); }
    if c, k :| Conflicts(s', t, c, k) {
      if step.Stamp? { OthersKey(s, step.t, t, k); }
      assert Conflicts(s, t, c, k);
    }
  }

  ghost predicate InLog(s: State, t: TxnId) {
    exists m :: 0 <= m < |s.log| && s.log[m].id == t
  }

  lemma StaysInLog(s: State, s': State, step: Step, t: TxnId)
    requires Inv(s) && Enabled(s, step) && s' == Apply(s, step) && (InLog(s, t) || step == Stamp(t))
    ensures InLog(s', t)
  {
    StepLog(s, s', step);
    if step == Stamp(t) {
      assert s'.log[|s.log|].id == t;
    } else {
      var m :| 0 <= m < |s.log| && s.log[m].id == t;
      assert s'.log[m].id == t;
    }
  }

  /** Where a commit stands that found a conflict, or none, when it had all its locks. */
  ghost predicate Decided(s: State, t: TxnId, conflict: bool)
    requires t < |s.txns|
  {
    (PastStamp(s.txns[t].pc) ==> InLog(s, t)) &&
    match s.txns[t].pc
    case Validating(_, _) => Conflict(s, t) == conflict
    case Installing(_, _, _) => !conflict
    case Unlocking(_, _, committed) => committed == !conflict
    case Done(committed) => committed == !conflict
    case _ => false
  }

  /** How a validating transaction goes on. */
  lemma StepValidating(s: State, s': State, step: Step, t: TxnId)
    requires Enabled(s, step) && s' == Apply(s, step) && t < |s.txns| && s.txns[t].pc.Validating?
    ensures |s'.txns| >= |s.txns|
    ensures || s'.txns[t].pc.Validating?
            || (step == Stamp(t) && s'.txns[t].pc.Installing?)
            || (step == ValidateNext(t) && s'.txns[t].pc.Unlocking? && !s'.txns[t].pc.committed
                && var k := s.txns[t].writes[s.txns[t].pc.j].key;
                   s.chains[k] != [] && s.chains[k][0].commitTs > s.txns[t].startTs)
  { }

  /** How a transaction goes on that has its timestamp, or has failed. */
  lemma StepDecided(s: State, s': State, step: Step, t: TxnId)
    requires Enabled(s, step) && s' == Apply(s, step) && t < |s.txns|
    requires s.txns[t].pc.Installing? || s.txns[t].pc.Unlocking? || s.txns[t].pc.Done?
    ensures |s'.txns| >= |s.txns| && PastStamp(s'.txns[t].pc) == PastStamp(s.txns[t].pc)
    ensures s'.txns[t].pc.Installing? || s'.txns[t].pc.Unlocking? || s'.txns[t].pc.Done?
    ensures s.txns[t].pc.Done? ==> s'.txns[t] == s.txns[t] && step != Stamp(t)
  { }

  lemma KeepDecided(s: State, s': State, step: Step, t: TxnId, conflict: bool)
    requires Inv(s) && Enabled(s, step) && s' == Apply(s, step) && t < |s.txns| && Decided(s, t, conflict)
    ensures t < |s'.txns| && Decided(s', t, conflict)
  {
    if InLog(s, t) || step == Stamp(t) { StaysInLog(s, s', step, t); }
    if s.txns[t].pc.Validating? {
      StepValidating(s, s', step, t);
      DecidedAfter(s, s', step, t, conflict);
    } else {
      StepDecided(s, s', step, t);
    }
  }

  lemma DecidedAfter(s: State, s': State, step: Step, t: TxnId, conflict: bool)
    requires Inv(s) && Enabled(s, step) && s' == Apply(s, step) && t < |s.txns| <= |s'.txns| && s.txns[t].pc.Validating?
    requires Conflict(s, t) == conflict && (step == Stamp(t) ==> InLog(s', t))
    ensures Decided(s', t, conflict)
  {
    StepValidating(s, s', step, t);
    if s'.txns[t].pc.Validating? {
      ConflictStays(s, s', step, t);
    } else if step.Stamp? {
      PassesWithout(s, t);
    } else {
      assert TxnOk(s, t) && s.txns[t].writes[s.txns[t].pc.j] in s.txns[t].writes;
      FailsOnConflict(s, t);
    }
  }

  /** The first validation step of a commit: all locks are held. */
  predicate LocksHeld(s: State, t: TxnId) {
    t < |s.txns| && s.txns[t].pc.Locking? && s.txns[t].pc.i == |s.txns[t].pc.keys|
  }

  lemma FirstValidation(s: State, s': State, t: TxnId)
    requires Inv(s) && Enabled(s, ValidateNext(t)) && s' == Apply(s, ValidateNext(t)) && LocksHeld(s, t)
    ensures t < |s'.txns| && Decided(s', t, Conflict(s, t))
  {
    if c, k :| Conflicts(s, t, c, k) { assert Conflicts(s', t, c, k); }
    if c, k :| Conflicts(s', t, c, k) { assert Conflicts(s, t, c, k); }
  }

  ghost predicate DecidedAt(ss: seq<State>, m: nat, t: TxnId, conflict: bool) {
    m < |ss| && t < |ss[m].txns| && Decided(ss[m], t, conflict)
  }

  lemma RunStepDecided(ss: seq<State>, steps: seq<Step>, m: nat, t: TxnId, conflict: bool)
    requires IsRun(ss, steps) && m < |steps| && DecidedAt(ss, m, t, conflict)
    ensures DecidedAt(ss, m + 1, t, conflict)
  {
    RunInv(ss, steps, m);
    KeepDecided(ss[m], ss[m + 1], steps[m], t, conflict);
  }

  lemma {:induction false} RunDecided(ss: seq<State>, steps: seq<Step>, i: nat, n: nat, t: TxnId, conflict: bool)
    requires IsRun(ss, steps) && i <= n < |ss| && DecidedAt(ss, i, t, conflict)
    ensures DecidedAt(ss, n, t, conflict)
    decreases n
  {
    if i < n {
      RunDecided(ss, steps, i, n - 1, t, conflict);
      RunStepDecided(ss, steps, n - 1, t, conflict);
    }
  }

  /**
   A commit that is over has gone through exactly when, at the moment it held all its locks, nobody had committed
   one of its keys since it began.
   */
  lemma CommitOutcome(ss: seq<State>, steps: seq<Step>, i: nat, n: nat, t: TxnId)
    requires IsRun(ss, steps) && i < n < |ss| && steps[i] == ValidateNext(t) && LocksHeld(ss[i], t)
    requires t < |ss[n].txns| && ss[n].txns[t].pc.Done?
    ensures ss[n].txns[t].pc.committed <==> !Conflict(ss[i], t)
    ensures ss[n].txns[t].pc.committed <==> t in Stamped(steps[..n])
  {
    RunInv(ss, steps, i);
    FirstValidation(ss[i], ss[i + 1], t);
    RunDecided(ss, steps, i + 1, n, t, Conflict(ss[i], t));
    InLogIff(ss, steps, n, t);
  }

  /** A commit stamped between steps `b` and `i` wrote a key that `t` wrote. */
  ghost predicate Overtaken(steps: seq<Step>, b: nat, i: nat, t: TxnId, m: nat, k: Key)
    requires b <= i <= |steps|
  {
    && |Stamped(steps[..b])| <= m < |Stamped(steps[..i])|
    && LastWrite(steps[..i], Stamped(steps[..i])[m], k).Some? && LastWrite(steps[..i], t, k).Some?
  }

  /** A conflict told from the steps: since `t` began, another transaction has drawn its timestamp for a key of `t`. */
  lemma ConflictIs(ss: seq<State>, steps: seq<Step>, b: nat, i: nat, t: TxnId)
    requires IsRun(ss, steps) && b < i < |ss| && steps[b].Begin? && t == |ss[b].txns| < |ss[i].txns|
    requires HasWrites(ss[i].txns[t].pc)
    ensures Conflict(ss[i], t) <==> exists m: nat, k: Key :: Overtaken(steps, b, i, t, m, k)
  {
    var s := ss[i];
    if c, k :| Conflicts(s, t, c, k) {
      var m :| 0 <= m < |s.log| && s.log[m] == c;
      ConflictAt(ss, steps, b, i, t, m, k);
      assert Overtaken(steps, b, i, t, m, k);
    }
    if m: nat, k: Key :| Overtaken(steps, b, i, t, m, k) {
      ConflictAt(ss, steps, b, i, t, m, k);
      assert Conflicts(s, t, s.log[m], k);
    }
  }

  lemma ConflictAt(ss: seq<State>, steps: seq<Step>, b: nat, i: nat, t: TxnId, m: nat, k: Key)
    requires IsRun(ss, steps) && b < i < |ss| && steps[b].Begin? && t == |ss[b].txns| < |ss[i].txns|
    requires HasWrites(ss[i].txns[t].pc)
    ensures m < |ss[i].log| ==> (Conflicts(ss[i], t, ss[i].log[m], k) <==> Overtaken(steps, b, i, t, m, k))
    ensures Overtaken(steps, b, i, t, m, k) ==> m < |ss[i].log|
  {
    LogIsStamped(ss, steps, i);
    LogIsStamped(ss, steps, b);
    RunHistory(ss, steps, i);
    LookupIff(ss[i].txns[t].writes, k);
    assert ListOk(ss[i].txns[t].writes, steps[..i], t, ss[i].limits.valueLen);
    assert Lookup(ss[i].txns[t].writes, k) == Kept(LastWrite(steps[..i], t, k), ss[i].limits.valueLen);
    if m < |ss[i].log| {
      CommitWrites(ss, steps, i, ss[i].log[m], k);
      StampedSince(ss, steps, b, i, t, m);
    }
  }

  /** The commits after the beginning of a transaction are those with a larger timestamp. */
  lemma StampedSince(ss: seq<State>, steps: seq<Step>, b: nat, i: nat, t: TxnId, m: nat)
    requires IsRun(ss, steps) && b < i < |ss| && steps[b].Begin? && t == |ss[b].txns| < |ss[i].txns| && m < |ss[i].log|
    ensures ss[i].log[m].ts > ss[i].txns[t].startTs <==> |ss[b].log| <= m
  {
    SnapshotIsLogAtBegin(ss, steps, b, i);
    RunInv(ss, steps, i);
    RunInv(ss, steps, b);
    RunLater(ss, steps, b, i);
    assert TxnOk(ss[i], t) && ss[i].log[m] in ss[i].log;
    if m < |ss[b].log| {
      assert ss[i].log[m] == ss[i].log[..|ss[b].log|][m];
      assert ss[b].log[m] in ss[b].log;
    }
  }

  /** A transaction is in the log exactly when it drew a timestamp, and then it is on its way to commit. */
  lemma InLogIff(ss: seq<State>, steps: seq<Step>, n: nat, t: TxnId)
    requires IsRun(ss, steps) && n < |ss|
    ensures InLog(ss[n], t) <==> t in Stamped(steps[..n])
    ensures InLog(ss[n], t) ==> t < |ss[n].txns| && PastStamp(ss[n].txns[t].pc)
  {
    RunInv(ss, steps, n);
    LogIsStamped(ss, steps, n);
    var ids := Stamped(steps[..n]);
    if t in ids {
      var m :| 0 <= m < |ids| && ids[m] == t;
      assert ss[n].log[m].id == t;
    }
    if m :| 0 <= m < |ss[n].log| && ss[n].log[m].id == t { assert ids[m] == t && ss[n].log[m] in ss[n].log; }
  }

  /** A transaction that is over stays as it is. */
  lemma {:induction false} DoneStays(ss: seq<State>, steps: seq<Step>, i: nat, n: nat, t: TxnId)
    requires IsRun(ss, steps) && i <= n < |ss| && t < |ss[i].txns| && ss[i].txns[t].pc.Done?
    ensures t < |ss[n].txns| && ss[n].txns[t] == ss[i].txns[t]
    decreases n
  {
    if i < n {
      DoneStays(ss, steps, i, n - 1, t);
      StepDecided(ss[n - 1], ss[n], steps[n - 1], t);
    }
  }

  /** An aborted transaction leaves nothing behind, and a read-only one commits nothing. */
  lemma AbortLeavesNothing(ss: seq<State>, steps: seq<Step>, i: nat, n: nat, t: TxnId)
    requires IsRun(ss, steps) && i < n < |ss| && (steps[i] == Abort(t) || steps[i] == CommitReadOnly(t))
    ensures t < |ss[n].txns| && ss[n].txns[t].pc == Done(steps[i].CommitReadOnly?)
    ensures t !in Stamped(steps[..n])
  {
    DoneStays(ss, steps, i + 1, n, t);
    NotStampedBefore(ss, steps, i, t);
    forall m | i + 1 <= m < n ensures steps[m] != Stamp(t) { DoneDoesNotStamp(ss, steps, i + 1, m, t); }
    StampedBetween(steps, i + 1, n, t);
  }

  lemma NotStampedBefore(ss: seq<State>, steps: seq<Step>, i: nat, t: TxnId)
    requires IsRun(ss, steps) && i < |steps| && t < |ss[i].txns| && ss[i].txns[t].pc.Running? && steps[i] != Stamp(t)
    ensures t !in Stamped(steps[..i + 1])
  {
    InLogIff(ss, steps, i, t);
    OneStep(steps, i);
  }

  lemma DoneDoesNotStamp(ss: seq<State>, steps: seq<Step>, i: nat, n: nat, t: TxnId)
    requires IsRun(ss, steps) && i <= n < |steps| && t < |ss[i].txns| && ss[i].txns[t].pc.Done?
    ensures steps[n] != Stamp(t)
  {
    DoneStays(ss, steps, i, n, t);
    StepDecided(ss[n], ss[n + 1], steps[n], t);
  }

  lemma {:induction false} StampedBetween(steps: seq<Step>, i: nat, n: nat, t: TxnId)
    requires i <= n <= |steps| && forall m :: i <= m < n ==> steps[m] != Stamp(t)
    ensures t in Stamped(steps[..n]) <==> t in Stamped(steps[..i])
    decreases n
  {
    if i < n {
      StampedBetween(steps, i, n - 1, t);
      OneStep(steps, n - 1);
    }
  }
}
