/**
 What the multi-version store promises over whole runs: snapshot reads, first committer wins,
 no lost update, and freedom from deadlock on the key locks.
 */
module SnapshotIsolation {
  import opened Mvcc
  import opened Options

  // ---------------------------------------------------------------- how a run grows

  /** `b` comes after `a` in some run. */
  ghost predicate Later(a: State, b: State) {
    && a.globalTs <= b.globalTs
    && |a.txns| <= |b.txns|
    && (forall t :: 0 <= t < |a.txns| ==> a.txns[t].startTs == b.txns[t].startTs)
    && |a.log| <= |b.log|
    && b.log[..|a.log|] == a.log
    && (forall i :: |a.log| <= i < |b.log| ==> a.globalTs <= b.log[i].ts)
  }

  lemma StepLater(s: State, step: Step)
    requires Inv(s) && Enabled(s, step)
    ensures Later(s, Apply(s, step))
  { }

  lemma LaterTrans(a: State, b: State, c: State)
    requires Later(a, b) && Later(b, c)
    ensures Later(a, c)
  {
    assert c.log[..|a.log|] == b.log[..|a.log|];
    forall i | |a.log| <= i < |c.log| ensures a.globalTs <= c.log[i].ts {
      if i < |b.log| { assert c.log[i] == c.log[..|b.log|][i]; }
    }
  }

  lemma RunStepLater(ss: seq<State>, steps: seq<Step>, i: nat)
    requires IsRun(ss, steps) && i < |steps|
    ensures Later(ss[i], ss[i + 1])
  {
    RunInv(ss, steps, i);
    StepLater(ss[i], steps[i]);
  }

  lemma {:induction false} ChainLater(ss: seq<State>, i: nat, j: nat)
    requires i <= j < |ss| && forall m :: i < m <= j ==> Later(ss[m - 1], ss[m])
    ensures Later(ss[i], ss[j])
    decreases j
  {
    if i < j {
      ChainLater(ss, i, j - 1);
      LaterTrans(ss[i], ss[j - 1], ss[j]);
    }
  }

  lemma RunLater(ss: seq<State>, steps: seq<Step>, i: nat, j: nat)
    requires IsRun(ss, steps) && i <= j < |ss|
    ensures Later(ss[i], ss[j])
  {
    forall m | i < m <= j ensures Later(ss[m - 1], ss[m]) { RunStepLater(ss, steps, m - 1); }
    ChainLater(ss, i, j);
  }

  // ---------------------------------------------------------------- snapshot reads

  /** Walking the chain of a key is reading the log as of a timestamp. */
  lemma {:induction false} ReadVersions(log: seq<Commit>, k: Key, ts: nat)
    requires forall i, j :: 0 <= i < j < |log| ==> log[i].ts < log[j].ts
    ensures ReadChain(VersionsOf(log, k), ts) == Latest(UpTo(log, ts), k)
  {
    if log != [] {
      var front := log[..|log| - 1];
      var c := log[|log| - 1];
      ReadVersions(front, k, ts);
      if c.ts > ts {
        assert VersionsOf(log, k) == VersionsOf(front, k) || VersionsOf(log, k)[1..] == VersionsOf(front, k);
      } else {
        assert c.ts <= ts;
        UpToAll(front, ts);
      }
    }
  }

  lemma UpToAll(log: seq<Commit>, ts: nat)
    requires forall c :: c in log ==> c.ts <= ts
    ensures UpTo(log, ts) == log
  { }

  /** Commits after the snapshot do not change what the snapshot is. */
  lemma {:induction false} UpToPrefix(log: seq<Commit>, n: nat, ts: nat)
    requires n <= |log|
    requires forall i :: 0 <= i < n ==> log[i].ts <= ts
    requires forall i :: n <= i < |log| ==> ts < log[i].ts
    ensures UpTo(log, ts) == log[..n]
  {
    if n < |log| {
      UpToPrefix(log[..|log| - 1], n, ts);
      assert log[..|log| - 1][..n] == log[..n];
    } else {
      assert log[..n] == log;
      UpToAll(log, ts);
    }
  }

  /** A read of a key the transaction has not written shows the newest commit up to its start. */
  lemma ReadShowsLog(s: State, t: TxnId, k: Key)
    requires Inv(s) && Enabled(s, Read(t, k)) && Lookup(s.txns[t].writes, k).None?
    ensures ReadResult(s, t, k) == Latest(UpTo(s.log, s.txns[t].startTs), k)
  {
    SettledChain(s, k);
    ReadVersions(s.log, k, s.txns[t].startTs);
  }

  lemma SnapshotIsLogAtBegin(ss: seq<State>, steps: seq<Step>, i: nat, j: nat)
    requires IsRun(ss, steps) && i < |steps| && steps[i].Begin? && i < j < |ss|
    ensures |ss[i].txns| < |ss[j].txns|
    ensures ss[j].txns[|ss[i].txns|].startTs == ss[i].globalTs
    ensures UpTo(ss[j].log, ss[i].globalTs) == ss[i].log
  {
    RunInv(ss, steps, i);
    RunLater(ss, steps, i, i + 1);
    RunLater(ss, steps, i + 1, j);
    var t := |ss[i].txns|;
    assert ss[i + 1].txns[t].startTs == ss[i].globalTs;
    var n := |ss[i].log|;
    assert ss[i + 1].log == ss[i].log;
    forall m | 0 <= m < n ensures ss[j].log[m].ts <= ss[i].globalTs {
      assert ss[j].log[m] == ss[j].log[..n][m];
      assert ss[i].log[m] in ss[i].log;
    }
    UpToPrefix(ss[j].log, n, ss[i].globalTs);
  }

  /**
   In every run, whatever commits are half installed in between, a transaction begun at step `i`
   reads at step `j` what the last commit before its begin left.
   */
  lemma SnapshotRead(ss: seq<State>, steps: seq<Step>, i: nat, j: nat, k: Key)
    requires IsRun(ss, steps) && i < j < |steps| && steps[i].Begin?
    requires steps[j] == Read(|ss[i].txns|, k)
    requires Lookup(ss[j].txns[|ss[i].txns|].writes, k).None?
    ensures ReadResult(ss[j], |ss[i].txns|, k) == Latest(ss[i].log, k)
  {
    RunInv(ss, steps, j);
    SnapshotIsLogAtBegin(ss, steps, i, j);
    ReadShowsLog(ss[j], |ss[i].txns|, k);
  }

  /** Two reads of one key by one transaction agree, however far apart. */
  lemma RepeatableRead(ss: seq<State>, steps: seq<Step>, j: nat, m: nat, t: TxnId, k: Key)
    requires IsRun(ss, steps) && j <= m < |steps|
    requires steps[j] == Read(t, k) && steps[m] == Read(t, k)
    requires Lookup(ss[j].txns[t].writes, k).None? && Lookup(ss[m].txns[t].writes, k).None?
    ensures ReadResult(ss[j], t, k) == ReadResult(ss[m], t, k)
  {
    var i := BeginOf(ss, steps, t, j);
    SnapshotRead(ss, steps, i, j, k);
    SnapshotRead(ss, steps, i, m, k);
  }

  /** Every transaction of a run was begun by one of its steps. */
  lemma {:induction false} BeginOf(ss: seq<State>, steps: seq<Step>, t: TxnId, j: nat) returns (i: nat)
    requires IsRun(ss, steps) && j < |ss| && t < |ss[j].txns|
    ensures i < j && steps[i].Begin? && |ss[i].txns| == t
    decreases j
  {
    if t < |ss[j - 1].txns| {
      i := BeginOf(ss, steps, t, j - 1);
    } else {
      i := j - 1;
    }
  }

  /**
   All reads of a transaction are served from one prefix of the commit order: a commit is seen on
   all of its keys or on none.
   */
  lemma AllOrNothing(ss: seq<State>, steps: seq<Step>, t: TxnId)
    requires IsRun(ss, steps) && t < |ss[|steps|].txns|
    ensures exists n: nat :: n <= |ss[|steps|].log| && ReadsFromPrefix(ss, steps, t, n)
  {
    var last := |steps|;
    var i := BeginOf(ss, steps, t, last);
    var n := |ss[i].log|;
    RunLater(ss, steps, i, last);
    forall j, k | 0 <= j < |steps| && steps[j] == Read(t, k) && Lookup(ss[j].txns[t].writes, k).None?
      ensures ReadResult(ss[j], t, k) == Latest(ss[last].log[..n], k)
    {
      if j <= i { RunLater(ss, steps, j, i); }
      SnapshotRead(ss, steps, i, j, k);
    }
    assert ReadsFromPrefix(ss, steps, t, n);
  }

  ghost predicate ReadsFromPrefix(ss: seq<State>, steps: seq<Step>, t: TxnId, n: nat)
    requires IsRun(ss, steps) && n <= |ss[|steps|].log|
  {
    forall j, k :: 0 <= j < |steps| && steps[j] == Read(t, k) && Lookup(ss[j].txns[t].writes, k).None?
      ==> ReadResult(ss[j], t, k) == Latest(ss[|steps|].log[..n], k)
  }

  // ---------------------------------------------------------------- first committer wins

  /**
   In every state of every run, two commits that share a key belong to different transactions and
   their intervals from start to commit do not meet.
   */
  lemma FirstCommitterWins(ss: seq<State>, steps: seq<Step>, n: nat, p: nat, q: nat, k: Key)
    requires IsRun(ss, steps) && n < |ss| && p < q < |ss[n].log|
    requires Writes(ss[n].log[p], k) && Writes(ss[n].log[q], k)
    ensures var a, b := ss[n].log[p], ss[n].log[q];
            a.id != b.id && a.startTs < a.ts < b.startTs < b.ts
  {
    RunInv(ss, steps, n);
    assert ss[n].log[p] in ss[n].log && ss[n].log[q] in ss[n].log;
  }

  lemma {:induction false} VersionsDescend(log: seq<Commit>, globalTs: nat, k: Key)
    requires LogOk(log, globalTs)
    ensures forall i, j :: 0 <= i < j < |VersionsOf(log, k)| ==>
              VersionsOf(log, k)[i].commitTs > VersionsOf(log, k)[j].commitTs
    ensures forall v :: v in VersionsOf(log, k) ==> exists c :: c in log && c.ts == v.commitTs
  {
    if log != [] {
      var front := log[..|log| - 1];
      assert LogOk(front, globalTs);
      VersionsDescend(front, globalTs, k);
      var c := log[|log| - 1];
      assert c in log;
      forall d | d in front ensures d in log && d.ts < c.ts {
        var i :| 0 <= i < |front| && front[i] == d;
        assert log[i] == d;
      }
    }
  }

  /** Every version chain is strictly descending in commit timestamp and below the clock. */
  lemma ChainsDescend(ss: seq<State>, steps: seq<Step>, n: nat, k: Key)
    requires IsRun(ss, steps) && n < |ss| && k < ss[n].limits.keys
    ensures |ss[n].chains| == ss[n].limits.keys
    ensures var chain := ss[n].chains[k];
            && (forall i, j :: 0 <= i < j < |chain| ==> chain[i].commitTs > chain[j].commitTs)
            && (forall v :: v in chain ==> v.commitTs < ss[n].globalTs)
  {
    RunInv(ss, steps, n);
    var s := ss[n];
    assert ChainOk(s, k);
    VersionsDescend(s.log, s.globalTs, k);
    forall v | v in s.chains[k] ensures v.commitTs < s.globalTs {
      assert v in VersionsOf(s.log, k);
    }
  }

  /**
   No lost update: what a commit overwrites on a key is exactly what its own snapshot shows
   there, so nobody wrote the key between its start and its commit.
   */
  lemma NoLostUpdate(ss: seq<State>, steps: seq<Step>, n: nat, p: nat, k: Key)
    requires IsRun(ss, steps) && n < |ss| && p < |ss[n].log| && Writes(ss[n].log[p], k)
    ensures Latest(ss[n].log[..p], k) == Latest(UpTo(ss[n].log, ss[n].log[p].startTs), k)
  {
    RunInv(ss, steps, n);
    var log := ss[n].log;
    var c := log[p];
    assert c in log;
    LatestSkips(log, p, c.startTs, k);
    DropLater(log, p, c.startTs);
  }

  /** Commits after `ts` that do not touch `k` do not change its latest value. */
  lemma {:induction false} LatestSkips(log: seq<Commit>, p: nat, ts: nat, k: Key)
    requires p <= |log|
    requires forall i :: 0 <= i < p && Writes(log[i], k) ==> log[i].ts <= ts
    ensures Latest(log[..p], k) == Latest(UpTo(log[..p], ts), k)
  {
    if p > 0 {
      assert log[..p][..p - 1] == log[..p - 1];
      if log[p - 1].ts > ts { LatestSkips(log, p - 1, ts, k); }
    }
  }

  lemma {:induction false} DropLater(log: seq<Commit>, p: nat, ts: nat)
    requires p <= |log|
    requires forall i :: p <= i < |log| ==> ts < log[i].ts
    ensures UpTo(log, ts) == UpTo(log[..p], ts)
  {
    if p < |log| {
      DropLater(log[..|log| - 1], p, ts);
      assert log[..|log| - 1][..p] == log[..p];
    } else {
      assert log[..p] == log;
    }
  }

  lemma {:induction false} VersionOfCommit(log: seq<Commit>, c: Commit, k: Key)
    requires c in log && Writes(c, k)
    ensures Version(Lookup(c.writes, k).value, c.ts) in VersionsOf(log, k)
  {
    var front := log[..|log| - 1];
    if log[|log| - 1] != c {
      assert log == front + [log[|log| - 1]];
      VersionOfCommit(front, c, k);
    }
  }

  /** A `txn_commit` about to report success has its version on the chain of each key it locked. */
  lemma CommitInstalled(ss: seq<State>, steps: seq<Step>, n: nat, t: TxnId, k: Key)
    requires IsRun(ss, steps) && n < |steps| && steps[n] == Finish(t)
    requires ss[n].txns[t].pc.committed && k in ss[n].txns[t].pc.keys
    ensures k < |ss[n].chains|
    ensures exists c :: c in ss[n].log && c.id == t && Writes(c, k)
                        && Version(Lookup(c.writes, k).value, c.ts) in ss[n].chains[k]
  {
    RunInv(ss, steps, n);
    var s := ss[n];
    var x := s.txns[t];
    assert TxnOk(s, t) && ChainOk(s, k);
    var c :| c in s.log && CommitOf(c, t, x.startTs, x.pc.keys);
    LookupIff(c.writes, k);
    assert k in KeySet(c.writes);
    OnChain(s, c, k, t);
  }

  /** A commit whose transaction is through with installing is on the chains. */
  lemma OnChain(s: State, c: Commit, k: Key, t: TxnId)
    requires Inv(s) && k < s.limits.keys && ChainOk(s, k) && c in s.log && Writes(c, k) && c.id == t < |s.txns|
             && s.txns[t].pc.Unlocking?
    ensures Version(Lookup(c.writes, k).value, c.ts) in s.chains[k]
  {
    VersionOfCommit(s.log, c, k);
    if u :| 0 <= u < |s.txns| && Pending(s.txns[u], k) {
      assert TxnOk(s, u);
      var d := Commit(u, s.txns[u].startTs, s.txns[u].pc.ts, s.txns[u].writes);
      assert d in s.log && c.ts != d.ts;
    }
  }

  // ---------------------------------------------------------------- no deadlock on key locks

  /** `t` is blocked on a key lock that `u` holds. */
  ghost predicate WaitsFor(s: State, t: TxnId, u: TxnId) {
    && Shaped(s) && t < |s.txns|
    && s.txns[t].pc.Locking?
    && var pc := s.txns[t].pc;
       pc.i < |pc.keys| && pc.keys[pc.i] < s.limits.keys && s.locks[pc.keys[pc.i]] == Some(u)
  }

  /** The key whose lock `t` asks for next, if it is in its locking loop. */
  ghost function WaitKey(s: State, t: TxnId): Key {
    if t < |s.txns| && s.txns[t].pc.Locking? && s.txns[t].pc.i < |s.txns[t].pc.keys|
    then s.txns[t].pc.keys[s.txns[t].pc.i] else 0
  }

  /** Whoever blocks another and is itself blocked waits for a larger key. */
  lemma WaitsUpward(s: State, t: TxnId, u: TxnId, v: TxnId)
    requires Inv(s) && WaitsFor(s, t, u) && WaitsFor(s, u, v)
    ensures WaitKey(s, t) < WaitKey(s, u)
  {
    var k := WaitKey(s, t);
    assert Holds(s.txns[u], k) && TxnOk(s, u);
    var keys, i := s.txns[u].pc.keys, s.txns[u].pc.i;
    var m :| 0 <= m < i && keys[m] == k;
  }

  lemma {:induction false} ChainUpward(s: State, ts: seq<TxnId>, n: nat)
    requires Inv(s) && 0 < n && n + 1 < |ts|
    requires forall i :: 0 <= i < |ts| - 1 ==> WaitsFor(s, ts[i], ts[i + 1])
    ensures WaitKey(s, ts[0]) < WaitKey(s, ts[n])
  {
    WaitsUpward(s, ts[n - 1], ts[n], ts[n + 1]);
    if n > 1 { ChainUpward(s, ts, n - 1); }
  }

  /** No reachable state has transactions waiting in a ring for key locks, of any length. */
  lemma NoCyclicWait(ss: seq<State>, steps: seq<Step>, n: nat, ts: seq<TxnId>)
    requires IsRun(ss, steps) && n < |ss| && |ts| >= 2
    requires forall i :: 0 <= i < |ts| - 1 ==> WaitsFor(ss[n], ts[i], ts[i + 1])
    ensures ts[0] != ts[|ts| - 1]
  {
    RunInv(ss, steps, n);
    var s := ss[n];
    if ts[0] == ts[|ts| - 1] {
      var around := ts + [ts[1]];
      forall i | 0 <= i < |around| - 1 ensures WaitsFor(s, around[i], around[i + 1]) {
        if i == |ts| - 1 { assert WaitsFor(s, ts[0], ts[1]); } else { assert WaitsFor(s, ts[i], ts[i + 1]); }
      }
      ChainUpward(s, around, |ts| - 1);
    }
  }

  ghost predicate InCommit(pc: Pc) {
    !pc.Running? && !pc.Done?
  }

  ghost predicate CommitStep(step: Step) {
    step.LockNext? || step.ValidateNext? || step.Stamp? || step.InstallNext? || step.DropWrites? || step.UnlockNext?
    || step.Finish?
  }

  /** From any commit in progress, following the waits leads to one that can move. */
  lemma {:induction false} SomeMove(s: State, t: TxnId) returns (step: Step)
    requires Inv(s) && t < |s.txns| && InCommit(s.txns[t].pc)
    ensures CommitStep(step) && Enabled(s, step)
    decreases if s.txns[t].pc.Locking? && s.txns[t].pc.i < |s.txns[t].pc.keys| then s.limits.keys - WaitKey(s, t)
              else -1
  {
    var x := s.txns[t];
    assert TxnOk(s, t);
    match x.pc
    case Locking(keys, i) =>
      if i == |keys| {
        step := ValidateNext(t);
      } else {
        KeysInRange(s, t, keys);
        var k := keys[i];
        assert k in keys;
        if s.locks[k].None? {
          step := LockNext(t);
        } else {
          var u := s.locks[k].value;
          assert Holds(s.txns[u], k) && TxnOk(s, u);
          var y := s.txns[u];
          if y.pc.Locking? && y.pc.i < |y.pc.keys| {
            KeysInRange(s, u, y.pc.keys);
            var m :| 0 <= m < y.pc.i && y.pc.keys[m] == k;
          }
          step := SomeMove(s, u);
        }
      }
    case Validating(_, j) =>
      if j == |x.writes| { step := Stamp(t); } else { assert x.writes[j] in x.writes; step := ValidateNext(t); }
    case Installing(_, _, j) =>
      if j == |x.writes| { step := DropWrites(t); } else { assert x.writes[j] in x.writes; step := InstallNext(t); }
    case Unlocking(keys, i, _) =>
      if i == |keys| { step := Finish(t); } else { assert keys[i] in keys; step := UnlockNext(t); }
  }

  /** While any commit is in progress, some commit can take its next step. */
  lemma NeverStuck(ss: seq<State>, steps: seq<Step>, n: nat, t: TxnId)
    requires IsRun(ss, steps) && n < |ss| && t < |ss[n].txns| && InCommit(ss[n].txns[t].pc)
    ensures exists step :: CommitStep(step) && Enabled(ss[n], step)
  {
    RunInv(ss, steps, n);
    var step := SomeMove(ss[n], t);
  }
}
