/**
 The in-memory key-value store with multi-version concurrency control: snapshot reads,
 sorted lock acquisition and first-committer-wins validation.

 Every critical section of the program is one step; the steps of any number of transactions
 interleave freely.  A commit is many steps: one per lock taken, per key validated, per version
 installed and per lock released.

 `State.log` is a history variable: a commit is appended when its timestamp is drawn.  No step
 reads it.
 */
module Mvcc {
  import opened Options

  type Key = nat    // index into the store
  type TxnId = nat  // position in the transaction table
  type Value = string

  datatype Version = Version(value: Value, commitTs: nat)
  datatype Write = Write(key: Key, value: Value)

  /** Where the thread that drives a transaction stands. */
  datatype Pc =
    | Running                                             // between calls
    | Locking(keys: seq<Key>, i: nat)                     // holds keys[..i]
    | Validating(keys: seq<Key>, j: nat)                  // writes[..j] are free of conflict
    | Installing(keys: seq<Key>, ts: nat, j: nat)         // writes[..j] are installed
    | Unlocking(keys: seq<Key>, i: nat, committed: bool)  // still holds keys[i..]
    | Done(committed: bool)                               // status is no longer active

  datatype Txn = Txn(startTs: nat, writes: seq<Write>, pc: Pc)
  datatype Commit = Commit(id: TxnId, startTs: nat, ts: nat, writes: seq<Write>)
  datatype Limits = Limits(keys: nat, txns: nat, valueLen: nat)

  datatype State = State(
    limits: Limits,
    globalTs: nat,
    chains: seq<seq<Version>>,   // newest version first
    locks: seq<Option<TxnId>>,
    txns: seq<Txn>,
    log: seq<Commit>)            // history only

  // ---------------------------------------------------------------- pieces of the operations

  /** The entry `find_local_write` returns: the first one for `k`. */
  function Lookup(ws: seq<Write>, k: Key): Option<Value> {
    if ws == [] then None
    else if ws[0].key == k then Some(ws[0].value)
    else Lookup(ws[1..], k)
  }

  /** `txn_write` on the write list: overwrite in place, or push in front. */
  function PutLocal(ws: seq<Write>, k: Key, v: Value): seq<Write> {
    if Lookup(ws, k).Some? then Overwrite(ws, k, v) else [Write(k, v)] + ws
  }

  function Overwrite(ws: seq<Write>, k: Key, v: Value): seq<Write> {
    if ws == [] then []
    else if ws[0].key == k then [Write(k, v)] + ws[1..]
    else [ws[0]] + Overwrite(ws[1..], k, v)
  }

  /** The walk of `txn_read` down a version chain; a missing version reads as the empty string. */
  function ReadChain(chain: seq<Version>, ts: nat): Value {
    if chain == [] then ""
    else if chain[0].commitTs > ts then ReadChain(chain[1..], ts)
    else chain[0].value
  }

  /** Values are copied into a fixed buffer with a terminating zero. */
  function Clip(v: Value, valueLen: nat): Value {
    if |v| < valueLen then v else if valueLen == 0 then "" else v[..valueLen - 1]
  }

  ghost predicate Ascending(keys: seq<Key>) {
    forall i, j :: 0 <= i < j < |keys| ==> keys[i] < keys[j]
  }

  ghost function Elements(s: seq<Key>): set<Key> {
    set k | k in s
  }

  ghost function KeySet(ws: seq<Write>): set<Key> {
    set i | 0 <= i < |ws| :: ws[i].key
  }

  /** What `lock_write_keys_sorted` hands to the locking loop. */
  ghost predicate SortedKeysOf(keys: seq<Key>, ws: seq<Write>) {
    Ascending(keys) && Elements(keys) == KeySet(ws)
  }

  // ---------------------------------------------------------------- steps

  datatype Step =
    | Begin
    | Read(t: TxnId, k: Key)
    | WriteLocal(t: TxnId, k: Key, v: Value)
    | Abort(t: TxnId)
    | CommitReadOnly(t: TxnId)
    | StartCommit(t: TxnId, keys: seq<Key>)
    | LockNext(t: TxnId)
    | ValidateNext(t: TxnId)
    | Stamp(t: TxnId)
    | InstallNext(t: TxnId)
    | DropWrites(t: TxnId)
    | UnlockNext(t: TxnId)
    | Finish(t: TxnId)

  function Init(limits: Limits): State {
    State(limits, 1, seq(limits.keys, _ => []), seq(limits.keys, _ => None), [], [])
  }

  ghost predicate Shaped(s: State) {
    |s.chains| == |s.locks| == s.limits.keys
  }

  /** The guard of each step: the branch taken, and for a lock that the mutex is free. */
  ghost predicate Enabled(s: State, step: Step) {
    Shaped(s) &&
    match step
    case Begin => |s.txns| + 1 < s.limits.txns
    case Read(t, k) => t < |s.txns| && k < s.limits.keys && s.txns[t].pc.Running?
                       && (Lookup(s.txns[t].writes, k).Some? || s.locks[k].None?)
    case WriteLocal(t, k, v) => t < |s.txns| && k < s.limits.keys && s.txns[t].pc.Running?
    case Abort(t) => t < |s.txns| && s.txns[t].pc.Running?
    case CommitReadOnly(t) => t < |s.txns| && s.txns[t].pc.Running? && s.txns[t].writes == []
    case StartCommit(t, keys) => t < |s.txns| && s.txns[t].pc.Running? && s.txns[t].writes != []
                                 && SortedKeysOf(keys, s.txns[t].writes)
    case LockNext(t) => t < |s.txns| && s.txns[t].pc.Locking?
                        && var pc := s.txns[t].pc;
                           pc.i < |pc.keys| && pc.keys[pc.i] < s.limits.keys && s.locks[pc.keys[pc.i]].None?
    case ValidateNext(t) => t < |s.txns|
                            && var x := s.txns[t];
                               (x.pc.Locking? && x.pc.i == |x.pc.keys|)
                               || (x.pc.Validating? && x.pc.j < |x.writes| && x.writes[x.pc.j].key < s.limits.keys)
    case Stamp(t) => t < |s.txns| && s.txns[t].pc.Validating? && s.txns[t].pc.j == |s.txns[t].writes|
    case InstallNext(t) => t < |s.txns| && s.txns[t].pc.Installing?
                           && var x := s.txns[t]; x.pc.j < |x.writes| && x.writes[x.pc.j].key < s.limits.keys
    case DropWrites(t) => t < |s.txns| && s.txns[t].pc.Installing? && s.txns[t].pc.j == |s.txns[t].writes|
    case UnlockNext(t) => t < |s.txns| && s.txns[t].pc.Unlocking?
                          && var pc := s.txns[t].pc; pc.i < |pc.keys| && pc.keys[pc.i] < s.limits.keys
    case Finish(t) => t < |s.txns| && s.txns[t].pc.Unlocking? && s.txns[t].pc.i == |s.txns[t].pc.keys|
  }

  ghost function WithTxn(s: State, t: TxnId, x: Txn): State
    requires t < |s.txns|
  {
    s.(txns := s.txns[t := x])
  }

  ghost function Apply(s: State, step: Step): State
    requires Enabled(s, step)
  {
    match step
    case Begin =>
      s.(globalTs := s.globalTs + 1, txns := s.txns + [Txn(s.globalTs, [], Running)])
    case Read(t, k) => s
    case WriteLocal(t, k, v) =>
      var x := s.txns[t];
      WithTxn(s, t, x.(writes := PutLocal(x.writes, k, Clip(v, s.limits.valueLen))))
    case Abort(t) => WithTxn(s, t, s.txns[t].(writes := [], pc := Done(false)))
    case CommitReadOnly(t) =>
      WithTxn(s.(globalTs := s.globalTs + 1), t, s.txns[t].(pc := Done(true)))
    case StartCommit(t, keys) => WithTxn(s, t, s.txns[t].(pc := Locking(keys, 0)))
    case LockNext(t) =>
      var pc := s.txns[t].pc;
      WithTxn(s.(locks := s.locks[pc.keys[pc.i] := Some(t)]), t, s.txns[t].(pc := Locking(pc.keys, pc.i + 1)))
    case ValidateNext(t) =>
      var x := s.txns[t];
      if x.pc.Locking? then WithTxn(s, t, x.(pc := Validating(x.pc.keys, 0)))
      else
        var chain := s.chains[x.writes[x.pc.j].key];
        if chain != [] && chain[0].commitTs > x.startTs
        then WithTxn(s, t, x.(pc := Unlocking(x.pc.keys, 0, false)))
        else WithTxn(s, t, x.(pc := Validating(x.pc.keys, x.pc.j + 1)))
    case Stamp(t) =>
      var x := s.txns[t];
      WithTxn(s.(globalTs := s.globalTs + 1, log := s.log + [Commit(t, x.startTs, s.globalTs, x.writes)]),
              t, x.(pc := Installing(x.pc.keys, s.globalTs, 0)))
    case InstallNext(t) =>
      var x := s.txns[t];
      var w := x.writes[x.pc.j];
      WithTxn(s.(chains := s.chains[w.key := [Version(w.value, x.pc.ts)] + s.chains[w.key]]),
              t, x.(pc := Installing(x.pc.keys, x.pc.ts, x.pc.j + 1)))
    case DropWrites(t) =>
      WithTxn(s, t, s.txns[t].(writes := [], pc := Unlocking(s.txns[t].pc.keys, 0, true)))
    case UnlockNext(t) =>
      var pc := s.txns[t].pc;
      WithTxn(s.(locks := s.locks[pc.keys[pc.i] := None]), t,
              s.txns[t].(pc := Unlocking(pc.keys, pc.i + 1, pc.committed)))
    case Finish(t) =>
      WithTxn(s, t, s.txns[t].(writes := [], pc := Done(s.txns[t].pc.committed)))
  }

  /** What `txn_read` returns. */
  ghost function ReadResult(s: State, t: TxnId, k: Key): Value
    requires Enabled(s, Read(t, k))
  {
    var own := Lookup(s.txns[t].writes, k);
    if own.Some? then own.value else ReadChain(s.chains[k], s.txns[t].startTs)
  }

  /** A run: the states passed through and the steps taken between them. */
  ghost predicate IsRun(ss: seq<State>, steps: seq<Step>) {
    && |ss| == |steps| + 1
    && ss[0] == Init(ss[0].limits)
    && forall i :: 0 <= i < |steps| ==> Enabled(ss[i], steps[i]) && ss[i + 1] == Apply(ss[i], steps[i])
  }

  // ---------------------------------------------------------------- the reference: the log

  /** All versions of `k` the log describes, newest first. */
  ghost function VersionsOf(log: seq<Commit>, k: Key): seq<Version> {
    if log == [] then []
    else
      var c := log[|log| - 1];
      var rest := VersionsOf(log[..|log| - 1], k);
      match Lookup(c.writes, k)
      case None => rest
      case Some(v) => [Version(v, c.ts)] + rest
  }

  /** The value the last commit to `k` in the log gave it. */
  ghost function Latest(log: seq<Commit>, k: Key): Value {
    if log == [] then ""
    else
      var c := log[|log| - 1];
      match Lookup(c.writes, k)
      case None => Latest(log[..|log| - 1], k)
      case Some(v) => v
  }

  /** The commits with timestamp at most `ts`; the log is in timestamp order. */
  ghost function UpTo(log: seq<Commit>, ts: nat): seq<Commit> {
    if log == [] then []
    else if log[|log| - 1].ts > ts then UpTo(log[..|log| - 1], ts)
    else log
  }

  ghost predicate Writes(c: Commit, k: Key) {
    Lookup(c.writes, k).Some?
  }

  // ---------------------------------------------------------------- invariant

  ghost predicate DistinctKeys(ws: seq<Write>) {
    forall i, j :: 0 <= i < j < |ws| ==> ws[i].key != ws[j].key
  }

  ghost predicate Holds(x: Txn, k: Key) {
    match x.pc
    case Locking(keys, i) => i <= |keys| && k in keys[..i]
    case Validating(keys, _) => k in keys
    case Installing(keys, _, _) => k in keys
    case Unlocking(keys, i, _) => i <= |keys| && k in keys[i..]
    case _ => false
  }

  /** `k` has a drawn commit timestamp whose version is not yet in the chain. */
  ghost predicate Pending(x: Txn, k: Key) {
    x.pc.Installing? && x.pc.j <= |x.writes| && Lookup(x.writes[x.pc.j..], k).Some?
  }

  /** No commit after `ts` touches `k`. */
  ghost predicate NoneSince(log: seq<Commit>, k: Key, ts: nat) {
    forall c :: c in log && Writes(c, k) ==> c.ts < ts
  }

  ghost predicate CommitOf(c: Commit, t: TxnId, startTs: nat, keys: seq<Key>) {
    c.id == t && c.startTs == startTs && SortedKeysOf(keys, c.writes)
  }

  /** The writes are the newest versions of their keys, all stamped `ts`. */
  ghost predicate NewestIn(log: seq<Commit>, ws: seq<Write>, ts: nat) {
    forall k :: Lookup(ws, k).Some? ==>
      VersionsOf(log, k) != [] && VersionsOf(log, k)[0] == Version(Lookup(ws, k).value, ts)
  }

  ghost predicate TxnOk(s: State, t: TxnId)
    requires t < |s.txns|
  {
    var x := s.txns[t];
    && x.startTs < s.globalTs
    && DistinctKeys(x.writes)
    && (forall w :: w in x.writes ==> w.key < s.limits.keys)
    && (forall c :: c in s.log ==> c.ts != x.startTs)
    && match x.pc
       case Running => true
       case Locking(keys, i) => i <= |keys| && SortedKeysOf(keys, x.writes)
       case Validating(keys, j) =>
         && j <= |x.writes| && SortedKeysOf(keys, x.writes)
         && forall i :: 0 <= i < j ==> NoneSince(s.log, x.writes[i].key, x.startTs)
       case Installing(keys, ts, j) =>
         && j <= |x.writes| && SortedKeysOf(keys, x.writes)
         && Commit(t, x.startTs, ts, x.writes) in s.log
         && NewestIn(s.log, x.writes[j..], ts)
       case Unlocking(keys, i, committed) =>
         && i <= |keys| && Ascending(keys) && (forall k :: k in keys ==> k < s.limits.keys)
         && (committed ==> exists c :: c in s.log && CommitOf(c, t, x.startTs, keys))
       case Done(_) => x.writes == []
  }

  ghost predicate TxnsOk(s: State) {
    forall t :: 0 <= t < |s.txns| ==> TxnOk(s, t)
  }

  /** A key lock is held exactly by the transaction whose program counter says so. */
  ghost predicate LocksOk(s: State)
    requires Shaped(s)
  {
    && (forall k, t :: 0 <= k < s.limits.keys && s.locks[k] == Some(t) ==> t < |s.txns| && Holds(s.txns[t], k))
    && (forall k, t :: 0 <= t < |s.txns| && 0 <= k < s.limits.keys && Holds(s.txns[t], k) ==> s.locks[k] == Some(t))
  }

  /** A chain shows all the log says about its key, but for one version being installed. */
  ghost predicate ChainOk(s: State, k: Key)
    requires Shaped(s) && k < s.limits.keys
  {
    if exists t :: 0 <= t < |s.txns| && Pending(s.txns[t], k)
    then VersionsOf(s.log, k) != [] && s.chains[k] == VersionsOf(s.log, k)[1..]
    else s.chains[k] == VersionsOf(s.log, k)
  }

  ghost predicate ChainsOk(s: State)
    requires Shaped(s)
  {
    forall k :: 0 <= k < s.limits.keys ==> ChainOk(s, k)
  }

  /** Timestamp order, and first committer wins. */
  ghost predicate LogOk(log: seq<Commit>, globalTs: nat) {
    && (forall c :: c in log ==> c.startTs < c.ts < globalTs)
    && (forall i, j :: 0 <= i < j < |log| ==> log[i].ts < log[j].ts)
    && (forall i, j, k :: 0 <= i < j < |log| && Writes(log[i], k) && Writes(log[j], k) ==> log[i].ts < log[j].startTs)
  }

  /** Each commit in the log belongs to its own transaction, which goes on to commit. */
  ghost predicate CommittersOk(s: State) {
    && (forall c :: c in s.log ==> c.id < |s.txns| && c.startTs == s.txns[c.id].startTs && PastStamp(s.txns[c.id].pc))
    && (forall i, j :: 0 <= i < j < |s.log| ==> s.log[i].id != s.log[j].id)
  }

  ghost predicate PastStamp(pc: Pc) {
    pc.Installing? || ((pc.Unlocking? || pc.Done?) && pc.committed)
  }

  ghost predicate Inv(s: State) {
    Shaped(s) && CommittersOk(s) && TxnsOk(s) && LocksOk(s) && ChainsOk(s) && LogOk(s.log, s.globalTs)
  }

  // ---------------------------------------------------------------- write lists

  lemma {:induction false} LookupIff(ws: seq<Write>, k: Key)
    ensures Lookup(ws, k).Some? <==> k in KeySet(ws)
    ensures Lookup(ws, k).Some? <==> exists i :: 0 <= i < |ws| && ws[i].key == k
  {
    if ws != [] {
      LookupIff(ws[1..], k);
      if k in KeySet(ws[1..]) {
        var i :| 0 <= i < |ws[1..]| && ws[1..][i].key == k;
        assert ws[i + 1].key == k;
      }
      if k in KeySet(ws) && ws[0].key != k {
        var i :| 0 <= i < |ws| && ws[i].key == k;
        assert ws[1..][i - 1].key == k;
      }
    }
  }

  /** Installing the head of a write list settles its key and no other. */
  lemma LookupTail(ws: seq<Write>, j: nat, k: Key)
    requires j < |ws| && DistinctKeys(ws)
    ensures ws[j..][0] == ws[j] && ws[j..][1..] == ws[j + 1..]
    ensures ws[j].key == k ==> Lookup(ws[j..], k) == Some(ws[j].value) && Lookup(ws[j + 1..], k).None?
    ensures ws[j].key != k ==> Lookup(ws[j..], k) == Lookup(ws[j + 1..], k)
  {
    LookupIff(ws[j + 1..], k);
  }

  lemma {:induction false} OverwriteKeys(ws: seq<Write>, k: Key, v: Value)
    ensures |Overwrite(ws, k, v)| == |ws|
    ensures forall i :: 0 <= i < |ws| ==> Overwrite(ws, k, v)[i].key == ws[i].key
  {
    if ws != [] && ws[0].key != k {
      OverwriteKeys(ws[1..], k, v);
    }
  }

  lemma PutLocalKeys(ws: seq<Write>, k: Key, v: Value)
    requires DistinctKeys(ws)
    ensures DistinctKeys(PutLocal(ws, k, v))
    ensures forall w :: w in PutLocal(ws, k, v) ==> w.key == k || exists u :: u in ws && u.key == w.key
  {
    OverwriteKeys(ws, k, v);
    LookupIff(ws, k);
    if Lookup(ws, k).Some? {
      forall w | w in PutLocal(ws, k, v) ensures exists u :: u in ws && u.key == w.key {
        var i :| 0 <= i < |ws| && Overwrite(ws, k, v)[i] == w;
        assert ws[i] in ws;
      }
    }
  }

  // ---------------------------------------------------------------- every step keeps the invariant

  /** A step that only moves one transaction, without changing what it holds or leaves pending. */
  lemma MoveTxn(s: State, s': State, t: TxnId)
    requires Inv(s) && t < |s.txns| == |s'.txns| && s.globalTs <= s'.globalTs
    requires s' == s.(globalTs := s'.globalTs, txns := s.txns[t := s'.txns[t]])
    requires TxnOk(s', t)
    requires s.txns[t].startTs == s'.txns[t].startTs
    requires PastStamp(s.txns[t].pc) ==> PastStamp(s'.txns[t].pc)
    requires forall k :: 0 <= k < s.limits.keys ==> (Holds(s.txns[t], k) <==> Holds(s'.txns[t], k))
    requires forall k :: 0 <= k < s.limits.keys ==> (Pending(s.txns[t], k) <==> Pending(s'.txns[t], k))
    ensures Inv(s')
  {
    forall u | 0 <= u < |s'.txns| ensures TxnOk(s', u) {
      assert TxnOk(s, u);
    }
    forall k | 0 <= k < s.limits.keys ensures ChainOk(s', k) {
      assert ChainOk(s, k);
      if u :| 0 <= u < |s.txns| && Pending(s.txns[u], k) { assert Pending(s'.txns[u], k); }
    }
  }

  lemma KeepBegin(s: State)
    requires Inv(s) && Enabled(s, Begin)
    ensures Inv(Apply(s, Begin))
  {
    var s' := Apply(s, Begin);
    forall u | 0 <= u < |s'.txns| ensures TxnOk(s', u) {
      if u < |s.txns| { assert TxnOk(s, u); }
    }
    forall k | 0 <= k < s.limits.keys ensures ChainOk(s', k) {
      assert ChainOk(s, k);
      if u :| 0 <= u < |s.txns| && Pending(s.txns[u], k) { assert Pending(s'.txns[u], k); }
    }
  }

  lemma KeepLocal(s: State, step: Step)
    requires Inv(s) && Enabled(s, step)
    requires step.WriteLocal? || step.Abort? || step.CommitReadOnly? || step.StartCommit? || step.Finish? || step.Read?
    ensures Inv(Apply(s, step))
  {
    var s' := Apply(s, step);
    if !step.Read? {
      assert TxnOk(s, step.t);
      if step.WriteLocal? { PutLocalKeys(s.txns[step.t].writes, step.k, Clip(step.v, s.limits.valueLen)); }
      MoveTxn(s, s', step.t);
    }
  }

  /** A step that moves a lock leaves transactions and chains as they are, but for the program counter. */
  lemma LockMoves(s: State, s': State, t: TxnId)
    requires Inv(s) && t < |s.txns| && Shaped(s') && s'.limits == s.limits && s'.log == s.log
             && s'.globalTs == s.globalTs
    requires s'.chains == s.chains && |s'.txns| == |s.txns| && s'.txns == s.txns[t := s'.txns[t]]
    requires s'.txns[t].startTs == s.txns[t].startTs && TxnOk(s', t) && !s.txns[t].pc.Installing?
             && !s'.txns[t].pc.Installing?
    requires PastStamp(s.txns[t].pc) ==> PastStamp(s'.txns[t].pc)
    ensures CommittersOk(s') && TxnsOk(s') && ChainsOk(s')
  {
    forall u | 0 <= u < |s'.txns| ensures TxnOk(s', u) { assert TxnOk(s, u); }
    forall k | 0 <= k < s.limits.keys ensures ChainOk(s', k) {
      assert ChainOk(s, k);
      if u :| 0 <= u < |s.txns| && Pending(s.txns[u], k) { assert Pending(s'.txns[u], k); }
    }
  }

  lemma KeepLock(s: State, s': State, t: TxnId)
    requires Inv(s) && Enabled(s, LockNext(t)) && s' == Apply(s, LockNext(t))
    ensures Inv(s')
  {
    assert TxnOk(s, t);
    LockTaken(s, s', t);
    LockMoves(s, s', t);
  }

  lemma LockTaken(s: State, s': State, t: TxnId)
    requires Inv(s) && Enabled(s, LockNext(t)) && s' == Apply(s, LockNext(t))
    ensures Shaped(s') && LocksOk(s')
  {
    var pc := s.txns[t].pc;
    assert TxnOk(s, t);
    assert pc.keys[..pc.i + 1] == pc.keys[..pc.i] + [pc.keys[pc.i]];
  }

  lemma LockGiven(s: State, s': State, t: TxnId)
    requires Inv(s) && Enabled(s, UnlockNext(t)) && s' == Apply(s, UnlockNext(t))
    ensures Shaped(s') && LocksOk(s')
  {
    var pc := s.txns[t].pc;
    assert TxnOk(s, t);
    assert pc.keys[pc.i..] == [pc.keys[pc.i]] + pc.keys[pc.i + 1..];
    assert pc.keys[pc.i] !in pc.keys[pc.i + 1..];
    var freed := pc.keys[pc.i];
    assert Holds(s.txns[t], freed) && s.locks[freed] == Some(t);
    forall k, u | 0 <= u < |s'.txns| && 0 <= k < s.limits.keys && Holds(s'.txns[u], k) ensures s'.locks[k] == Some(u) {
      if u == t { assert k in pc.keys[pc.i + 1..]; }
      assert Holds(s.txns[u], k);
    }
  }

  lemma KeepUnlock(s: State, s': State, t: TxnId)
    requires Inv(s) && Enabled(s, UnlockNext(t)) && s' == Apply(s, UnlockNext(t))
    ensures Inv(s')
  {
    assert TxnOk(s, t);
    LockGiven(s, s', t);
    LockMoves(s, s', t);
  }

  /** Whoever leaves a version pending holds the key. */
  lemma PendingHolds(s: State, t: TxnId, k: Key)
    requires Inv(s) && t < |s.txns| && k < s.limits.keys && Pending(s.txns[t], k)
    ensures Holds(s.txns[t], k) && s.locks[k] == Some(t)
  {
    var x := s.txns[t];
    assert TxnOk(s, t);
    LookupIff(x.writes[x.pc.j..], k);
    var i :| 0 <= i < |x.writes[x.pc.j..]| && x.writes[x.pc.j..][i].key == k;
    assert x.writes[x.pc.j + i].key == k;
    assert k in KeySet(x.writes);
  }

  /** A key locked by a transaction that has not drawn its timestamp has no pending version. */
  lemma SettledChain(s: State, k: Key)
    requires Inv(s) && k < s.limits.keys
    requires s.locks[k].None? || (s.locks[k].value < |s.txns| && !s.txns[s.locks[k].value].pc.Installing?)
    ensures s.chains[k] == VersionsOf(s.log, k)
  {
    assert ChainOk(s, k);
    if u :| 0 <= u < |s.txns| && Pending(s.txns[u], k) { PendingHolds(s, u, k); }
  }

  lemma LastIsNewest(log: seq<Commit>, globalTs: nat)
    requires LogOk(log, globalTs) && log != []
    ensures forall d :: d in log ==> d.ts <= log[|log| - 1].ts
  { }

  lemma FrontLogOk(log: seq<Commit>, globalTs: nat)
    requires LogOk(log, globalTs) && log != []
    ensures LogOk(log[..|log| - 1], globalTs)
  { }

  lemma {:induction false} HeadBoundsVersions(log: seq<Commit>, globalTs: nat, k: Key, ts: nat)
    requires LogOk(log, globalTs)
    requires forall c :: c in log ==> c.ts != ts
    requires VersionsOf(log, k) == [] || VersionsOf(log, k)[0].commitTs <= ts
    ensures NoneSince(log, k, ts)
  {
    if log != [] {
      var front := log[..|log| - 1];
      var c := log[|log| - 1];
      assert log == front + [c];
      if Writes(c, k) {
        LastIsNewest(log, globalTs);
      } else {
        FrontLogOk(log, globalTs);
        HeadBoundsVersions(front, globalTs, k, ts);
      }
    }
  }

  /** Under the lock, the head of the chain decides whether anyone committed the key since. */
  lemma ValidateKey(s: State, t: TxnId)
    requires Inv(s) && t < |s.txns| && s.txns[t].pc.Validating? && s.txns[t].pc.j < |s.txns[t].writes|
    ensures var k := s.txns[t].writes[s.txns[t].pc.j].key;
            k < s.limits.keys
            && ((s.chains[k] == [] || s.chains[k][0].commitTs <= s.txns[t].startTs)
                ==> NoneSince(s.log, k, s.txns[t].startTs))
  {
    var x := s.txns[t];
    var k := x.writes[x.pc.j].key;
    assert TxnOk(s, t);
    assert x.writes[x.pc.j] in x.writes;
    assert k in KeySet(x.writes);
    assert Holds(x, k);
    SettledChain(s, k);
    if s.chains[k] == [] || s.chains[k][0].commitTs <= x.startTs {
      HeadBoundsVersions(s.log, s.globalTs, k, x.startTs);
    }
  }

  lemma KeysInRange(s: State, t: TxnId, keys: seq<Key>)
    requires Shaped(s) && t < |s.txns| && TxnOk(s, t) && SortedKeysOf(keys, s.txns[t].writes)
    ensures forall k :: k in keys ==> k < s.limits.keys
  {
    forall k | k in keys ensures k < s.limits.keys { assert k in KeySet(s.txns[t].writes); }
  }

  lemma KeepValidate(s: State, s': State, t: TxnId)
    requires Inv(s) && Enabled(s, ValidateNext(t)) && s' == Apply(s, ValidateNext(t))
    ensures Inv(s')
  {
    var x := s.txns[t];
    assert TxnOk(s, t);
    assert x.pc.Locking? ==> x.pc.keys[..x.pc.i] == x.pc.keys;
    assert x.pc.keys[0..] == x.pc.keys;
    KeysInRange(s, t, x.pc.keys);
    if x.pc.Validating? { ValidateKey(s, t); }
    assert TxnOk(s', t);
    MoveTxn(s, s', t);
  }

  lemma KeepDrop(s: State, t: TxnId)
    requires Inv(s) && Enabled(s, DropWrites(t))
    ensures Inv(Apply(s, DropWrites(t)))
  {
    var x := s.txns[t];
    assert TxnOk(s, t);
    assert x.pc.keys[0..] == x.pc.keys;
    forall k | k in x.pc.keys ensures k < s.limits.keys { assert k in KeySet(x.writes); }
    assert x.writes[x.pc.j..] == [];
    MoveTxn(s, Apply(s, DropWrites(t)), t);
  }

  lemma VersionsSnoc(log: seq<Commit>, c: Commit, k: Key)
    ensures VersionsOf(log + [c], k) ==
      match Lookup(c.writes, k) case None => VersionsOf(log, k) case Some(v) => [Version(v, c.ts)] + VersionsOf(log, k)
  {
    assert (log + [c])[..|log|] == log;
  }

  /** Drawing the timestamp: the new commit is the newest on all its keys, and conflicts with none. */
  lemma StampLog(s: State, t: TxnId)
    requires Inv(s) && Enabled(s, Stamp(t))
    ensures LogOk(Apply(s, Stamp(t)).log, s.globalTs + 1)
  {
    var s' := Apply(s, Stamp(t));
    var x := s.txns[t];
    var n := |s.log|;
    assert TxnOk(s, t);
    forall c | c in s'.log ensures c.startTs < c.ts < s'.globalTs { }
    forall i, j, k | 0 <= i < j < |s'.log| && Writes(s'.log[i], k) && Writes(s'.log[j], k)
      ensures s'.log[i].ts < s'.log[j].startTs
    {
      if j == n {
        LookupIff(x.writes, k);
        var m :| 0 <= m < |x.writes| && x.writes[m].key == k;
        assert NoneSince(s.log, x.writes[m].key, x.startTs);
        assert s.log[i] in s.log;
      }
    }
  }

  lemma StampSelf(s: State, t: TxnId)
    requires Inv(s) && Enabled(s, Stamp(t))
    ensures TxnOk(Apply(s, Stamp(t)), t)
  {
    var s' := Apply(s, Stamp(t));
    var x := s.txns[t];
    var c := Commit(t, x.startTs, s.globalTs, x.writes);
    assert TxnOk(s, t);
    assert s'.log == s.log + [c];
    assert c in s'.log;
    assert x.writes[0..] == x.writes;
    forall k | Lookup(x.writes, k).Some?
      ensures VersionsOf(s'.log, k) != [] && VersionsOf(s'.log, k)[0] == Version(Lookup(x.writes, k).value, c.ts)
    {
      VersionsSnoc(s.log, c, k);
    }
    assert NewestIn(s'.log, x.writes, c.ts);
  }

  lemma StampValidating(s: State, t: TxnId, u: TxnId)
    requires Inv(s) && Enabled(s, Stamp(t)) && u < |s.txns| && u != t && s.txns[u].pc.Validating?
    ensures TxnOk(Apply(s, Stamp(t)), u)
  {
    var s' := Apply(s, Stamp(t));
    var y := s.txns[u];
    assert TxnOk(s, u);
    forall i | 0 <= i < y.pc.j ensures NoneSince(s'.log, y.writes[i].key, y.startTs) {
      OthersKey(s, t, u, y.writes[i].key);
      assert NoneSince(s.log, y.writes[i].key, y.startTs);
    }
  }

  lemma StampInstalling(s: State, t: TxnId, u: TxnId)
    requires Inv(s) && Enabled(s, Stamp(t)) && u < |s.txns| && u != t && s.txns[u].pc.Installing?
    ensures TxnOk(Apply(s, Stamp(t)), u)
  {
    var s' := Apply(s, Stamp(t));
    var y := s.txns[u];
    assert TxnOk(s, u);
    assert Commit(u, y.startTs, y.pc.ts, y.writes) in s'.log;
    var rest := y.writes[y.pc.j..];
    forall k | Lookup(rest, k).Some?
      ensures VersionsOf(s'.log, k) != [] && VersionsOf(s'.log, k)[0] == Version(Lookup(rest, k).value, y.pc.ts)
    {
      LookupIff(rest, k);
      var i :| 0 <= i < |rest| && rest[i].key == k;
      assert y.writes[y.pc.j + i].key == k;
      OthersKey(s, t, u, k);
      VersionsSnoc(s.log, s'.log[|s.log|], k);
    }
  }

  lemma StampTxn(s: State, t: TxnId, u: TxnId)
    requires Inv(s) && Enabled(s, Stamp(t)) && u < |s.txns|
    ensures TxnOk(Apply(s, Stamp(t)), u)
  {
    if u == t {
      StampSelf(s, t);
    } else if s.txns[u].pc.Validating? {
      StampValidating(s, t, u);
    } else if s.txns[u].pc.Installing? {
      StampInstalling(s, t, u);
    } else {
      assert TxnOk(s, u);
    }
  }

  /** Two transactions past their locking phase write disjoint keys. */
  lemma OthersKey(s: State, t: TxnId, u: TxnId, k: Key)
    requires Inv(s) && t < |s.txns| && u < |s.txns| && t != u
    requires s.txns[t].pc.Validating? || s.txns[t].pc.Installing?
    requires s.txns[u].pc.Validating? || s.txns[u].pc.Installing?
    requires k in KeySet(s.txns[u].writes)
    ensures k !in KeySet(s.txns[t].writes) && Lookup(s.txns[t].writes, k).None?
  {
    assert TxnOk(s, t) && TxnOk(s, u);
    LookupIff(s.txns[t].writes, k);
    assert Holds(s.txns[u], k);
    var i :| 0 <= i < |s.txns[u].writes| && s.txns[u].writes[i].key == k;
    assert s.txns[u].writes[i] in s.txns[u].writes;
    assert s.locks[k] == Some(u);
    assert k in KeySet(s.txns[t].writes) ==> Holds(s.txns[t], k);
  }

  lemma StampOwnChain(s: State, t: TxnId, k: Key)
    requires Inv(s) && Enabled(s, Stamp(t)) && k < s.limits.keys && k in KeySet(s.txns[t].writes)
    ensures Shaped(Apply(s, Stamp(t))) && ChainOk(Apply(s, Stamp(t)), k)
  {
    var s' := Apply(s, Stamp(t));
    var x := s.txns[t];
    assert TxnOk(s, t);
    VersionsSnoc(s.log, s'.log[|s.log|], k);
    LookupIff(x.writes, k);
    assert Holds(x, k);
    SettledChain(s, k);
    assert x.writes[0..] == x.writes;
    assert Pending(s'.txns[t], k);
  }

  lemma StampOtherChain(s: State, t: TxnId, k: Key)
    requires Inv(s) && Enabled(s, Stamp(t)) && k < s.limits.keys && k !in KeySet(s.txns[t].writes)
    ensures Shaped(Apply(s, Stamp(t))) && ChainOk(Apply(s, Stamp(t)), k)
  {
    var s' := Apply(s, Stamp(t));
    var x := s.txns[t];
    assert ChainOk(s, k);
    VersionsSnoc(s.log, s'.log[|s.log|], k);
    LookupIff(x.writes, k);
    assert x.writes[0..] == x.writes;
    if u :| 0 <= u < |s.txns| && Pending(s.txns[u], k) { assert Pending(s'.txns[u], k); }
    if u :| 0 <= u < |s.txns| && Pending(s'.txns[u], k) { assert Pending(s.txns[u], k); }
  }

  lemma StampChain(s: State, t: TxnId, k: Key)
    requires Inv(s) && Enabled(s, Stamp(t)) && k < s.limits.keys
    ensures Shaped(Apply(s, Stamp(t))) && ChainOk(Apply(s, Stamp(t)), k)
  {
    if k in KeySet(s.txns[t].writes) { StampOwnChain(s, t, k); } else { StampOtherChain(s, t, k); }
  }

  lemma StampLocks(s: State, s': State, t: TxnId)
    requires Inv(s) && Enabled(s, Stamp(t)) && s' == Apply(s, Stamp(t))
    ensures Shaped(s') && LocksOk(s')
  {
    forall k, u | 0 <= u < |s.txns| && 0 <= k < s.limits.keys ensures Holds(s.txns[u], k) <==> Holds(s'.txns[u], k) { }
  }

  lemma StampCommitters(s: State, s': State, t: TxnId)
    requires Inv(s) && Enabled(s, Stamp(t)) && s' == Apply(s, Stamp(t))
    ensures CommittersOk(s')
  {
    forall c | c in s.log ensures c.id != t { assert !PastStamp(s.txns[t].pc); }
    forall i | 0 <= i < |s.log| ensures s.log[i].id != t { assert s.log[i] in s.log; }
  }

  lemma KeepStamp(s: State, s': State, t: TxnId)
    requires Inv(s) && Enabled(s, Stamp(t)) && s' == Apply(s, Stamp(t))
    ensures Inv(s')
  {
    StampLog(s, t);
    StampLocks(s, s', t);
    StampCommitters(s, s', t);
    forall u | 0 <= u < |s'.txns| ensures TxnOk(s', u) { StampTxn(s, t, u); }
    forall k | 0 <= k < s.limits.keys ensures ChainOk(s', k) { StampChain(s, t, k); }
  }

  lemma InstallOwnChain(s: State, s': State, t: TxnId)
    requires Inv(s) && Enabled(s, InstallNext(t)) && s' == Apply(s, InstallNext(t))
    ensures Shaped(s') && ChainOk(s', s.txns[t].writes[s.txns[t].pc.j].key)
  {
    var x := s.txns[t];
    var k := x.writes[x.pc.j].key;
    assert TxnOk(s, t) && ChainOk(s, k);
    LookupTail(x.writes, x.pc.j, k);
    assert Pending(x, k);
    PendingHolds(s, t, k);
    forall u | 0 <= u < |s'.txns| ensures !Pending(s'.txns[u], k) {
      if u != t && Pending(s.txns[u], k) { PendingHolds(s, u, k); }
    }
  }

  lemma InstallOtherChain(s: State, s': State, t: TxnId, k: Key)
    requires Inv(s) && Enabled(s, InstallNext(t)) && s' == Apply(s, InstallNext(t))
    requires k < s.limits.keys && k != s.txns[t].writes[s.txns[t].pc.j].key
    ensures Shaped(s') && ChainOk(s', k)
  {
    var x := s.txns[t];
    assert TxnOk(s, t) && ChainOk(s, k);
    LookupTail(x.writes, x.pc.j, k);
    if u :| 0 <= u < |s.txns| && Pending(s.txns[u], k) { assert Pending(s'.txns[u], k); }
    if u :| 0 <= u < |s.txns| && Pending(s'.txns[u], k) { assert Pending(s.txns[u], k); }
  }

  lemma InstallChain(s: State, s': State, t: TxnId, k: Key)
    requires Inv(s) && Enabled(s, InstallNext(t)) && k < s.limits.keys && s' == Apply(s, InstallNext(t))
    ensures Shaped(s') && ChainOk(s', k)
  {
    if k == s.txns[t].writes[s.txns[t].pc.j].key { InstallOwnChain(s, s', t); } else { InstallOtherChain(s, s', t, k); }
  }

  lemma InstallRest(log: seq<Commit>, ws: seq<Write>, j: nat, ts: nat)
    requires j < |ws| && DistinctKeys(ws) && NewestIn(log, ws[j..], ts)
    ensures NewestIn(log, ws[j + 1..], ts)
  {
    forall k | Lookup(ws[j + 1..], k).Some? ensures Lookup(ws[j..], k) == Lookup(ws[j + 1..], k) {
      LookupTail(ws, j, k);
    }
  }

  lemma InstallTxn(s: State, t: TxnId, u: TxnId)
    requires Inv(s) && Enabled(s, InstallNext(t)) && u < |s.txns|
    ensures TxnOk(Apply(s, InstallNext(t)), u)
  {
    assert TxnOk(s, u);
    if u == t {
      var x := s.txns[t];
      InstallRest(s.log, x.writes, x.pc.j, x.pc.ts);
    }
  }

  lemma InstallLocks(s: State, t: TxnId)
    requires Inv(s) && Enabled(s, InstallNext(t))
    ensures Shaped(Apply(s, InstallNext(t))) && LocksOk(Apply(s, InstallNext(t)))
  {
    var s' := Apply(s, InstallNext(t));
    forall k, u | 0 <= u < |s.txns| && 0 <= k < s.limits.keys ensures Holds(s.txns[u], k) <==> Holds(s'.txns[u], k) { }
  }

  lemma KeepInstall(s: State, s': State, t: TxnId)
    requires Inv(s) && Enabled(s, InstallNext(t)) && s' == Apply(s, InstallNext(t))
    ensures Inv(s')
  {
    InstallLocks(s, t);
    forall u | 0 <= u < |s'.txns| ensures TxnOk(s', u) { InstallTxn(s, t, u); }
    forall k | 0 <= k < s.limits.keys ensures ChainOk(s', k) { InstallChain(s, s', t, k); }
  }

  lemma InitInv(limits: Limits)
    ensures Inv(Init(limits))
  { }

  lemma StepInv(s: State, step: Step)
    requires Inv(s) && Enabled(s, step)
    ensures Inv(Apply(s, step))
  {
    match step
    case Begin => KeepBegin(s);
    case LockNext(t) => KeepLock(s, Apply(s, step), t);
    case ValidateNext(t) => KeepValidate(s, Apply(s, step), t);
    case Stamp(t) => KeepStamp(s, Apply(s, step), t);
    case InstallNext(t) => KeepInstall(s, Apply(s, step), t);
    case DropWrites(t) => KeepDrop(s, t);
    case UnlockNext(t) => KeepUnlock(s, Apply(s, step), t);
    case _ => KeepLocal(s, step);
  }

  /** The invariant holds in every state of every run. */
  lemma {:induction false} RunInv(ss: seq<State>, steps: seq<Step>, n: nat)
    requires IsRun(ss, steps) && n < |ss|
    ensures Inv(ss[n])
  {
    if n == 0 {
      InitInv(ss[0].limits);
    } else {
      RunInv(ss, steps, n - 1);
      StepInv(ss[n - 1], steps[n - 1]);
    }
  }
}
