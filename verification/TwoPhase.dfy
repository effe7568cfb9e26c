/**
 Transfers between accounts under two-phase locking.

 Every access to a lock, to a balance and to the lock list is one step; a `-=` or `+=` on a
 balance is a load and a store.  The steps of any number of threads interleave freely.

 `State.asked` and `State.log` are history variables: a transfer enters `asked` when its thread
 begins it and `log` at its lock point, when it holds both locks.  No step reads them.
 */
module TwoPhase {

  type Id = nat   // an account
  type Tid = nat  // a thread

  datatype Owner = Free | By(t: Tid)
  datatype Transfer = Transfer(from: Id, to: Id, amount: nat)
  datatype Entry = Entry(t: Tid, tr: Transfer)

  datatype Pc =
    | Idle
    | LockLow | LockHigh
    | Check
    | DebitLoad | DebitStore(reg: int)
    | CreditLoad | CreditStore(reg: int)
    | Release

  datatype Thread = Thread(pc: Pc, tr: Transfer, locked: seq<Id>)

  datatype State = State(accounts: seq<int>, owner: seq<Owner>, threads: seq<Thread>, asked: seq<Entry>,
                         log: seq<Entry>)

  function Low(tr: Transfer): Id { if tr.from > tr.to then tr.to else tr.from }
  function High(tr: Transfer): Id { if tr.from > tr.to then tr.from else tr.to }

  // ---------------------------------------------------------------- steps

  datatype Step = Begin(t: Tid, tr: Transfer) | Next(t: Tid)

  function Start(balances: seq<int>, threads: nat): State {
    State(balances, seq(|balances|, _ => Free), seq(threads, _ => Thread(Idle, Transfer(0, 0, 0), [])), [], [])
  }

  ghost predicate InRange(s: State, x: Thread) {
    && (x.pc.Idle? || (x.tr.from < |s.accounts| && x.tr.to < |s.accounts|))
    && forall k :: k in x.locked ==> k < |s.accounts|
  }

  ghost predicate Shaped(s: State) {
    && |s.owner| == |s.accounts|
    && forall t :: 0 <= t < |s.threads| ==> InRange(s, s.threads[t])
  }

  /** `tx_lock_record` goes on at once for a lock in the list, and otherwise when the mutex is free. */
  predicate CanLock(s: State, x: Thread, k: Id) {
    k in x.locked || (k < |s.owner| && s.owner[k].Free?)
  }

  ghost predicate Enabled(s: State, step: Step) {
    Shaped(s) && step.t < |s.threads| &&
    var x := s.threads[step.t];
    match step
    case Begin(t, tr) => x.pc.Idle? && tr.from < |s.accounts| && tr.to < |s.accounts|
    case Next(t) =>
      match x.pc
      case Idle => false
      case LockLow => CanLock(s, x, Low(x.tr))
      case LockHigh => CanLock(s, x, High(x.tr))
      case _ => true
  }

  function WithThread(s: State, t: Tid, x: Thread): State
    requires t < |s.threads|
  {
    s.(threads := s.threads[t := x])
  }

  function Locking(s: State, t: Tid, k: Id, then_: Pc): State
    requires t < |s.threads|
  {
    var x := s.threads[t];
    if k in x.locked || k >= |s.owner| then WithThread(s, t, x.(pc := then_))
    else WithThread(s.(owner := s.owner[k := By(t)]), t, x.(pc := then_, locked := x.locked + [k]))
  }

  function Apply(s: State, step: Step): State
    requires Enabled(s, step)
  {
    var t := step.t;
    var x := s.threads[t];
    match step
    case Begin(_, tr) =>
      if tr.from == tr.to then WithThread(s, t, Thread(Idle, tr, []))
      else WithThread(s.(asked := s.asked + [Entry(t, tr)]), t, Thread(LockLow, tr, []))
    case Next(_) =>
      match x.pc
      case Idle => s
      case LockLow => Locking(s, t, Low(x.tr), LockHigh)
      case LockHigh => Locking(s.(log := s.log + [Entry(t, x.tr)]), t, High(x.tr), Check)
      case Check => WithThread(s, t, x.(pc := if s.accounts[x.tr.from] >= x.tr.amount then DebitLoad else Release))
      case DebitLoad => WithThread(s, t, x.(pc := DebitStore(s.accounts[x.tr.from])))
      case DebitStore(reg) =>
        WithThread(s.(accounts := s.accounts[x.tr.from := reg - x.tr.amount]), t, x.(pc := CreditLoad))
      case CreditLoad => WithThread(s, t, x.(pc := CreditStore(s.accounts[x.tr.to])))
      case CreditStore(reg) =>
        WithThread(s.(accounts := s.accounts[x.tr.to := reg + x.tr.amount]), t, x.(pc := Release))
      case Release =>
        if x.locked == [] then WithThread(s, t, x.(pc := Idle))
        else
          var n := |x.locked| - 1;
          assert x.locked[n] in x.locked;
          WithThread(s.(owner := s.owner[x.locked[n] := Free]), t, x.(locked := x.locked[..n]))
  }

  ghost predicate IsRun(init: seq<int>, ss: seq<State>, steps: seq<Step>) {
    && |ss| == |steps| + 1
    && ss[0] == Start(init, |ss[0].threads|)
    && (forall k :: 0 <= k < |init| ==> init[k] >= 0)
    && forall i :: 0 <= i < |steps| ==> Enabled(ss[i], steps[i]) && ss[i + 1] == Apply(ss[i], steps[i])
  }

  // ---------------------------------------------------------------- the reference: one transfer at a time

  function Exec(bal: seq<int>, tr: Transfer): seq<int> {
    if tr.from < |bal| && tr.to < |bal| && tr.from != tr.to && bal[tr.from] >= tr.amount
    then bal[tr.from := bal[tr.from] - tr.amount][tr.to := bal[tr.to] + tr.amount]
    else bal
  }

  function Serial(init: seq<int>, log: seq<Entry>): (bal: seq<int>)
    ensures |bal| == |init|
  {
    if log == [] then init else Exec(Serial(init, log[..|log| - 1]), log[|log| - 1].tr)
  }

  /** The transfers of one thread, in order. */
  function OfThread(es: seq<Entry>, t: Tid): seq<Transfer> {
    if es == [] then []
    else OfThread(es[..|es| - 1], t) + (if es[|es| - 1].t == t then [es[|es| - 1].tr] else [])
  }

  function Sum(s: seq<int>): int {
    if s == [] then 0 else Sum(s[..|s| - 1]) + s[|s| - 1]
  }

  /** What a thread has debited and not yet credited. */
  function InTransit(x: Thread): int {
    if x.pc.CreditLoad? || x.pc.CreditStore? then x.tr.amount else 0
  }

  function Transits(xs: seq<Thread>): seq<int> {
    seq(|xs|, i requires 0 <= i < |xs| => InTransit(xs[i]))
  }

  // ---------------------------------------------------------------- invariant

  predicate ThreadOk(acc: seq<int>, x: Thread) {
    (x.pc.Idle? ==> x.locked == []) &&
    (!x.pc.Idle? ==>
      && x.tr.from < |acc| && x.tr.to < |acc| && x.tr.from != x.tr.to
      && match x.pc
         case Idle => true
         case LockLow => x.locked == []
         case LockHigh => x.locked == [Low(x.tr)]
         case Check => x.locked == [Low(x.tr), High(x.tr)]
         case DebitLoad => x.locked == [Low(x.tr), High(x.tr)] && acc[x.tr.from] >= x.tr.amount
         case DebitStore(reg) => x.locked == [Low(x.tr), High(x.tr)] && reg == acc[x.tr.from] >= x.tr.amount
         case CreditLoad => x.locked == [Low(x.tr), High(x.tr)]
         case CreditStore(reg) => x.locked == [Low(x.tr), High(x.tr)] && reg == acc[x.tr.to]
         case Release => x.locked <= [Low(x.tr), High(x.tr)])
  }

  ghost predicate ThreadsOk(acc: seq<int>, threads: seq<Thread>) {
    forall t :: 0 <= t < |threads| ==> ThreadOk(acc, threads[t])
  }

  /** A lock is held exactly by the thread that has it in its list. */
  ghost predicate LocksOk(owner: seq<Owner>, threads: seq<Thread>) {
    && (forall k: Id :: k < |owner| && owner[k].By? ==> owner[k].t < |threads| && k in threads[owner[k].t].locked)
    && (forall k: Id, t: Tid {:trigger k in threads[t].locked} :: t < |threads| && k in threads[t].locked ==>
          k < |owner| && owner[k] == By(t))
  }

  /** What a transfer past its lock point still has to do to account `k`. */
  function Pending(acc: seq<int>, x: Thread, k: Id): int {
    var debit: int := if k == x.tr.from then 0 - x.tr.amount else 0;
    var credit: int := if k == x.tr.to then x.tr.amount else 0;
    match x.pc
    case Check => if x.tr.from < |acc| && acc[x.tr.from] >= x.tr.amount then debit + credit else 0
    case DebitLoad => debit + credit
    case DebitStore(_) => debit + credit
    case CreditLoad => credit
    case CreditStore(_) => credit
    case _ => 0
  }

  function Due(acc: seq<int>, o: Owner, threads: seq<Thread>, k: Id): int {
    if o.By? && o.t < |threads| then Pending(acc, threads[o.t], k) else 0
  }

  /** The balances are those of the serial execution, but for transfers past their lock points. */
  ghost predicate BalanceOk(acc: seq<int>, owner: seq<Owner>, threads: seq<Thread>, serial: seq<int>) {
    && |acc| == |owner| == |serial|
    && forall k: Id :: k < |acc| ==> acc[k] + Due(acc, owner[k], threads, k) == serial[k]
  }

  function Unlogged(x: Thread): seq<Transfer> {
    if x.pc.LockLow? || x.pc.LockHigh? then [x.tr] else []
  }

  ghost predicate OrderOk(asked: seq<Entry>, log: seq<Entry>, threads: seq<Thread>) {
    forall t :: 0 <= t < |threads| ==> OfThread(asked, t) == OfThread(log, t) + Unlogged(threads[t])
  }

  ghost predicate Inv(s: State, init: seq<int>) {
    && |s.owner| == |s.accounts| == |init|
    && ThreadsOk(s.accounts, s.threads)
    && LocksOk(s.owner, s.threads)
    && BalanceOk(s.accounts, s.owner, s.threads, Serial(init, s.log))
    && (forall k :: 0 <= k < |s.accounts| ==> s.accounts[k] >= 0)
    && OrderOk(s.asked, s.log, s.threads)
    && Sum(s.accounts) + Sum(Transits(s.threads)) == Sum(init)
  }

  // ---------------------------------------------------------------- sums and histories

  lemma {:induction false} SumUpdate(s: seq<int>, i: nat, v: int)
    requires i < |s|
    ensures Sum(s[i := v]) == Sum(s) - s[i] + v
    decreases |s|
  {
    var n := |s| - 1;
    if i < n {
      SumUpdate(s[..n], i, v);
      assert s[i := v][..n] == s[..n][i := v];
    } else {
      assert s[i := v][..n] == s[..n];
    }
  }

  lemma TransitsUpdate(xs: seq<Thread>, t: Tid, x: Thread)
    requires t < |xs|
    ensures Sum(Transits(xs[t := x])) == Sum(Transits(xs)) - InTransit(xs[t]) + InTransit(x)
  {
    assert Transits(xs[t := x]) == Transits(xs)[t := InTransit(x)];
    SumUpdate(Transits(xs), t, InTransit(x));
  }

  lemma OfThreadAppend(es: seq<Entry>, e: Entry, t: Tid)
    ensures OfThread(es + [e], t) == OfThread(es, t) + if e.t == t then [e.tr] else []
  {
    assert (es + [e])[..|es|] == es;
  }

  lemma SerialAppend(init: seq<int>, log: seq<Entry>, e: Entry)
    ensures Serial(init, log + [e]) == Exec(Serial(init, log), e.tr)
  {
    assert (log + [e])[..|log|] == log;
  }

  // ---------------------------------------------------------------- what every step keeps

  /** Two threads never have the same account locked. */
  lemma Exclusive(owner: seq<Owner>, threads: seq<Thread>, t: Tid, u: Tid, k: Id)
    requires LocksOk(owner, threads) && t < |threads| && u < |threads| && k in threads[t].locked
             && k in threads[u].locked
    ensures t == u
  {
    assert owner[k] == By(t) && owner[k] == By(u);
  }

  // A step changes one thread and at most one lock or one balance.

  lemma StayLocks(owner: seq<Owner>, threads: seq<Thread>, t: Tid, x: Thread)
    requires LocksOk(owner, threads) && t < |threads| && x.locked == threads[t].locked
    ensures LocksOk(owner, threads[t := x])
  { }

  lemma TakeLock(owner: seq<Owner>, threads: seq<Thread>, t: Tid, x: Thread, k: Id)
    requires LocksOk(owner, threads) && t < |threads| && k < |owner| && owner[k].Free?
             && x.locked == threads[t].locked + [k]
    ensures LocksOk(owner[k := By(t)], threads[t := x])
  { }

  lemma DropLock(owner: seq<Owner>, threads: seq<Thread>, t: Tid, x: Thread, k: Id)
    requires LocksOk(owner, threads) && t < |threads| && threads[t].locked == x.locked + [k] && k !in x.locked
    ensures k < |owner| && LocksOk(owner[k := Free], threads[t := x])
  {
    assert k in threads[t].locked;
    forall u: Tid | u < |threads| && u != t ensures k !in threads[u].locked {
      if k in threads[u].locked { Exclusive(owner, threads, t, u, k); }
    }
    assert forall j :: j in x.locked ==> j in threads[t].locked;
    assert forall j :: j in threads[t].locked && j != k ==> j in x.locked;
  }

  lemma StayThreads(acc: seq<int>, threads: seq<Thread>, t: Tid, x: Thread)
    requires ThreadsOk(acc, threads) && t < |threads| && ThreadOk(acc, x)
    ensures ThreadsOk(acc, threads[t := x])
  { }

  /** A store hits only an account no other thread has locked. */
  lemma StoreThreads(acc: seq<int>, owner: seq<Owner>, threads: seq<Thread>, t: Tid, x: Thread, k: Id, v: int)
    requires ThreadsOk(acc, threads) && LocksOk(owner, threads) && t < |threads|
    requires k in threads[t].locked && k < |acc| && ThreadOk(acc[k := v], x)
    ensures ThreadsOk(acc[k := v], threads[t := x])
  {
    forall u | 0 <= u < |threads| && u != t ensures ThreadOk(acc[k := v], threads[u]) {
      if k in threads[u].locked { Exclusive(owner, threads, t, u, k); }
      StoreOther(acc, threads[u], k, v);
    }
  }

  lemma StoreOther(acc: seq<int>, x: Thread, k: Id, v: int)
    requires ThreadOk(acc, x) && k < |acc| && k !in x.locked
    ensures ThreadOk(acc[k := v], x)
  { }

  // ---------------------------------------------------------------- balances against the serial execution

  lemma StayBalance(acc: seq<int>, owner: seq<Owner>, threads: seq<Thread>, serial: seq<int>, t: Tid, x: Thread)
    requires BalanceOk(acc, owner, threads, serial) && t < |threads|
    requires forall k: Id :: Pending(acc, x, k) == Pending(acc, threads[t], k)
    ensures BalanceOk(acc, owner, threads[t := x], serial)
  {
    forall k: Id | k < |acc| ensures Due(acc, owner[k], threads[t := x], k) == Due(acc, owner[k], threads, k) { }
  }

  /** Taking or giving back a lock while nothing is pending. */
  lemma LockBalance(acc: seq<int>, owner: seq<Owner>, threads: seq<Thread>, serial: seq<int>, t: Tid, x: Thread, k: Id,
                    o: Owner)
    requires BalanceOk(acc, owner, threads, serial) && t < |threads| && k < |owner|
    requires (owner[k] == By(t) && o.Free?) || (owner[k].Free? && o == By(t))
    requires forall j: Id :: Pending(acc, x, j) == 0 && Pending(acc, threads[t], j) == 0
    ensures BalanceOk(acc, owner[k := o], threads[t := x], serial)
  {
    forall j: Id | j < |acc|
      ensures Due(acc, owner[k := o][j], threads[t := x], j) == Due(acc, owner[j], threads, j)
    { }
  }

  /** The lock point: both balances are the serial ones, so the serial transfer decides as the thread will. */
  lemma PointBalance(acc: seq<int>, owner: seq<Owner>, threads: seq<Thread>, serial: seq<int>, t: Tid, x: Thread)
    requires BalanceOk(acc, owner, threads, serial) && t < |threads|
    requires threads[t].pc.LockHigh? && ThreadOk(acc, threads[t]) && LocksOk(owner, threads)
    requires x.tr == threads[t].tr && x.pc == Check && owner[High(x.tr)].Free?
    ensures BalanceOk(acc, owner[High(x.tr) := By(t)], threads[t := x], Exec(serial, x.tr))
  {
    var owner' := owner[High(x.tr) := By(t)];
    assert Low(x.tr) in threads[t].locked;
    forall j: Id | j < |acc| ensures acc[j] + Due(acc, owner'[j], threads[t := x], j) == Exec(serial, x.tr)[j] {
      assert acc[x.tr.from] == serial[x.tr.from] && acc[x.tr.to] == serial[x.tr.to];
      if owner[j] == By(t) { assert j in threads[t].locked; }
    }
  }

  /** A store of what the thread still owed to account `k`. */
  lemma StoreBalance(acc: seq<int>, owner: seq<Owner>, threads: seq<Thread>, serial: seq<int>, t: Tid, x: Thread, k: Id,
                     v: int)
    requires BalanceOk(acc, owner, threads, serial) && ThreadsOk(acc, threads) && LocksOk(owner, threads)
    requires t < |threads| && k in threads[t].locked && k < |acc|
    requires v + Pending(acc[k := v], x, k) == acc[k] + Pending(acc, threads[t], k)
    requires forall j: Id :: j != k ==> Pending(acc[k := v], x, j) == Pending(acc, threads[t], j)
    ensures BalanceOk(acc[k := v], owner, threads[t := x], serial)
  {
    var acc' := acc[k := v];
    forall j: Id | j < |acc| ensures acc'[j] + Due(acc', owner[j], threads[t := x], j) == serial[j] {
      if owner[j].By? && owner[j].t != t {
        var u := owner[j].t;
        if k in threads[u].locked { Exclusive(owner, threads, t, u, k); }
        PendingOther(acc, threads[u], k, v, j);
      }
    }
  }

  lemma PendingOther(acc: seq<int>, y: Thread, k: Id, v: int, j: Id)
    requires ThreadOk(acc, y) && k < |acc| && k !in y.locked
    ensures Pending(acc[k := v], y, j) == Pending(acc, y, j)
  { }

  // ---------------------------------------------------------------- the invariant, step by step

  lemma StayOrder(asked: seq<Entry>, log: seq<Entry>, threads: seq<Thread>, t: Tid, x: Thread)
    requires OrderOk(asked, log, threads) && t < |threads| && Unlogged(x) == Unlogged(threads[t])
    ensures OrderOk(asked, log, threads[t := x])
  { }

  lemma BeginOrder(asked: seq<Entry>, log: seq<Entry>, threads: seq<Thread>, t: Tid, x: Thread)
    requires OrderOk(asked, log, threads) && t < |threads| && threads[t].pc.Idle? && x.pc.LockLow?
    ensures OrderOk(asked + [Entry(t, x.tr)], log, threads[t := x])
  {
    forall u | 0 <= u < |threads| { OfThreadAppend(asked, Entry(t, x.tr), u); }
  }

  lemma PointOrder(asked: seq<Entry>, log: seq<Entry>, threads: seq<Thread>, t: Tid, x: Thread)
    requires OrderOk(asked, log, threads) && t < |threads| && threads[t].pc.LockHigh? && x.pc.Check?
             && x.tr == threads[t].tr
    ensures OrderOk(asked, log + [Entry(t, x.tr)], threads[t := x])
  {
    forall u | 0 <= u < |threads| { OfThreadAppend(log, Entry(t, x.tr), u); }
  }

  lemma KeepBegin(s: State, t: Tid, tr: Transfer, init: seq<int>)
    requires Inv(s, init) && Enabled(s, Begin(t, tr))
    ensures Inv(Apply(s, Begin(t, tr)), init)
  {
    var x := Apply(s, Begin(t, tr)).threads[t];
    assert ThreadOk(s.accounts, s.threads[t]);
    StayThreads(s.accounts, s.threads, t, x);
    StayLocks(s.owner, s.threads, t, x);
    StayBalance(s.accounts, s.owner, s.threads, Serial(init, s.log), t, x);
    TransitsUpdate(s.threads, t, x);
    if tr.from == tr.to {
      StayOrder(s.asked, s.log, s.threads, t, x);
    } else {
      BeginOrder(s.asked, s.log, s.threads, t, x);
    }
  }

  lemma KeepLockLow(s: State, s': State, t: Tid, init: seq<int>)
    requires Inv(s, init) && Enabled(s, Next(t)) && s.threads[t].pc.LockLow?
    requires s' == Apply(s, Next(t))
    ensures Inv(s', init)
  {
    var x, k := s'.threads[t], Low(s.threads[t].tr);
    assert ThreadOk(s.accounts, s.threads[t]);
    StayThreads(s.accounts, s.threads, t, x);
    TakeLock(s.owner, s.threads, t, x, k);
    LockBalance(s.accounts, s.owner, s.threads, Serial(init, s.log), t, x, k, By(t));
    StayOrder(s.asked, s.log, s.threads, t, x);
    TransitsUpdate(s.threads, t, x);
  }

  /** Taking the second lock. */
  lemma LockHighShape(s: State, t: Tid)
    requires Enabled(s, Next(t)) && s.threads[t].pc.LockHigh? && ThreadOk(s.accounts, s.threads[t])
    ensures var y := s.threads[t]; var k := High(y.tr); var x := Thread(Check, y.tr, y.locked + [k]);
            && ThreadOk(s.accounts, x) && k < |s.owner| && s.owner[k].Free?
            && Apply(s, Next(t)) ==
                 State(s.accounts, s.owner[k := By(t)], s.threads[t := x], s.asked, s.log + [Entry(t, y.tr)])
  { }

  lemma KeepLockHigh(s: State, s': State, t: Tid, init: seq<int>)
    requires Inv(s, init) && Enabled(s, Next(t)) && s.threads[t].pc.LockHigh?
    requires s' == Apply(s, Next(t))
    ensures Inv(s', init)
  {
    var y := s.threads[t];
    assert ThreadOk(s.accounts, y);
    LockHighShape(s, t);
    var x := Thread(Check, y.tr, y.locked + [High(y.tr)]);
    StayThreads(s.accounts, s.threads, t, x);
    TakeLock(s.owner, s.threads, t, x, High(y.tr));
    SerialAppend(init, s.log, Entry(t, x.tr));
    PointBalance(s.accounts, s.owner, s.threads, Serial(init, s.log), t, x);
    PointOrder(s.asked, s.log, s.threads, t, x);
    TransitsUpdate(s.threads, t, x);
  }

  /** Steps that only look: the check, the two loads, and the end of the release loop. */
  predicate Looks(x: Thread) {
    x.pc.Check? || x.pc.DebitLoad? || x.pc.CreditLoad? || (x.pc.Release? && x.locked == [])
  }

  /** The thread after a step that only looks. */
  function Looked(acc: seq<int>, y: Thread): Thread
    requires Looks(y) && ThreadOk(acc, y)
  {
    match y.pc
    case Check => y.(pc := if acc[y.tr.from] >= y.tr.amount then DebitLoad else Release)
    case DebitLoad => y.(pc := DebitStore(acc[y.tr.from]))
    case CreditLoad => y.(pc := CreditStore(acc[y.tr.to]))
    case _ => y.(pc := Idle)
  }

  lemma LookKeeps(acc: seq<int>, y: Thread)
    requires Looks(y) && ThreadOk(acc, y)
    ensures ThreadOk(acc, Looked(acc, y)) && Unlogged(Looked(acc, y)) == Unlogged(y)
            && InTransit(Looked(acc, y)) == InTransit(y)
    ensures forall k: Id :: Pending(acc, Looked(acc, y), k) == Pending(acc, y, k)
  { }

  lemma KeepLook(s: State, s': State, t: Tid, init: seq<int>)
    requires Inv(s, init) && Enabled(s, Next(t)) && Looks(s.threads[t])
    requires s' == Apply(s, Next(t))
    ensures Inv(s', init)
  {
    assert ThreadOk(s.accounts, s.threads[t]);
    var x := Looked(s.accounts, s.threads[t]);
    assert s' == WithThread(s, t, x);
    LookKeeps(s.accounts, s.threads[t]);
    StayThreads(s.accounts, s.threads, t, x);
    StayLocks(s.owner, s.threads, t, x);
    StayBalance(s.accounts, s.owner, s.threads, Serial(init, s.log), t, x);
    StayOrder(s.asked, s.log, s.threads, t, x);
    TransitsUpdate(s.threads, t, x);
  }

  /** Storing what was owed keeps the invariant. */
  lemma Stored(s: State, s': State, t: Tid, x: Thread, k: Id, v: int, init: seq<int>)
    requires Inv(s, init) && t < |s.threads| && Pays(s.accounts, s.threads[t], x, k, v)
    requires s' == State(s.accounts[k := v], s.owner, s.threads[t := x], s.asked, s.log)
    ensures Inv(s', init)
  {
    StoreThreads(s.accounts, s.owner, s.threads, t, x, k, v);
    StayLocks(s.owner, s.threads, t, x);
    StoreBalance(s.accounts, s.owner, s.threads, Serial(init, s.log), t, x, k, v);
    StayOrder(s.asked, s.log, s.threads, t, x);
    TransitsUpdate(s.threads, t, x);
    SumUpdate(s.accounts, k, v);
  }

  /** Storing `v` into account `k` is what thread `y` owes, and makes it `x`. */
  ghost predicate Pays(acc: seq<int>, y: Thread, x: Thread, k: Id, v: int) {
    && k < |acc| && k in y.locked && v >= 0
    && x.locked == y.locked && Unlogged(x) == Unlogged(y) && ThreadOk(acc[k := v], x)
    && v + Pending(acc[k := v], x, k) == acc[k] + Pending(acc, y, k)
    && (forall j: Id :: j != k ==> Pending(acc[k := v], x, j) == Pending(acc, y, j))
    && v + InTransit(x) == acc[k] + InTransit(y)
  }

  lemma DebitPays(acc: seq<int>, y: Thread)
    requires ThreadOk(acc, y) && y.pc.DebitStore?
    ensures Pays(acc, y, y.(pc := CreditLoad), y.tr.from, y.pc.reg - y.tr.amount)
  { }

  lemma CreditPays(acc: seq<int>, y: Thread)
    requires ThreadOk(acc, y) && y.pc.CreditStore? && acc[y.tr.to] >= 0
    ensures Pays(acc, y, y.(pc := Release), y.tr.to, y.pc.reg + y.tr.amount)
  { }

  lemma DebitStep(s: State, t: Tid)
    requires Enabled(s, Next(t)) && s.threads[t].pc.DebitStore?
    ensures s.threads[t].tr.from < |s.accounts|
    ensures var y := s.threads[t];
            Apply(s, Next(t)) ==
              State(s.accounts[y.tr.from := y.pc.reg - y.tr.amount], s.owner, s.threads[t := y.(pc := CreditLoad)],
                    s.asked, s.log)
  {
    assert InRange(s, s.threads[t]);
  }

  lemma CreditStep(s: State, t: Tid)
    requires Enabled(s, Next(t)) && s.threads[t].pc.CreditStore?
    ensures s.threads[t].tr.to < |s.accounts|
    ensures var y := s.threads[t];
            Apply(s, Next(t)) ==
              State(s.accounts[y.tr.to := y.pc.reg + y.tr.amount], s.owner, s.threads[t := y.(pc := Release)], s.asked,
                    s.log)
  {
    assert InRange(s, s.threads[t]);
  }

  lemma KeepDebit(s: State, s': State, t: Tid, init: seq<int>)
    requires Inv(s, init) && t < |s.threads| && s.threads[t].pc.DebitStore? && s.threads[t].tr.from < |s.accounts|
    requires var y := s.threads[t];
             s' == State(s.accounts[y.tr.from := y.pc.reg - y.tr.amount], s.owner, s.threads[t := y.(pc := CreditLoad)],
                         s.asked, s.log)
    ensures Inv(s', init)
  {
    var y := s.threads[t];
    assert ThreadOk(s.accounts, y);
    DebitPays(s.accounts, y);
    Stored(s, s', t, y.(pc := CreditLoad), y.tr.from, y.pc.reg - y.tr.amount, init);
  }

  lemma KeepCredit(s: State, s': State, t: Tid, init: seq<int>)
    requires Inv(s, init) && t < |s.threads| && s.threads[t].pc.CreditStore? && s.threads[t].tr.to < |s.accounts|
    requires var y := s.threads[t];
             s' == State(s.accounts[y.tr.to := y.pc.reg + y.tr.amount], s.owner, s.threads[t := y.(pc := Release)],
                         s.asked, s.log)
    ensures Inv(s', init)
  {
    var y := s.threads[t];
    assert ThreadOk(s.accounts, y);
    CreditPays(s.accounts, y);
    Stored(s, s', t, y.(pc := Release), y.tr.to, y.pc.reg + y.tr.amount, init);
  }

  lemma KeepRelease(s: State, s': State, t: Tid, init: seq<int>)
    requires Inv(s, init) && Enabled(s, Next(t)) && s.threads[t].pc.Release? && s.threads[t].locked != []
    requires s' == Apply(s, Next(t))
    ensures Inv(s', init)
  {
    var y, x := s.threads[t], s'.threads[t];
    assert ThreadOk(s.accounts, y);
    var k := y.locked[|y.locked| - 1];
    assert y.locked == x.locked + [k];
    StayThreads(s.accounts, s.threads, t, x);
    DropLock(s.owner, s.threads, t, x, k);
    assert k in y.locked;
    LockBalance(s.accounts, s.owner, s.threads, Serial(init, s.log), t, x, k, Free);
    StayOrder(s.asked, s.log, s.threads, t, x);
    TransitsUpdate(s.threads, t, x);
  }

  lemma StepInv(s: State, step: Step, init: seq<int>)
    requires Inv(s, init) && Enabled(s, step)
    ensures Inv(Apply(s, step), init)
  {
    match step
    case Begin(t, tr) => KeepBegin(s, t, tr, init);
    case Next(t) =>
      if Looks(s.threads[t]) { KeepLook(s, Apply(s, step), t, init); }
      else if s.threads[t].pc.LockLow? { KeepLockLow(s, Apply(s, step), t, init); }
      else if s.threads[t].pc.LockHigh? { KeepLockHigh(s, Apply(s, step), t, init); }
      else if s.threads[t].pc.Release? { KeepRelease(s, Apply(s, step), t, init); }
      else if s.threads[t].pc.DebitStore? { DebitStep(s, t); KeepDebit(s, Apply(s, step), t, init); }
      else { CreditStep(s, t); KeepCredit(s, Apply(s, step), t, init); }
  }

  lemma {:induction false} NothingInTransit(n: nat, tr: Transfer)
    ensures Sum(Transits(seq(n, _ => Thread(Idle, tr, [])))) == 0
  {
    if n > 0 {
      var xs := seq(n, _ => Thread(Idle, tr, []));
      NothingInTransit(n - 1, tr);
      assert Transits(xs)[..n - 1] == Transits(seq(n - 1, _ => Thread(Idle, tr, [])));
    }
  }

  lemma StartInv(init: seq<int>, n: nat)
    requires forall k :: 0 <= k < |init| ==> init[k] >= 0
    ensures Inv(Start(init, n), init)
  {
    NothingInTransit(n, Transfer(0, 0, 0));
  }

  lemma {:induction false} RunInv(init: seq<int>, ss: seq<State>, steps: seq<Step>, n: nat)
    requires IsRun(init, ss, steps) && n < |ss|
    ensures Inv(ss[n], init)
  {
    if n == 0 {
      StartInv(init, |ss[0].threads|);
    } else {
      RunInv(init, ss, steps, n - 1);
      StepInv(ss[n - 1], steps[n - 1], init);
    }
  }

  // ---------------------------------------------------------------- theorems

  ghost predicate Quiet(s: State) {
    forall t :: 0 <= t < |s.threads| ==> s.threads[t].pc.Idle?
  }

  /**
   Whenever no transfer is under way, the balances are those of executing one by one, in the order of their
   lock points, exactly the transfers the threads began; each thread's own transfers stay in their order.
   */
  lemma Serializable(init: seq<int>, ss: seq<State>, steps: seq<Step>, n: nat)
    requires IsRun(init, ss, steps) && n < |ss| && Quiet(ss[n])
    ensures ss[n].accounts == Serial(init, ss[n].log)
    ensures forall t :: 0 <= t < |ss[n].threads| ==> OfThread(ss[n].log, t) == OfThread(Begun(steps[..n]), t)
    ensures multiset(ss[n].log) == multiset(Begun(steps[..n]))
    ensures Sum(ss[n].accounts) == Sum(init)
  {
    AskedIsBegun(init, ss, steps, n);
    RunInv(init, ss, steps, n);
    QuietBalance(ss[n].accounts, ss[n].owner, ss[n].threads, Serial(init, ss[n].log));
    QuietOrder(ss[n].asked, ss[n].log, ss[n].threads);
    QuietSum(ss[n].threads);
    RunTids(init, ss, steps, n);
    SameEntries(ss[n].log, ss[n].asked, |ss[n].threads|);
  }

  /** The transfers begun, told from the steps; a transfer from an account to itself does nothing. */
  function Begun(steps: seq<Step>): seq<Entry> {
    if steps == [] then []
    else
      var last := steps[|steps| - 1];
      Begun(steps[..|steps| - 1]) + if last.Begin? && last.tr.from != last.tr.to then [Entry(last.t, last.tr)] else []
  }

  lemma StepAsked(s: State, s': State, step: Step)
    requires Enabled(s, step) && s' == Apply(s, step)
    ensures s'.asked == s.asked + if step.Begin? && step.tr.from != step.tr.to then [Entry(step.t, step.tr)] else []
  { }

  lemma {:induction false} AskedIsBegun(init: seq<int>, ss: seq<State>, steps: seq<Step>, n: nat)
    requires IsRun(init, ss, steps) && n < |ss|
    ensures ss[n].asked == Begun(steps[..n])
  {
    if n > 0 {
      AskedIsBegun(init, ss, steps, n - 1);
      StepAsked(ss[n - 1], ss[n], steps[n - 1]);
      assert steps[..n][..n - 1] == steps[..n - 1];
    }
  }

  /** What one transfer does: all of a balance can go, one more cannot, and only the two accounts change. */
  lemma ExecMeans(bal: seq<int>, from: Id, to: Id, amount: nat, k: Id)
    requires from < |bal| && to < |bal| && from != to && bal[from] >= 0 && k < |bal|
    ensures amount > bal[from] <==> Exec(bal, Transfer(from, to, amount)) == bal && amount != 0
    ensures amount <= bal[from] ==>
              Exec(bal, Transfer(from, to, amount))[k] - bal[k] ==
                if k == from then 0 - amount else if k == to then amount else 0
    ensures Exec(bal, Transfer(from, from, amount)) == bal
  {
    var after := Exec(bal, Transfer(from, to, amount));
    if 0 < amount <= bal[from] { assert after[from] != bal[from]; }
  }

  /** All entries are of threads in the table. */
  ghost predicate TidsOk(xs: seq<Entry>, n: nat) {
    forall i :: 0 <= i < |xs| ==> xs[i].t < n
  }

  lemma StepTids(s: State, step: Step)
    requires Enabled(s, step) && TidsOk(s.asked, |s.threads|) && TidsOk(s.log, |s.threads|)
    ensures var s' := Apply(s, step); TidsOk(s'.asked, |s'.threads|) && TidsOk(s'.log, |s'.threads|)
  { }

  lemma {:induction false} RunTids(init: seq<int>, ss: seq<State>, steps: seq<Step>, n: nat)
    requires IsRun(init, ss, steps) && n < |ss|
    ensures TidsOk(ss[n].asked, |ss[n].threads|) && TidsOk(ss[n].log, |ss[n].threads|)
  {
    if n > 0 {
      RunTids(init, ss, steps, n - 1);
      StepTids(ss[n - 1], steps[n - 1]);
    }
  }

  lemma {:induction false} CountOfThread(xs: seq<Entry>, e: Entry)
    ensures multiset(xs)[e] == multiset(OfThread(xs, e.t))[e.tr]
  {
    if xs != [] {
      var n := |xs| - 1;
      CountOfThread(xs[..n], e);
      assert xs == xs[..n] + [xs[n]];
    }
  }

  /** Lists of entries that agree thread by thread have the same entries. */
  lemma SameEntries(xs: seq<Entry>, ys: seq<Entry>, n: nat)
    requires TidsOk(xs, n) && TidsOk(ys, n) && forall t :: 0 <= t < n ==> OfThread(xs, t) == OfThread(ys, t)
    ensures multiset(xs) == multiset(ys)
  {
    forall e: Entry ensures multiset(xs)[e] == multiset(ys)[e] {
      CountOfThread(xs, e);
      CountOfThread(ys, e);
      if e.t >= n { assert e !in xs && e !in ys; }
    }
  }

  lemma QuietBalance(acc: seq<int>, owner: seq<Owner>, threads: seq<Thread>, serial: seq<int>)
    requires BalanceOk(acc, owner, threads, serial) && forall t :: 0 <= t < |threads| ==> threads[t].pc.Idle?
    ensures acc == serial
  {
    assert forall k: Id :: k < |acc| ==> Due(acc, owner[k], threads, k) == 0;
  }

  lemma QuietOrder(asked: seq<Entry>, log: seq<Entry>, threads: seq<Thread>)
    requires OrderOk(asked, log, threads) && forall t :: 0 <= t < |threads| ==> threads[t].pc.Idle?
    ensures forall t :: 0 <= t < |threads| ==> OfThread(log, t) == OfThread(asked, t)
  {
    forall t | 0 <= t < |threads| ensures OfThread(log, t) == OfThread(asked, t) {
      assert Unlogged(threads[t]) == [];
    }
  }

  lemma {:induction false} QuietSum(xs: seq<Thread>)
    requires forall t :: 0 <= t < |xs| ==> xs[t].pc.Idle?
    ensures Sum(Transits(xs)) == 0
    decreases |xs|
  {
    if xs != [] {
      var n := |xs| - 1;
      QuietSum(xs[..n]);
      assert Transits(xs)[..n] == Transits(xs[..n]);
    }
  }

  /** In every state between steps no money is lost or made, and no account is overdrawn or above the total. */
  lemma MoneyKept(init: seq<int>, ss: seq<State>, steps: seq<Step>, n: nat)
    requires IsRun(init, ss, steps) && n < |ss|
    ensures Sum(ss[n].accounts) + Sum(Transits(ss[n].threads)) == Sum(init)
    ensures forall k :: 0 <= k < |ss[n].accounts| ==> 0 <= ss[n].accounts[k] <= Sum(init)
  {
    RunInv(init, ss, steps, n);
    var s := ss[n];
    PartOfSum(Transits(s.threads));
    PartOfSum(s.accounts);
  }

  lemma {:induction false} PartOfSum(s: seq<int>)
    requires forall k :: 0 <= k < |s| ==> s[k] >= 0
    ensures Sum(s) >= 0 && forall k :: 0 <= k < |s| ==> s[k] <= Sum(s)
  {
    if s != [] {
      var n := |s| - 1;
      PartOfSum(s[..n]);
      assert forall k :: 0 <= k < n ==> s[k] == s[..n][k];
    }
  }

  // ---------------------------------------------------------------- waiting

  /** The account a thread wants to lock next. */
  function Wanted(x: Thread): Id {
    if x.pc.LockLow? then Low(x.tr) else High(x.tr)
  }

  ghost predicate WaitsFor(s: State, t: Tid, u: Tid) {
    && t < |s.threads| && u < |s.threads|
    && (s.threads[t].pc.LockLow? || s.threads[t].pc.LockHigh?)
    && Wanted(s.threads[t]) in s.threads[u].locked
    && Wanted(s.threads[t]) !in s.threads[t].locked
  }

  /** Along a chain of waits the wanted accounts go up. */
  lemma WaitsUp(s: State, init: seq<int>, t: Tid, u: Tid, v: Tid)
    requires Inv(s, init) && WaitsFor(s, t, u) && WaitsFor(s, u, v)
    ensures Wanted(s.threads[t]) < Wanted(s.threads[u])
  {
    assert ThreadOk(s.accounts, s.threads[t]) && ThreadOk(s.accounts, s.threads[u]);
  }

  lemma {:induction false} ChainUp(s: State, init: seq<int>, ts: seq<Tid>, n: nat)
    requires Inv(s, init) && 1 <= n < |ts| - 1
    requires forall i :: 0 <= i < |ts| - 1 ==> WaitsFor(s, ts[i], ts[i + 1])
    ensures ts[0] < |s.threads| && ts[n] < |s.threads| && Wanted(s.threads[ts[0]]) < Wanted(s.threads[ts[n]])
  {
    assert WaitsFor(s, ts[n - 1], ts[n - 1 + 1]) && WaitsFor(s, ts[n], ts[n + 1]);
    WaitsUp(s, init, ts[n - 1], ts[n], ts[n + 1]);
    if n > 1 { ChainUp(s, init, ts, n - 1); }
  }

  /** No reachable state has threads waiting in a ring, of any length. */
  lemma NoCyclicWait(init: seq<int>, ss: seq<State>, steps: seq<Step>, n: nat, ts: seq<Tid>)
    requires IsRun(init, ss, steps) && n < |ss| && |ts| >= 2
    requires forall i :: 0 <= i < |ts| - 1 ==> WaitsFor(ss[n], ts[i], ts[i + 1])
    ensures ts[0] != ts[|ts| - 1]
  {
    RunInv(init, ss, steps, n);
    var s := ss[n];
    if ts[0] == ts[|ts| - 1] {
      var around := ts + [ts[1]];
      forall i | 0 <= i < |around| - 1 ensures WaitsFor(s, around[i], around[i + 1]) {
        if i == |ts| - 1 { assert WaitsFor(s, ts[0], ts[0 + 1]); } else { assert WaitsFor(s, ts[i], ts[i + 1]); }
      }
      ChainUp(s, init, around, |ts| - 1);
    }
  }

  /** From any transfer under way, following the waits leads to a thread that can move. */
  lemma {:induction false} SomeMove(s: State, init: seq<int>, t: Tid) returns (u: Tid)
    requires Inv(s, init) && t < |s.threads| && !s.threads[t].pc.Idle?
    ensures Enabled(s, Next(u))
    decreases if s.threads[t].pc.LockLow? || s.threads[t].pc.LockHigh? then |init| - Wanted(s.threads[t]) else -1
  {
    forall v | 0 <= v < |s.threads| ensures InRange(s, s.threads[v]) { assert ThreadOk(s.accounts, s.threads[v]); }
    var x := s.threads[t];
    assert ThreadOk(s.accounts, x);
    u := t;
    if x.pc.LockLow? || x.pc.LockHigh? {
      var k := Wanted(x);
      if !s.owner[k].Free? {
        var v := s.owner[k].t;
        assert ThreadOk(s.accounts, s.threads[v]) && k in s.threads[v].locked;
        u := SomeMove(s, init, v);
      }
    }
  }

  /** No reachable state with a transfer under way is stuck. */
  lemma NeverStuck(init: seq<int>, ss: seq<State>, steps: seq<Step>, n: nat)
    requires IsRun(init, ss, steps) && n < |ss| && !Quiet(ss[n])
    ensures exists u :: Enabled(ss[n], Next(u))
  {
    RunInv(init, ss, steps, n);
    var t :| 0 <= t < |ss[n].threads| && !ss[n].threads[t].pc.Idle?;
    var u := SomeMove(ss[n], init, t);
  }

  /** `total_balance`. */
  method TotalBalance(accounts: seq<int>) returns (sum: int)
    ensures sum == Sum(accounts)
  {
    sum := 0;
    for i := 0 to |accounts|
      invariant sum == Sum(accounts[..i])
    {
      assert accounts[..i + 1][..i] == accounts[..i];
      sum := sum + accounts[i];
    }
    assert accounts[..|accounts|] == accounts;
  }
}
