/** What every run of the request queue keeps, and that no run gets stuck. */
module QueueRuns {
  import opened BoundedQueue

  /** Items leave in the order they came, and at most `cap` are under way. */
  lemma FirstInFirstOut(cap: nat, quotas: seq<nat>, workers: nat, ss: seq<State>, steps: seq<Step>, n: nat)
    requires IsRun(cap, quotas, workers, ss, steps) && n < |ss|
    ensures ss[n].taken <= ss[n].put && |ss[n].put| - |ss[n].taken| <= cap
  {
    RunInv(cap, quotas, workers, ss, steps, n);
    RunSizes(cap, quotas, workers, ss, steps, n);
  }

  lemma {:induction false} NumIn(x: int, xs: seq<int>)
    ensures Num(Is(x), xs) > 0 <==> x in xs
  {
    if xs != [] {
      var n := |xs| - 1;
      NumIn(x, xs[..n]);
      assert xs == xs[..n] + [xs[n]];
    }
  }

  lemma {:induction false} NumConcat(x: int, a: seq<int>, b: seq<int>)
    ensures Num(Is(x), a + b) == Num(Is(x), a) + Num(Is(x), b)
  {
    if b == [] {
      assert a + b == a;
    } else {
      var n := |b| - 1;
      NumConcat(x, a, b[..n]);
      assert (a + b)[..|a + b| - 1] == a + b[..n];
    }
  }

  lemma {:induction false} NoneLeft(ps: seq<Producer>)
    requires forall i :: 0 <= i < |ps| ==> ps[i].left == 0
    ensures SumLeft(ps) == 0
    decreases |ps|
  {
    if ps != [] { NoneLeft(ps[..|ps| - 1]); }
  }

  /** When the clients are gone every request has been drawn and put. */
  lemma AllPut(s: State, total: nat, x: int)
    requires Inv(s, total) && ClientsGone(s.ps) && 1 <= x <= total
    ensures x in s.put
  {
    var n := |s.ps| - 1;
    NoneLeft(s.ps[..n]);
    assert Placed(s.put, s.ps, s.nextId, x);
    NumNone(Holds(x), s.ps);
    NumIn(x, s.put);
  }

  /** A worker that takes a stop item finds that every request has been taken before it. */
  lemma NoEarlyStop(cap: nat, quotas: seq<nat>, workers: nat, ss: seq<State>, steps: seq<Step>, n: nat, x: int)
    requires IsRun(cap, quotas, workers, ss, steps) && n < |ss| && STOP in ss[n].taken && 1 <= x <= Total(quotas)
    ensures x in ss[n].taken
  {
    RunInv(cap, quotas, workers, ss, steps, n);
    var s := ss[n];
    assert STOP in s.put;
    AllPut(s, Total(quotas), x);
    var a :| 0 <= a < |s.taken| && s.taken[a] == STOP;
    var b :| 0 <= b < |s.put| && s.put[b] == x;
    assert s.put[a] == STOP;
    assert b < a;
    assert s.taken[b] == s.put[b];
  }

  /** No request is handled twice or made up, and no stop item is handled as a request. */
  lemma AtMostOnce(cap: nat, quotas: seq<nat>, workers: nat, ss: seq<State>, steps: seq<Step>, n: nat, x: int)
    requires IsRun(cap, quotas, workers, ss, steps) && n < |ss|
    ensures Num(Is(x), ss[n].handled) <= if 1 <= x <= Total(quotas) then 1 else 0
  {
    RunInv(cap, quotas, workers, ss, steps, n);
    var s := ss[n];
    assert Accounted(s.taken, s.handled, s.ws, x);
    NumConcat(x, s.taken, Items(s.ring));
    NumIn(x, s.handled);
    if x != STOP { assert Placed(s.put, s.ps, s.nextId, x); }
  }

  // ---------------------------------------------------------------- who took the stop items

  /** The stop items taken by worker `j`. */
  function StopsTaken(takers: seq<nat>, taken: seq<int>, j: nat): nat
    requires |takers| == |taken|
  {
    if taken == [] then 0
    else
      var n := |taken| - 1;
      StopsTaken(takers[..n], taken[..n], j) + if takers[n] == j && taken[n] == STOP then 1 else 0
  }

  ghost predicate OneStop(takers: seq<nat>, taken: seq<int>, ws: seq<Worker>, j: nat)
    requires |takers| == |taken| && j < |ws|
  {
    StopsTaken(takers, taken, j) == if Has(STOP)(ws[j]) then 1 else 0
  }

  /** A worker has taken a stop item when it holds one or has returned, and then one only. */
  ghost predicate TakersOk(s: State) {
    && |s.takers| == |s.taken|
    && (forall i :: 0 <= i < |s.takers| ==> s.takers[i] < |s.ws|)
    && (forall j: nat :: j < |s.ws| ==> OneStop(s.takers, s.taken, s.ws, j))
  }

  lemma TakeStops(takers: seq<nat>, taken: seq<int>, taker: nat, x: int, j: nat)
    requires |takers| == |taken|
    ensures StopsTaken(takers + [taker], taken + [x], j) ==
              StopsTaken(takers, taken, j) + if taker == j && x == STOP then 1 else 0
  {
    assert (takers + [taker])[..|taken|] == takers && (taken + [x])[..|taken|] == taken;
  }

  lemma TakeOneStop(takers: seq<nat>, taken: seq<int>, ws: seq<Worker>, taker: nat, x: int, j: nat)
    requires |takers| == |taken| && taker < |ws| && ws[taker].WTake? && j < |ws| && OneStop(takers, taken, ws, j)
    ensures OneStop(takers + [taker], taken + [x], ws[taker := WSignal(x)], j)
  {
    TakeStops(takers, taken, taker, x, j);
  }

  lemma KeepTakers(s: State, s': State, step: Step)
    requires TakersOk(s) && Enabled(s, step) && s' == Apply(s, step)
    ensures TakersOk(s')
  {
    forall j: nat | j < |s'.ws| ensures OneStop(s'.takers, s'.taken, s'.ws, j) {
      assert OneStop(s.takers, s.taken, s.ws, j);
      if step.WStep? && s.ws[step.j].WTake? {
        TakeOneStop(s.takers, s.taken, s.ws, step.j, s.ring.buf[s.ring.head], j);
      }
    }
  }

  lemma {:induction false} RunTakers(cap: nat, quotas: seq<nat>, workers: nat, ss: seq<State>, steps: seq<Step>, n: nat)
    requires IsRun(cap, quotas, workers, ss, steps) && n < |ss|
    ensures TakersOk(ss[n])
  {
    if n > 0 {
      RunTakers(cap, quotas, workers, ss, steps, n - 1);
      KeepTakers(ss[n - 1], ss[n], steps[n - 1]);
    }
  }

  // ---------------------------------------------------------------- items still to be put

  /** Items that are drawn or still to be drawn. */
  function Owed(ps: seq<Producer>): nat {
    SumLeft(ps) + Num(Holding, ps)
  }

  lemma OwedUpdate(ps: seq<Producer>, i: nat, p: Producer)
    requires i < |ps|
    ensures Owed(ps[i := p]) == Owed(ps) - ToStop(ps[i]) + ToStop(p)
  {
    LeftUpdate(ps, i, p);
    NumUpdate(Holding, ps, i, p);
  }

  lemma StepOwed(s: State, s': State, step: Step)
    requires Enabled(s, step) && s' == Apply(s, step)
    ensures |s'.put| + Owed(s'.ps) == |s.put| + Owed(s.ps)
  {
    match step
    case PStep(i, _) =>
      assert s'.ps == s.ps[i := s'.ps[i]];
      OwedUpdate(s.ps, i, s'.ps[i]);
    case WStep(_, wake) => OwedWake(s.ps, wake);
    case SpuriousP(i) => OwedWake(s.ps, i);
    case SpuriousW(_) =>
  }

  lemma OwedWake(ps: seq<Producer>, wake: nat)
    ensures Owed(WakeP(ps, wake)) == Owed(ps)
  {
    if wake < |ps| { OwedUpdate(ps, wake, WakeP(ps, wake)[wake]); }
  }

  lemma StartOwed(cap: nat, quotas: seq<nat>, workers: nat)
    ensures Owed(Start(cap, quotas, workers).ps) == Total(quotas) + workers
  {
    var ps := Start(cap, quotas, workers).ps;
    StartLeft(quotas);
    assert ps[..|ps| - 1] == seq(|quotas|, i requires 0 <= i < |quotas| => Producer(Fetch, quotas[i]));
    NumNone(Holding, ps);
  }

  /** Every request and every stop item has been put, or is still to be put. */
  lemma {:induction false} RunOwed(cap: nat, quotas: seq<nat>, workers: nat, ss: seq<State>, steps: seq<Step>, n: nat)
    requires IsRun(cap, quotas, workers, ss, steps) && n < |ss|
    ensures |ss[n].put| + Owed(ss[n].ps) == Total(quotas) + workers
  {
    if n == 0 {
      StartOwed(cap, quotas, workers);
    } else {
      RunOwed(cap, quotas, workers, ss, steps, n - 1);
      StepOwed(ss[n - 1], ss[n], steps[n - 1]);
    }
  }

  // ---------------------------------------------------------------- when all threads have returned

  lemma TakenBySome(s: State)
    requires TakersOk(s) && s.taken != []
    ensures s.ws != []
  {
    assert s.takers[0] < |s.ws|;
  }

  lemma HandledIsTaken(s: State, total: nat)
    requires Inv(s, total) && s.handled != []
    ensures s.taken != []
  {
    NumIn(s.handled[0], s.handled);
    assert Accounted(s.taken, s.handled, s.ws, s.handled[0]);
  }

  /** Without workers nothing is taken, and the clients cannot all return if their requests do not fit the buffer. */
  lemma NoWorkers(cap: nat, quotas: seq<nat>, ss: seq<State>, steps: seq<Step>, n: nat)
    requires IsRun(cap, quotas, 0, ss, steps) && n < |ss|
    ensures ss[n].taken == [] && ss[n].handled == []
    ensures Total(quotas) > cap ==> !Finished(ss[n])
  {
    var s := ss[n];
    RunInv(cap, quotas, 0, ss, steps, n);
    RunSizes(cap, quotas, 0, ss, steps, n);
    RunTakers(cap, quotas, 0, ss, steps, n);
    RunOwed(cap, quotas, 0, ss, steps, n);
    if s.taken != [] { TakenBySome(s); }
    if s.handled != [] { HandledIsTaken(s, Total(quotas)); }
    if Finished(s) { NothingOwed(s, Total(quotas)); }
  }

  /** When the producers have returned nothing is owed. */
  lemma NothingOwed(s: State, total: nat)
    requires Inv(s, total) && forall i :: 0 <= i < |s.ps| ==> s.ps[i].pc.PGone?
    ensures Owed(s.ps) == 0
  {
    NoneLeft(s.ps);
    NumNone(Holding, s.ps);
  }

  /** Request `x` was handled once if there is such a request, and not at all if there is none. */
  ghost predicate Once(s: State, total: nat, x: int) {
    Num(Is(x), s.handled) == if 1 <= x <= total then 1 else 0
  }

  /**
   When all threads have returned, every request was handled exactly once, if and only if there was a
   worker or nothing to do; and each worker took exactly one stop item.
   */
  lemma ExactlyOnce(cap: nat, quotas: seq<nat>, workers: nat, ss: seq<State>, steps: seq<Step>, n: nat)
    requires IsRun(cap, quotas, workers, ss, steps) && n < |ss| && Finished(ss[n])
    ensures (forall x :: Once(ss[n], Total(quotas), x)) <==> workers > 0 || Total(quotas) == 0
    ensures |ss[n].takers| == |ss[n].taken|
    ensures forall j: nat :: j < workers ==> StopsTaken(ss[n].takers, ss[n].taken, j) == 1
  {
    RunSizes(cap, quotas, workers, ss, steps, n);
    RunTakers(cap, quotas, workers, ss, steps, n);
    forall j: nat | j < workers ensures StopsTaken(ss[n].takers, ss[n].taken, j) == 1 {
      assert OneStop(ss[n].takers, ss[n].taken, ss[n].ws, j);
    }
    if workers == 0 {
      NoWorkers(cap, quotas, ss, steps, n);
      if Total(quotas) > 0 { assert !Once(ss[n], Total(quotas), 1); }
    } else {
      forall x ensures Once(ss[n], Total(quotas), x) { HandledOnce(cap, quotas, workers, ss, steps, n, x); }
    }
  }

  lemma HandledOnce(cap: nat, quotas: seq<nat>, workers: nat, ss: seq<State>, steps: seq<Step>, n: nat, x: int)
    requires IsRun(cap, quotas, workers, ss, steps) && n < |ss| && workers > 0 && Finished(ss[n])
    ensures Once(ss[n], Total(quotas), x)
  {
    RunInv(cap, quotas, workers, ss, steps, n);
    RunSizes(cap, quotas, workers, ss, steps, n);
    var s := ss[n];
    AtMostOnce(cap, quotas, workers, ss, steps, n, x);
    if 1 <= x <= Total(quotas) {
      AllPut(s, Total(quotas), x);
      AllTaken(s, Total(quotas), x);
      NumNone(Has(x), s.ws);
      NumIn(x, s.taken);
      assert Accounted(s.taken, s.handled, s.ws, x);
    }
  }

  /** When all workers are gone nothing that was put is left in the buffer. */
  lemma AllTaken(s: State, total: nat, x: int)
    requires Inv(s, total) && WorkersGone(s.ws) && |s.ws| > 0 && x in s.put
    ensures x in s.taken
  {
    NumAll(Has(STOP), s.ws);
    assert Accounted(s.taken, s.handled, s.ws, STOP);
    NumIn(STOP, s.handled);
    NumIn(STOP, s.taken);
    NumConcat(STOP, s.taken, Items(s.ring));
    NumIn(STOP, Items(s.ring));
    AfterStop(s.taken, Items(s.ring));
  }

  /** After a stop item there are only stop items. */
  lemma AfterStop(taken: seq<int>, items: seq<int>)
    requires StopsLast(taken + items) && STOP in taken
    ensures items == [] || STOP in items
  {
    var a :| 0 <= a < |taken| && taken[a] == STOP;
    if items != [] {
      assert (taken + items)[a] == STOP && (taken + items)[|taken|] == items[0];
    }
  }

  // ---------------------------------------------------------------- no run gets stuck

  /** A step other than a spurious wakeup. */
  predicate Own(step: Step) {
    step.PStep? || step.WStep?
  }

  /** Whoever has the mutex can go on. */
  lemma HolderMoves(s: State, total: nat) returns (step: Step)
    requires Inv(s, total) && !s.mutex.Free?
    ensures Own(step) && Enabled(s, step)
  {
    if s.mutex.ByP? {
      var i := s.mutex.i;
      assert PHolds(s.ps[i]);
      step := PStep(i, 0);
      if s.ps[i].pc.PSignal? && !NoWWaits(s.ws) {
        var j :| 0 <= j < |s.ws| && s.ws[j].WWait?;
        step := PStep(i, j);
      }
    } else {
      var j := s.mutex.j;
      assert WHolds(s.ws[j]);
      step := WStep(j, 0);
      if s.ws[j].WSignal? && !NoPWaits(s.ps) {
        var i :| 0 <= i < |s.ps| && s.ps[i].pc.PWait?;
        step := WStep(j, i);
      }
    }
  }

  /** Every thread is waiting for a signal or has returned; the main thread may also be between items. */
  ghost predicate Asleep(s: State) {
    && (forall i :: 0 <= i < |s.ps| ==> s.ps[i].pc.PWait? || s.ps[i].pc.PGone? || (IsMain(s, i) && s.ps[i].pc.Fetch?))
    && (forall j :: 0 <= j < |s.ws| ==> s.ws[j].WWait? || s.ws[j].WGone?)
  }

  /** With the mutex free, someone who is not asleep can go on. */
  lemma AwakeMoves(s: State, total: nat) returns (step: Step)
    requires Inv(s, total) && s.mutex.Free? && !Asleep(s)
    ensures Own(step) && Enabled(s, step)
  {
    if i: nat :| i < |s.ps| && !(s.ps[i].pc.PWait? || s.ps[i].pc.PGone? || (IsMain(s, i) && s.ps[i].pc.Fetch?)) {
      assert !PHolds(s.ps[i]);
      step := PStep(i, 0);
    } else {
      var j: nat :| j < |s.ws| && !(s.ws[j].WWait? || s.ws[j].WGone?);
      assert !WHolds(s.ws[j]);
      step := WStep(j, 0);
    }
  }

  /** Asleep with a worker waiting, the buffer is empty; with a producer waiting, it is full. */
  lemma AsleepBuffer(s: State, total: nat)
    requires Inv(s, total) && Asleep(s)
    ensures !NoWWaits(s.ws) ==> s.ring.count == 0
    ensures !NoPWaits(s.ps) ==> s.ring.count == |s.ring.buf|
  {
    NumNone(WWaits, s.ws);
    NumNone(PWaits, s.ps);
    NumNone(WActive, s.ws);
    NumNone(PActive, s.ps);
    NumNone(WSignals, s.ws);
    NumNone(PSignals, s.ps);
  }

  /** Stop items: all put means all taken if the buffer is empty, and all workers stopped means all were put. */
  lemma StopCounts(s: State, total: nat)
    requires Inv(s, total)
    ensures s.ps[|s.ps| - 1].left == 0 && !Holding(s.ps[|s.ps| - 1]) && s.ring.count == 0 ==> NoWWaits(s.ws)
    ensures WorkersGone(s.ws) ==> s.ps[|s.ps| - 1].left == 0 && !Holding(s.ps[|s.ps| - 1])
    ensures WorkersGone(s.ws) && |s.ws| > 0 ==> ClientsGone(s.ps)
  {
    NumAll(Has(STOP), s.ws);
    assert Accounted(s.taken, s.handled, s.ws, STOP);
    NumIn(STOP, s.handled);
    NumConcat(STOP, s.taken, Items(s.ring));
    NumIn(STOP, s.put);
    NumIn(STOP, Items(s.ring));
  }

  /** A producer that waits for room owes an item, so there are more items than slots. */
  lemma WaitOwes(s: State, total: nat)
    requires Inv(s, total) && !NoPWaits(s.ps) && s.ring.count == |s.ring.buf|
    ensures |s.put| + Owed(s.ps) > |s.ring.buf|
  {
    NumNone(Holding, s.ps);
  }

  /** With everyone asleep, it can only be the main thread's turn, or all is finished. */
  lemma AsleepMoves(s: State, total: nat) returns (step: Step)
    requires Inv(s, total) && Asleep(s) && !Finished(s) && (|s.ws| > 0 || |s.put| + Owed(s.ps) <= |s.ring.buf|)
    ensures Own(step) && Enabled(s, step)
  {
    AsleepBuffer(s, total);
    StopCounts(s, total);
    step := PStep(|s.ps| - 1, 0);
    if |s.ws| == 0 {
      if !NoPWaits(s.ps) { WaitOwes(s, total); }
    } else if NoWWaits(s.ws) {
      assert WorkersGone(s.ws);
    } else {
      assert NoPWaits(s.ps);
    }
  }

  /**
   Whatever the interleaving and the spurious wakeups, some thread can go on until all have returned,
   if there is a worker or the requests fit the buffer.
   */
  lemma NeverStuck(cap: nat, quotas: seq<nat>, workers: nat, ss: seq<State>, steps: seq<Step>, n: nat)
      returns (step: Step)
    requires IsRun(cap, quotas, workers, ss, steps) && n < |ss| && !Finished(ss[n])
    requires workers > 0 || Total(quotas) <= cap
    ensures Own(step) && Enabled(ss[n], step)
  {
    RunInv(cap, quotas, workers, ss, steps, n);
    RunSizes(cap, quotas, workers, ss, steps, n);
    RunOwed(cap, quotas, workers, ss, steps, n);
    var s, total := ss[n], Total(quotas);
    if !s.mutex.Free? {
      step := HolderMoves(s, total);
    } else if !Asleep(s) {
      step := AwakeMoves(s, total);
    } else {
      step := AsleepMoves(s, total);
    }
  }
}
