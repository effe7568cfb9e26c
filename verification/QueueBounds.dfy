/**
 Every run of the request queue ends: a bound on its length, and when it ends with all threads returned.
 No fairness is needed, since no thread ever spins.
 */
module QueueBounds {
  import opened BoundedQueue
  import opened QueueRuns

  /** The steps a producer can still take, with what it pays for the steps its signals and items give to others. */
  function PCost(p: Producer): nat {
    16 * p.left +
    match p.pc
    case Fetch => 1
    case PLock(_) => 16
    case PTest(_) => 15
    case PPut(_) => 14
    case PWait(_) => 14
    case PWoken(_) => 16
    case PSignal => 5
    case PUnlock => 2
    case PGone => 0
  }

  function WCost(w: Worker): nat {
    match w
    case WLock => 2
    case WTest => 1
    case WTake => 0
    case WWait => 0
    case WWoken => 2
    case WSignal(_) => 7
    case WUnlock(_) => 4
    case Handle(_) => 3
    case WGone => 0
  }

  function CostOf<T(!new)>(f: T -> nat, xs: seq<T>): nat {
    if xs == [] then 0 else CostOf(f, xs[..|xs| - 1]) + f(xs[|xs| - 1])
  }

  lemma {:induction false} CostUpdate<T(!new)>(f: T -> nat, xs: seq<T>, i: nat, x: T)
    requires i < |xs|
    ensures CostOf(f, xs[i := x]) == CostOf(f, xs) - f(xs[i]) + f(x)
    decreases |xs|
  {
    var n := |xs| - 1;
    if i < n {
      CostUpdate(f, xs[..n], i, x);
      assert xs[i := x][..n] == xs[..n][i := x];
    } else {
      assert xs[i := x][..n] == xs[..n];
    }
  }

  /** Each item in the buffer pays for the worker that takes it. */
  function Cost(s: State): int {
    CostOf(PCost, s.ps) + CostOf(WCost, s.ws) + 8 * s.ring.count
  }

  lemma WakePCost(ps: seq<Producer>, wake: nat)
    ensures CostOf(PCost, WakeP(ps, wake)) <= CostOf(PCost, ps) + 2
  {
    if wake < |ps| { CostUpdate(PCost, ps, wake, WakeP(ps, wake)[wake]); }
  }

  lemma WakeWCost(ws: seq<Worker>, wake: nat)
    ensures CostOf(WCost, WakeW(ws, wake)) <= CostOf(WCost, ws) + 2
  {
    if wake < |ws| { CostUpdate(WCost, ws, wake, WakeW(ws, wake)[wake]); }
  }

  lemma PStepCost(s: State, s': State, i: nat, wake: nat)
    requires Enabled(s, PStep(i, wake)) && s' == PNext(s, i, wake)
    ensures Cost(s') < Cost(s)
  {
    assert s'.ps == s.ps[i := s'.ps[i]];
    CostUpdate(PCost, s.ps, i, s'.ps[i]);
    WakeWCost(s.ws, wake);
  }

  lemma WStepCost(s: State, s': State, j: nat, wake: nat)
    requires Enabled(s, WStep(j, wake)) && s' == WNext(s, j, wake)
    ensures Cost(s') < Cost(s)
  {
    assert s'.ws == s.ws[j := s'.ws[j]];
    CostUpdate(WCost, s.ws, j, s'.ws[j]);
    WakePCost(s.ps, wake);
  }

  /** A step of a thread's own lowers the cost, and a spurious wakeup raises it by two at most. */
  lemma StepCost(s: State, s': State, step: Step)
    requires Enabled(s, step) && s' == Apply(s, step)
    ensures Cost(s') <= Cost(s) + if Own(step) then -1 else 2
  {
    match step
    case PStep(i, wake) => PStepCost(s, s', i, wake);
    case WStep(j, wake) => WStepCost(s, s', j, wake);
    case SpuriousP(i) => WakePCost(s.ps, i);
    case SpuriousW(j) => WakeWCost(s.ws, j);
  }

  function Spurious(steps: seq<Step>): nat {
    if steps == [] then 0 else Spurious(steps[..|steps| - 1]) + if Own(steps[|steps| - 1]) then 0 else 1
  }

  lemma {:induction false} StartPCost(ps: seq<Producer>)
    requires forall i :: 0 <= i < |ps| ==> ps[i].pc.Fetch?
    ensures CostOf(PCost, ps) == 16 * SumLeft(ps) + |ps|
    decreases |ps|
  {
    if ps != [] { StartPCost(ps[..|ps| - 1]); }
  }

  lemma {:induction false} StartWCost(ws: seq<Worker>)
    requires forall j :: 0 <= j < |ws| ==> ws[j].WLock?
    ensures CostOf(WCost, ws) == 2 * |ws|
    decreases |ws|
  {
    if ws != [] { StartWCost(ws[..|ws| - 1]); }
  }

  function Bound(quotas: seq<nat>, workers: nat): nat {
    16 * Total(quotas) + 18 * workers + |quotas| + 1
  }

  lemma StartCost(cap: nat, quotas: seq<nat>, workers: nat)
    ensures Cost(Start(cap, quotas, workers)) == Bound(quotas, workers)
  {
    var s := Start(cap, quotas, workers);
    StartPCost(s.ps);
    StartWCost(s.ws);
    StartOwed(cap, quotas, workers);
    NumNone(Holding, s.ps);
  }

  lemma {:induction false} RunCost(cap: nat, quotas: seq<nat>, workers: nat, ss: seq<State>, steps: seq<Step>, n: nat)
    requires IsRun(cap, quotas, workers, ss, steps) && n < |ss|
    ensures Cost(ss[n]) + n <= Bound(quotas, workers) + 3 * Spurious(steps[..n])
  {
    if n == 0 {
      StartCost(cap, quotas, workers);
    } else {
      RunCost(cap, quotas, workers, ss, steps, n - 1);
      StepCost(ss[n - 1], ss[n], steps[n - 1]);
      assert steps[..n][..n - 1] == steps[..n - 1];
    }
  }

  /** The length of a run is bounded by the items, the threads and the spurious wakeups in it. */
  lemma RunLength(cap: nat, quotas: seq<nat>, workers: nat, ss: seq<State>, steps: seq<Step>)
    requires IsRun(cap, quotas, workers, ss, steps)
    ensures |steps| <= 16 * Total(quotas) + 18 * workers + |quotas| + 1 + 3 * Spurious(steps)
  {
    RunCost(cap, quotas, workers, ss, steps, |steps|);
    RunInv(cap, quotas, workers, ss, steps, |steps|);
    assert steps[..|steps|] == steps;
  }

  /** No thread can take a step of its own. */
  ghost predicate Ended(s: State) {
    forall step :: Own(step) ==> !Enabled(s, step)
  }

  /** Any run can go on, with steps of the threads only, to an end. */
  lemma {:induction false} ReachesEnd(cap: nat, quotas: seq<nat>, workers: nat, ss: seq<State>, steps: seq<Step>)
      returns (ss': seq<State>, steps': seq<Step>)
    requires IsRun(cap, quotas, workers, ss, steps)
    ensures IsRun(cap, quotas, workers, ss', steps') && Ended(ss'[|steps'|]) && steps <= steps'
    decreases Cost(ss[|steps|])
  {
    var s := ss[|steps|];
    RunInv(cap, quotas, workers, ss, steps, |steps|);
    if step :| Own(step) && Enabled(s, step) {
      var s1 := Apply(s, step);
      StepCost(s, s1, step);
      ss', steps' := ReachesEnd(cap, quotas, workers, ss + [s1], steps + [step]);
    } else {
      ss', steps' := ss, steps;
    }
  }

  /**
   Every run that has ended has all threads returned, if and only if there is a worker or the requests fit the buffer.
   */
  lemma EndIsFinishedIff(cap: nat, quotas: seq<nat>, workers: nat)
    requires cap > 0
    ensures (forall ss, steps :: IsRun(cap, quotas, workers, ss, steps) && Ended(ss[|steps|]) ==> Finished(ss[|steps|]))
            <==> workers > 0 || Total(quotas) <= cap
  {
    if workers > 0 || Total(quotas) <= cap {
      forall ss, steps | IsRun(cap, quotas, workers, ss, steps) && Ended(ss[|steps|]) ensures Finished(ss[|steps|]) {
        if !Finished(ss[|steps|]) { var step := NeverStuck(cap, quotas, workers, ss, steps, |steps|); }
      }
    } else {
      var ss, steps := ReachesEnd(cap, quotas, workers, [Start(cap, quotas, workers)], []);
      NoWorkers(cap, quotas, ss, steps, |steps|);
    }
  }
}
