/** What a thread of the two-phase locking program can always do, and how long its transfers take. */
module TwoPhaseBounds {
  import opened TwoPhase

  /** An idle thread can begin any transfer between existing accounts, whatever the others hold. */
  lemma IdleMayBegin(init: seq<int>, ss: seq<State>, steps: seq<Step>, n: nat, t: Tid, tr: Transfer)
    requires IsRun(init, ss, steps) && n < |ss| && t < |ss[n].threads| && ss[n].threads[t].pc.Idle?
    ensures Enabled(ss[n], Begin(t, tr)) <==> tr.from < |init| && tr.to < |init|
  {
    RunInv(init, ss, steps, n);
    InvShaped(ss[n], init);
  }

  lemma InvShaped(s: State, init: seq<int>)
    requires Inv(s, init)
    ensures Shaped(s) && |s.accounts| == |init|
  {
    forall t | 0 <= t < |s.threads| ensures InRange(s, s.threads[t]) {
      assert ThreadOk(s.accounts, s.threads[t]);
    }
  }

  /** The steps of thread `t` inside its transfers. */
  function Taken(steps: seq<Step>, t: Tid): nat {
    if steps == [] then 0 else Taken(steps[..|steps| - 1], t) + if steps[|steps| - 1] == Next(t) then 1 else 0
  }

  /** How many steps a thread may still need for its transfer. */
  function Todo(x: Thread): nat {
    match x.pc
    case Idle => 0
    case LockLow => 10
    case LockHigh => 9
    case Check => 8
    case DebitLoad => 7
    case DebitStore(_) => 6
    case CreditLoad => 5
    case CreditStore(_) => 4
    case Release => 1 + |x.locked|
  }

  lemma StepTodo(s: State, s': State, step: Step, t: Tid)
    requires t < |s.threads| && ThreadOk(s.accounts, s.threads[t]) && Enabled(s, step) && s' == Apply(s, step)
    ensures |s'.threads| == |s.threads|
    ensures step == Next(t) ==> Todo(s'.threads[t]) < Todo(s.threads[t])
    ensures step.Begin? && step.t == t ==>
              Todo(s.threads[t]) == 0 && Todo(s'.threads[t]) == if step.tr.from != step.tr.to then 10 else 0
    ensures step.t != t ==> s'.threads[t] == s.threads[t]
  { }

  /** How many transfers thread `t` has begun. */
  function Asked(steps: seq<Step>, t: Tid): nat {
    |OfThread(Begun(steps), t)|
  }

  lemma OneMore(steps: seq<Step>, n: nat, t: Tid)
    requires n < |steps|
    ensures Taken(steps[..n + 1], t) == Taken(steps[..n], t) + if steps[n] == Next(t) then 1 else 0
    ensures var step := steps[n];
            Asked(steps[..n + 1], t) ==
              Asked(steps[..n], t) + if step.Begin? && step.t == t && step.tr.from != step.tr.to then 1 else 0
  {
    var step := steps[n];
    assert steps[..n + 1][..n] == steps[..n] && steps[..n + 1][n] == step;
    if step.Begin? && step.tr.from != step.tr.to {
      OfThreadAppend(Begun(steps[..n]), Entry(step.t, step.tr), t);
    } else {
      assert Begun(steps[..n + 1]) == Begun(steps[..n]);
    }
  }

  ghost predicate CountAt(ss: seq<State>, steps: seq<Step>, n: nat, t: Tid) {
    && n < |ss| && n <= |steps| && t < |ss[n].threads|
    && Taken(steps[..n], t) + Todo(ss[n].threads[t]) <= 10 * Asked(steps[..n], t)
  }

  lemma ThreadFine(init: seq<int>, ss: seq<State>, steps: seq<Step>, n: nat, t: Tid)
    requires IsRun(init, ss, steps) && n < |ss| && t < |ss[n].threads|
    ensures ThreadOk(ss[n].accounts, ss[n].threads[t])
  {
    RunInv(init, ss, steps, n);
  }

  lemma CountStep(init: seq<int>, ss: seq<State>, steps: seq<Step>, n: nat, t: Tid)
    requires IsRun(init, ss, steps) && n < |steps| && CountAt(ss, steps, n, t)
    ensures |ss[n + 1].threads| == |ss[n].threads| && CountAt(ss, steps, n + 1, t)
  {
    ThreadFine(init, ss, steps, n, t);
    StepTodo(ss[n], ss[n + 1], steps[n], t);
    OneMore(steps, n, t);
  }

  /**
   A thread takes at most ten steps for each of the transfers it has begun, so with no new transfers every run comes
   to an end.
   */
  lemma {:induction false} TransferLength(init: seq<int>, ss: seq<State>, steps: seq<Step>, n: nat, t: Tid)
    requires IsRun(init, ss, steps) && n < |ss| && t < |ss[0].threads|
    ensures |ss[n].threads| == |ss[0].threads| && CountAt(ss, steps, n, t)
  {
    if n > 0 {
      TransferLength(init, ss, steps, n - 1, t);
      CountStep(init, ss, steps, n - 1, t);
    }
  }
}
