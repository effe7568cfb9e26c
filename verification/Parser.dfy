/** The parser as a whole: exactly the grammar's inputs are accepted, with the derivations' trees. */
module Parser {
  import opened Grammar
  import opened Lalr
  import opened LalrSound
  import opened LalrComplete
  import opened Iteration

  // ---------------------------------------------------------------- runs of the machine

  lemma StartStacked(input: seq<Token>, maxDepth: nat)
    requires TokensOk(input)
    ensures Stacked(Start(input, maxDepth), [], input)
  {
    assert Spelled([]) + input == input;
  }

  /** What holds of every configuration of every run. */
  ghost predicate Accounted(c: Config, input: seq<Token>) {
    && Explained(c.roots, input)
    && (c.status == Going ==> exists xs :: Stacked(c, xs, input))
    && (c.status == Accepted ==> exists es :: input == LinesTokens(es) && c.roots == LinesTrees(es))
  }

  /** Whenever rule 3 has fired, the trees reported are those of derived lines the input starts with. */
  lemma {:induction false} RunSound(input: seq<Token>, n: nat, maxDepth: nat)
    requires TokensOk(input)
    ensures Accounted(Steps(Start(input, maxDepth), n, maxDepth), input)
  {
    var c := Start(input, maxDepth);
    if n == 0 {
      StartStacked(input, maxDepth);
      StackedExplained(c, [], input);
    } else {
      RunSound(input, n - 1, maxDepth);
      NextAccounted(Steps(c, n - 1, maxDepth), input, maxDepth);
    }
  }

  lemma NextAccounted(c: Config, input: seq<Token>, maxDepth: nat)
    requires Accounted(c, input)
    ensures Accounted(Machine(maxDepth)(c), input)
  {
    if c.status == Going {
      var xs :| Stacked(c, xs, input);
      var ys := StepSound(c, xs, input, maxDepth);
    }
  }

  /** Nothing happens after the end. */
  lemma EndStays(c: Config, m: nat, n: nat, maxDepth: nat)
    requires m <= n && Steps(c, m, maxDepth).status != Going
    ensures Steps(c, n, maxDepth) == Steps(c, m, maxDepth)
  {
    IterateAdd(Machine(maxDepth), c, m, n - m);
    StepsDone(Steps(c, m, maxDepth), n - m, maxDepth);
  }

  /** The machine is deterministic: two runs that end, end alike. */
  lemma EndsAlike(c: Config, d: Config, e: Config, maxDepth: nat)
    requires Reaches(c, d, maxDepth) && Reaches(c, e, maxDepth) && d.status != Going && e.status != Going
    ensures d == e
  {
    var m: nat :| Steps(c, m, maxDepth) == d;
    var n: nat :| Steps(c, n, maxDepth) == e;
    if m <= n { EndStays(c, m, n, maxDepth); } else { EndStays(c, n, m, maxDepth); }
  }

  /** A parse that ended says exactly whether the input is derived, and by what. */
  lemma Verdict(input: seq<Token>, d: Config, maxDepth: nat)
    requires TokensOk(input) && Reaches(Start(input, maxDepth), d, maxDepth) && d.status != Going
    ensures d.status == Accepted <==> exists es :: input == LinesTokens(es) && Fits(es, maxDepth)
    ensures forall es :: input == LinesTokens(es) && Fits(es, maxDepth) ==> d.roots == LinesTrees(es)
    ensures (exists es :: input == LinesTokens(es) && !Fits(es, maxDepth)) ==> d.status == Exhausted
    ensures Explained(d.roots, input)
  {
    var c := Start(input, maxDepth);
    var n: nat :| Steps(c, n, maxDepth) == d;
    RunSound(input, n, maxDepth);
    forall es | input == LinesTokens(es)
      ensures Fits(es, maxDepth) ==> d.status == Accepted && d.roots == LinesTrees(es)
      ensures !Fits(es, maxDepth) ==> d.status == Exhausted
    {
      AcceptsLines(es, maxDepth);
      if Fits(es, maxDepth) {
        var e :| Reaches(c, e, maxDepth) && e.status == Accepted && e.roots == LinesTrees(es);
        EndsAlike(c, d, e, maxDepth);
      } else {
        var e :| Reaches(c, e, maxDepth) && e.status == Exhausted;
        EndsAlike(c, d, e, maxDepth);
      }
    }
  }

  /** The grammar gives each input one meaning. */
  lemma Unambiguous(es: seq<Expr>, fs: seq<Expr>)
    requires LinesTokens(es) == LinesTokens(fs)
    ensures LinesTrees(es) == LinesTrees(fs)
  {
    var maxDepth := Max(Deepest(es), Deepest(fs)) + 3;
    DeepestBounds(es);
    DeepestBounds(fs);
    LinesOk(es);
    AcceptsLines(es, maxDepth);
    AcceptsLines(fs, maxDepth);
    var c := Start(LinesTokens(es), maxDepth);
    var d :| Reaches(c, d, maxDepth) && d.status == Accepted && d.roots == LinesTrees(es);
    var e :| Reaches(c, e, maxDepth) && e.status == Accepted && e.roots == LinesTrees(fs);
    EndsAlike(c, d, e, maxDepth);
  }

  function Deepest(es: seq<Expr>): nat {
    if es == [] then 1 else Max(Deepest(es[1..]), LineDepth(es[0]))
  }

  lemma {:induction false} DeepestBounds(es: seq<Expr>)
    ensures Deepest(es) >= 1
    ensures forall i :: 0 <= i < |es| ==> LineDepth(es[i]) <= Deepest(es)
  {
    if es != [] {
      DeepestBounds(es[1..]);
      forall i | 0 <= i < |es| ensures LineDepth(es[i]) <= Deepest(es) {
        if i > 0 { assert es[i] == es[1..][i - 1]; }
      }
    }
  }

  // Derivations yield well-formed tokens.

  lemma {:induction false} LinesOk(es: seq<Expr>)
    ensures TokensOk(LinesTokens(es))
  {
    if es != [] {
      LinesOk(es[..|es| - 1]);
      ExprOk(es[|es| - 1]);
    }
  }

  lemma ExprOk(e: Expr)
    ensures TokensOk(ExprTokens(e))
  {
    match e
    case Sum(l, r) => ExprOk(l); TermOk(r);
    case Difference(l, r) => ExprOk(l); TermOk(r);
    case JustTerm(t) => TermOk(t);
  }

  lemma TermOk(t: Term)
    ensures TokensOk(TermTokens(t))
  {
    match t
    case Product(l, r) => TermOk(l); FactorOk(r);
    case Quotient(l, r) => TermOk(l); FactorOk(r);
    case JustFactor(f) => FactorOk(f);
  }

  lemma FactorOk(f: Factor)
    ensures TokensOk(FactorTokens(f))
  {
    match f
    case Number(_) =>
    case Parens(e) => ExprOk(e);
  }

  // ---------------------------------------------------------------- yyparse

  /** Whether a state has a shift on the error token. */
  predicate ShiftsError(state: nat)
    requires state < NSTATES
  {
    Pact()[state] != PACT_NINF
    && var n := Pact()[state] + ERROR_TOKEN;
       0 <= n <= LAST && Check()[n] == ERROR_TOKEN && 0 < Table()[n]
  }

  lemma NoStateShiftsError(state: nat)
    requires state < NSTATES
    ensures !ShiftsError(state)
  { }

  /** The recovery loop pops down to the bottom state, where the parse is aborted: no error is survived. */
  method Recover(states: seq<nat>) returns (left: seq<nat>)
    requires states != [] && forall i :: 0 <= i < |states| ==> states[i] < NSTATES
    ensures left == [states[0]]
  {
    left := states;
    while |left| > 1 && !ShiftsError(left[|left| - 1])
      invariant 0 < |left| <= |states| && left == states[..|left|]
      decreases |left|
    {
      left := left[..|left| - 1];
    }
    NoStateShiftsError(left[|left| - 1]);
  }

  ghost predicate Derived(input: seq<Token>, es: seq<Expr>) {
    input == LinesTokens(es)
  }

  lemma {:induction false} OneMore(c: Config, n: nat, maxDepth: nat)
    ensures Steps(c, n + 1, maxDepth) == Step(Steps(c, n, maxDepth), maxDepth)
  { }

  lemma Ended(input: seq<Token>, n: nat, d: Config, maxDepth: nat)
    requires TokensOk(input) && Steps(Start(input, maxDepth), n, maxDepth) == d && d.status != Going
    ensures d.status == Accepted <==> exists es :: Derived(input, es) && Fits(es, maxDepth)
    ensures forall es :: Derived(input, es) && Fits(es, maxDepth) ==> d.roots == LinesTrees(es)
    ensures (exists es :: Derived(input, es) && !Fits(es, maxDepth)) ==> d.status == Exhausted
    ensures Explained(d.roots, input)
  {
    Verdict(input, d, maxDepth);
    if es :| Derived(input, es) && Fits(es, maxDepth) { assert input == LinesTokens(es); }
    if es :| Derived(input, es) && !Fits(es, maxDepth) { assert input == LinesTokens(es); }
    if es :| input == LinesTokens(es) && Fits(es, maxDepth) { assert Derived(input, es); }
  }

  lemma StepReduces(c: Config, xs: seq<Symbol>, input: seq<Token>, r: nat, kind: nat, maxDepth: nat)
    requires Stacked(c, xs, input) && c.status == Going && kind == Ahead(c.input)
    requires c.states != [] && Last(c.states) < NSTATES && kind < NTOKENS && Act(Last(c.states), kind) == Reduce(r)
    ensures 0 < r <= 11 && |c.states| == |c.vals| > RuleLen(r)
            && (forall i :: 0 <= i < |c.states| ==> c.states[i] < NSTATES)
    ensures Step(c, maxDepth) == ReduceFlat(c, r, maxDepth)
  {
    LinkedStates(c, xs);
    ActIsTable(Last(c.states), kind);
    var ys := AfterReduce(c, xs, input, r, kind, maxDepth);
  }

  /** A reduction on the stacks: the value of the rule, the pop, and the goto. */
  method Reduced(states: seq<nat>, vals: seq<Value>, roots: seq<Grammar.Tree>, r: nat,
                 ghost c: Config, ghost xs: seq<Symbol>, ghost input: seq<Token>, kind: nat, ghost maxDepth: nat)
    returns (states': seq<nat>, vals': seq<Value>, roots': seq<Grammar.Tree>)
    requires c.states == states && c.vals == vals && c.roots == roots && c.status == Going
    requires Stacked(c, xs, input) && kind == Ahead(c.input)
    requires Last(states) < NSTATES && kind < NTOKENS && Act(Last(states), kind) == Reduce(r)
    ensures states' != []
    ensures var d := Step(c, maxDepth);
            d.states == states' && d.vals == vals' && d.roots == roots' && d.input == c.input
            && d.status == if |states'| >= maxDepth then Exhausted
                           else if Last(states') == FINAL then Accepted
                           else Going
  {
    StepReduces(c, xs, input, r, kind, maxDepth);
    RuleLenIsTable(r);
    var m := |states| - R2()[r];
    var rhs := vals[m..];
    roots' := if r == 3 then roots + [AsTree(rhs[1])] else roots;
    GotoIsTable(states[m - 1], r);
    states' := states[..m] + [Goto(states[m - 1], r)];
    vals' := vals[..m] + [RuleValue(r, rhs)];
  }

  /** A shift: push the state and the token's value, and move to the next token. */
  method Shifted(states: seq<nat>, vals: seq<Value>, input: seq<Token>, pos: nat, s: nat, ghost c: Config, kind: nat,
                 ghost maxDepth: nat)
    returns (states': seq<nat>, vals': seq<Value>, pos': nat)
    requires pos <= |input| && c.states == states && c.vals == vals && c.input == input[pos..] && c.status == Going
    requires Sound(c) && kind == Ahead(c.input) && Act(Last(states), kind) == Shift(s)
    ensures pos <= pos' <= |input| && states' != []
    ensures var d := Step(c, maxDepth);
            d.states == states' && d.vals == vals' && d.roots == c.roots && d.input == input[pos'..]
            && d.status == if |states'| >= maxDepth then Exhausted
                           else if Last(states') == FINAL then Accepted
                           else Going
  {
    states' := states + [s];
    if pos < |input| {
      vals' := vals + [Num(input[pos].num)];
      assert input[pos..][1..] == input[pos + 1..];
      pos' := pos + 1;
    } else {
      vals' := vals + [Blank];
      pos' := pos;
    }
  }

  /** One round of the loop: look up the action, change the stacks, and say whether the parse is over. */
  method Round(states: seq<nat>, vals: seq<Value>, input: seq<Token>, pos: nat, roots: seq<Grammar.Tree>, maxDepth: nat,
               ghost c: Config, ghost xs: seq<Symbol>)
    returns (states': seq<nat>, vals': seq<Value>, pos': nat, roots': seq<Grammar.Tree>, status: Status)
    requires pos <= |input| && c == Config(states, vals, input[pos..], roots, Going) && Stacked(c, xs, input)
    ensures pos <= pos' <= |input| && states' != []
    ensures Step(c, maxDepth) == Config(states', vals', input[pos'..], roots', status)
  {
    LinkedStates(c, xs);
    states', vals', pos', roots' := states, vals, pos, roots;
    var kind := if pos < |input| then input[pos].kind else END;
    match Act(states[|states| - 1], kind) {
      case Error =>
        var left := Recover(states);
        status := Aborted;
        return;
      case Shift(s) =>
        states', vals', pos' := Shifted(states, vals, input, pos, s, c, kind, maxDepth);
      case Reduce(r) =>
        states', vals', roots' := Reduced(states, vals, roots, r, c, xs, input, kind, maxDepth);
    }
    status := if |states'| >= maxDepth then Exhausted else if states'[|states'| - 1] == FINAL then Accepted else Going;
  }

  /** What a round leaves, seen as one more step of the machine. */
  lemma RoundIsStep(input: seq<Token>, c: Config, d: Config, xs: seq<Symbol>, n: nat, maxDepth: nat)
      returns (ys: seq<Symbol>)
    requires Stacked(c, xs, input) && c.status == Going && Steps(Start(input, maxDepth), n, maxDepth) == c
             && Step(c, maxDepth) == d
    ensures Steps(Start(input, maxDepth), n + 1, maxDepth) == d
    ensures d.status == Going ==> Stacked(d, ys, input) && d.states != []
    ensures d.status == Going ==> |d.input| < |c.input| || (|d.input| == |c.input| && Size(d) < Size(c))
  {
    ys := StepSound(c, xs, input, maxDepth);
    OneMore(Start(input, maxDepth), n, maxDepth);
  }

  function ResultCode(status: Status): nat {
    match status case Accepted => 0 case Exhausted => 2 case _ => 1
  }

  /**
   `yyparse`: 0 exactly when the input is a sequence of derived lines that fit the stack, 2 when
   it is one that does not, 1 or 2 otherwise.  The trees are those of the derivations.
   */
  method Yyparse(input: seq<Token>, maxDepth: nat) returns (result: nat, roots: seq<Grammar.Tree>)
    requires TokensOk(input)
    ensures result <= 2
    ensures result == 0 <==> exists es :: Derived(input, es) && Fits(es, maxDepth)
    ensures forall es :: Derived(input, es) && Fits(es, maxDepth) ==> roots == LinesTrees(es)
    ensures (exists es :: Derived(input, es) && !Fits(es, maxDepth)) ==> result == 2
    ensures Explained(roots, input)
  {
    var states, vals, pos, status := [0], [Blank], 0, if 1 >= maxDepth then Exhausted else Going;
    roots := [];
    ghost var start := Start(input, maxDepth);
    ghost var c, xs, n := start, [], 0;
    StartStacked(input, maxDepth);
    assert start.states == [0] && start.vals == [Blank] && input[0..] == input;
    ghost var size := Size(c);
    while status == Going
      invariant 0 <= pos <= |input| && c == Config(states, vals, input[pos..], roots, status)
      invariant Steps(start, n, maxDepth) == c
      invariant status == Going ==> Stacked(c, xs, input) && c.states != [] && size == Size(c)
      decreases |input| - pos, size, status == Going
    {
      states, vals, pos, roots, status := Round(states, vals, input, pos, roots, maxDepth, c, xs);
      ghost var d := Config(states, vals, input[pos..], roots, status);
      xs := RoundIsStep(input, c, d, xs, n, maxDepth);
      c, n, size := d, n + 1, if status == Going then Size(d) else size;
    }
    Ended(input, n, c, maxDepth);
    result := ResultCode(status);
  }
}
