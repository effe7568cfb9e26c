/** Every derivation is parsed: the machine rebuilds its tree, or runs out of stack exactly when it must. */
module LalrComplete {
  import opened Grammar
  import opened Lalr
  import opened Iteration

  ghost predicate Reaches(c: Config, d: Config, maxDepth: nat) {
    exists n: nat :: Steps(c, n, maxDepth) == d
  }

  /** The parse from `c` runs out of stack before reporting another tree. */
  ghost predicate Exhausts(c: Config, maxDepth: nat) {
    exists d :: Reaches(c, d, maxDepth) && d.status == Exhausted && d.roots == c.roots
  }

  lemma ReachTrans(c: Config, d: Config, e: Config, maxDepth: nat)
    requires Reaches(c, d, maxDepth) && Reaches(d, e, maxDepth)
    ensures Reaches(c, e, maxDepth)
  {
    var m: nat :| Steps(c, m, maxDepth) == d;
    var n: nat :| Steps(d, n, maxDepth) == e;
    IterateAdd(Machine(maxDepth), c, m, n);
    assert Steps(c, m + n, maxDepth) == e;
  }

  lemma ExhaustTrans(c: Config, d: Config, maxDepth: nat)
    requires Reaches(c, d, maxDepth) && Exhausts(d, maxDepth) && c.roots == d.roots
    ensures Exhausts(c, maxDepth)
  {
    var e :| Reaches(d, e, maxDepth) && e.status == Exhausted && e.roots == d.roots;
    ReachTrans(c, d, e, maxDepth);
  }

  lemma OneStep(c: Config, maxDepth: nat)
    ensures Reaches(c, Step(c, maxDepth), maxDepth)
  {
    var f := Machine(maxDepth);
    assert Iterate(f, c, 0) == c;
    assert Iterate(f, c, 1) == f(c);
    assert Steps(c, 1, maxDepth) == Step(c, maxDepth);
  }

  /** A configuration that goes on reading. */
  ghost predicate Ready(c: Config) {
    c.status == Going && Sound(c)
  }

  lemma Shifts(c: Config, s: nat, maxDepth: nat)
    requires Ready(c) && c.input != [] && ActTable(Last(c.states), c.input[0].kind) == Shift(s)
    ensures var d := Push(c.(input := c.input[1..]), s, Num(c.input[0].num), maxDepth);
            Reaches(c, d, maxDepth) && (|c.states| + 1 >= maxDepth ==> Exhausts(c, maxDepth))
  {
    ActIsTable(Last(c.states), c.input[0].kind);
    OneStep(c, maxDepth);
  }

  lemma StepReduces(d: Config, r: nat, maxDepth: nat)
    requires Ready(d) && 0 < r <= 11 && ActTable(Last(d.states), Ahead(d.input)) == Reduce(r) && RuleLen(r) < |d.states|
    ensures Reaches(d, ReduceFlat(d, r, maxDepth), maxDepth)
  {
    ActIsTable(Last(d.states), Ahead(d.input));
    OneStep(d, maxDepth);
  }

  lemma PopsPushed(c: Config, d: Config, r: nat, ss: seq<nat>, vs: seq<Value>, maxDepth: nat)
    requires Ready(d) && 0 < r <= 11
    requires c.states != [] && |c.states| == |c.vals| && |ss| == |vs| == RuleLen(r)
    requires d.states == c.states + ss && d.vals == c.vals + vs
    ensures ReduceFlat(d, r, maxDepth) ==
            Push(d.(states := c.states, vals := c.vals, roots := if r == 3 then d.roots + [AsTree(vs[1])] else d.roots),
                 GotoTable(Last(c.states), r), RuleValue(r, vs), maxDepth)
  {
    var n := |c.states|;
    assert d.states[..n] == c.states && d.vals[..n] == c.vals && d.vals[n..] == vs;
    assert d.states[n - 1] == Last(c.states);
  }

  /** Reducing pops what was pushed on `c` and enters the goto state. */
  lemma Reduces(c: Config, d: Config, r: nat, ss: seq<nat>, vs: seq<Value>, maxDepth: nat)
    requires Ready(d) && 0 < r <= 11 && ActTable(Last(d.states), Ahead(d.input)) == Reduce(r)
    requires c.states != [] && |c.states| == |c.vals| && |ss| == |vs| == RuleLen(r)
    requires d.states == c.states + ss && d.vals == c.vals + vs
    ensures Reaches(d, Push(d.(states := c.states, vals := c.vals,
                               roots := if r == 3 then d.roots + [AsTree(vs[1])] else d.roots),
                            GotoTable(Last(c.states), r), RuleValue(r, vs), maxDepth), maxDepth)
  {
    StepReduces(d, r, maxDepth);
    PopsPushed(c, d, r, ss, vs, maxDepth);
  }

  /** Where a nonterminal with these rules leaves the parse that starts at `c`. */
  function Done(c: Config, rest: seq<Token>, rule: nat, t: Grammar.Tree, maxDepth: nat): Config
    requires c.states != []
  {
    Push(c.(input := rest), GotoTable(Last(c.states), rule), Tree(t), maxDepth)
  }

  lemma SuffixOk(pre: seq<Token>, rest: seq<Token>)
    requires TokensOk(pre + rest)
    ensures TokensOk(rest)
  {
    forall i | 0 <= i < |rest| ensures TokenOk(rest[i]) { assert rest[i] == (pre + rest)[|pre| + i]; }
  }

  lemma DoneReady(c: Config, pre: seq<Token>, rest: seq<Token>, rule: nat, t: Grammar.Tree, maxDepth: nat)
    requires Ready(c) && c.input == pre + rest && |c.states| + 1 < maxDepth && rule >= 4
    ensures Ready(Done(c, rest, rule, t, maxDepth))
  {
    SuffixOk(pre, rest);
  }

  ghost predicate Parses(c: Config, depth: nat, rest: seq<Token>, rule: nat, t: Grammar.Tree, maxDepth: nat)
    requires c.states != []
  {
    if |c.states| + depth < maxDepth then Reaches(c, Done(c, rest, rule, t, maxDepth), maxDepth)
    else Exhausts(c, maxDepth)
  }

  ghost predicate FactorState(s: nat) {
    s in {1, 4, 9, 10, 12, 13}
  }

  ghost predicate TermState(s: nat) {
    s in {1, 4, 9, 10}
  }

  ghost predicate ExprState(s: nat) {
    s in {1, 4}
  }

  /** `expr: term`, `term: factor` and `factor: NUMBER`. */
  lemma ReduceUnit(c: Config, d: Config, r: nat, s: nat, v: Value, t: Grammar.Tree, maxDepth: nat)
    requires (r == 10 && v.Num? && t == Leaf(v.n)) || ((r == 6 || r == 9) && v == Tree(t))
    requires Ready(d) && ActTable(s, Ahead(d.input)) == Reduce(r)
    requires c.states != [] && |c.states| == |c.vals| && d == Push(c.(input := d.input), s, v, maxDepth)
    ensures Reaches(d, Done(c, d.input, r, t, maxDepth), maxDepth)
  {
    Reduces(c, d, r, [s], [v], maxDepth);
  }

  function OpOf(r: nat): Op {
    if r == 4 then Add else if r == 5 then Sub else if r == 7 then Mul else Div
  }

  /** The state after a right operand, and the rule it reduces by. */
  ghost predicate AfterRight(s: nat, r: nat, kind: nat) {
    || (s == 17 && r == 7)
    || (s == 18 && r == 8)
    || (s == 15 && r == 4 && kind != TIMES && kind != DIVIDE)
    || (s == 16 && r == 5 && kind != TIMES && kind != DIVIDE)
  }

  lemma AfterRightReduces(s: nat, r: nat, kind: nat)
    requires AfterRight(s, r, kind)
    ensures ActTable(s, kind) == Reduce(r)
  { }

  /** The four rules with an operator in the middle. */
  lemma ReduceOp(c: Config, d: Config, r: nat, s0: nat, s1: nat, s2: nat, a: Grammar.Tree, b: Grammar.Tree,
                 maxDepth: nat)
    requires Ready(d) && AfterRight(s2, r, Ahead(d.input)) && d.roots == c.roots
    requires c.states != [] && |c.states| == |c.vals|
    requires d.states == c.states + [s0] + [s1] + [s2] && d.vals == c.vals + [Tree(a)] + [Num(0)] + [Tree(b)]
    ensures Reaches(d, Done(c, d.input, if r <= 5 then 6 else 9, Node(OpOf(r), a, b), maxDepth), maxDepth)
  {
    AfterRightReduces(s2, r, Ahead(d.input));
    assert d.states == c.states + [s0, s1, s2];
    assert d.vals == c.vals + [Tree(a), Num(0), Tree(b)];
    Reduces(c, d, r, [s0, s1, s2], [Tree(a), Num(0), Tree(b)], maxDepth);
  }

  lemma FinishOp(c: Config, c2: Config, d: Config, r: nat, s0: nat, s1: nat, s2: nat, a: Grammar.Tree, b: Grammar.Tree,
                 maxDepth: nat)
    requires Ready(d) && AfterRight(s2, r, Ahead(d.input)) && d.roots == c.roots
    requires c.states != [] && |c.states| == |c.vals|
    requires d.states == c.states + [s0] + [s1] + [s2] && d.vals == c.vals + [Tree(a)] + [Num(0)] + [Tree(b)]
    requires Reaches(c, c2, maxDepth) && Reaches(c2, d, maxDepth)
    ensures Reaches(c, Done(c, d.input, if r <= 5 then 6 else 9, Node(OpOf(r), a, b), maxDepth), maxDepth)
  {
    ReduceOp(c, d, r, s0, s1, s2, a, b, maxDepth);
    ReachTrans(c, c2, d, maxDepth);
    ReachTrans(c, d, Done(c, d.input, if r <= 5 then 6 else 9, Node(OpOf(r), a, b), maxDepth), maxDepth);
  }

  lemma ReduceParens(c: Config, d: Config, t: Grammar.Tree, maxDepth: nat)
    requires Ready(d) && d.roots == c.roots
    requires c.states != [] && |c.states| == |c.vals|
    requires d.states == c.states + [4] + [8] + [14] && d.vals == c.vals + [Num(0)] + [Tree(t)] + [Num(0)]
    ensures Reaches(d, Done(c, d.input, 10, t, maxDepth), maxDepth)
  {
    assert d.states == c.states + [4, 8, 14];
    assert d.vals == c.vals + [Num(0), Tree(t), Num(0)];
    Reduces(c, d, 11, [4, 8, 14], [Num(0), Tree(t), Num(0)], maxDepth);
  }

  lemma {:induction false} ParseFactor(c: Config, f: Factor, rest: seq<Token>, maxDepth: nat)
    requires Ready(c) && FactorState(Last(c.states)) && c.input == FactorTokens(f) + rest
    ensures Parses(c, FactorDepth(f), rest, 10, FactorTree(f), maxDepth)
    decreases f, 0
  {
    match f
    case Number(n) => ParseNumber(c, n, rest, maxDepth);
    case Parens(e) => ParseParens(c, e, rest, maxDepth);
  }

  lemma ParseNumber(c: Config, n: nat, rest: seq<Token>, maxDepth: nat)
    requires Ready(c) && FactorState(Last(c.states)) && c.input == [Token(NUMBER, n)] + rest
    ensures Parses(c, 1, rest, 10, Leaf(n), maxDepth)
  {
    assert c.input[1..] == rest;
    Shifts(c, 3, maxDepth);
    if |c.states| + 1 < maxDepth {
      SuffixOk([Token(NUMBER, n)], rest);
      var d := Push(c.(input := rest), 3, Num(n), maxDepth);
      ReduceUnit(c, d, 10, 3, Num(n), Leaf(n), maxDepth);
      ReachTrans(c, d, Done(c, rest, 10, Leaf(n), maxDepth), maxDepth);
    }
  }

  /** Shift one marker token and go on from there. */
  lemma ShiftMark(c: Config, kind: nat, s: nat, rest: seq<Token>, maxDepth: nat) returns (d: Config)
    requires Ready(c) && c.input == [Mark(kind)] + rest && ActTable(Last(c.states), kind) == Shift(s)
    requires s != FINAL && s < NSTATES
    ensures |c.states| + 1 >= maxDepth ==> Exhausts(c, maxDepth)
    ensures |c.states| + 1 < maxDepth ==>
              d == Push(c.(input := rest), s, Num(0), maxDepth) && Ready(d) && Reaches(c, d, maxDepth)
  {
    assert c.input[1..] == rest;
    Shifts(c, s, maxDepth);
    SuffixOk([Mark(kind)], rest);
    d := Push(c.(input := rest), s, Num(0), maxDepth);
  }

  lemma {:induction false} ParseParens(c: Config, e: Expr, rest: seq<Token>, maxDepth: nat)
    requires Ready(c) && FactorState(Last(c.states)) && c.input == FactorTokens(Parens(e)) + rest
    ensures Parses(c, FactorDepth(Parens(e)), rest, 10, ExprTree(e), maxDepth)
    decreases e, 1
  {
    var after := [Mark(CLOSE)] + rest;
    assert c.input == [Mark(OPEN)] + (ExprTokens(e) + after);
    var c1 := ShiftMark(c, OPEN, 4, ExprTokens(e) + after, maxDepth);
    if |c.states| + 1 < maxDepth {
      ParseExpr(c1, e, after, maxDepth);
      if |c1.states| + ExprDepth(e) < maxDepth {
        var c2 := Done(c1, after, 6, ExprTree(e), maxDepth);
        ReachTrans(c, c1, c2, maxDepth);
        DoneReady(c1, ExprTokens(e), after, 6, ExprTree(e), maxDepth);
        CloseParens(c, c2, ExprTree(e), rest, maxDepth);
      } else {
        ExhaustTrans(c, c1, maxDepth);
      }
    }
  }

  lemma CloseParens(c: Config, c2: Config, t: Grammar.Tree, rest: seq<Token>, maxDepth: nat)
    requires Ready(c2) && Reaches(c, c2, maxDepth) && c2.input == [Mark(CLOSE)] + rest
    requires c.states != [] && |c.states| == |c.vals| && c2.roots == c.roots
    requires c2.states == c.states + [4] + [8] && c2.vals == c.vals + [Num(0)] + [Tree(t)]
    ensures Parses(c, 3, rest, 10, t, maxDepth)
  {
    var c3 := ShiftMark(c2, CLOSE, 14, rest, maxDepth);
    if |c2.states| + 1 < maxDepth {
      ReduceParens(c, c3, t, maxDepth);
      ReachTrans(c2, c3, Done(c, rest, 10, t, maxDepth), maxDepth);
      ReachTrans(c, c2, Done(c, rest, 10, t, maxDepth), maxDepth);
    } else {
      ExhaustTrans(c, c2, maxDepth);
    }
  }

  lemma {:induction false} ParseTerm(c: Config, t: Term, rest: seq<Token>, maxDepth: nat)
    requires Ready(c) && TermState(Last(c.states)) && c.input == TermTokens(t) + rest
    ensures Parses(c, TermDepth(t), rest, 9, TermTree(t), maxDepth)
    decreases t, 0
  {
    match t
    case JustFactor(f) =>
      ParseFactor(c, f, rest, maxDepth);
      if |c.states| + FactorDepth(f) < maxDepth {
        var d := Done(c, rest, 10, FactorTree(f), maxDepth);
        DoneReady(c, FactorTokens(f), rest, 10, FactorTree(f), maxDepth);
        ReduceUnit(c, d, 9, 7, Tree(FactorTree(f)), FactorTree(f), maxDepth);
        ReachTrans(c, d, Done(c, rest, 9, FactorTree(f), maxDepth), maxDepth);
      }
    case Product(l, r) =>
      assert c.input == TermTokens(l) + ([Mark(TIMES)] + (FactorTokens(r) + rest));
      ParseTerm(c, l, [Mark(TIMES)] + (FactorTokens(r) + rest), maxDepth);
      TermThenFactor(c, l, r, TIMES, 12, 17, 7, rest, maxDepth);
    case Quotient(l, r) =>
      assert c.input == TermTokens(l) + ([Mark(DIVIDE)] + (FactorTokens(r) + rest));
      ParseTerm(c, l, [Mark(DIVIDE)] + (FactorTokens(r) + rest), maxDepth);
      TermThenFactor(c, l, r, DIVIDE, 13, 18, 8, rest, maxDepth);
  }

  lemma {:induction false} TermThenFactor(c: Config, l: Term, r: Factor, op: nat, opState: nat, endState: nat,
                                          rule: nat, rest: seq<Token>, maxDepth: nat)
    requires (op == TIMES && opState == 12 && endState == 17 && rule == 7)
             || (op == DIVIDE && opState == 13 && endState == 18 && rule == 8)
    requires Ready(c) && TermState(Last(c.states)) && c.input == TermTokens(l) + ([Mark(op)] + (FactorTokens(r) + rest))
    requires Parses(c, TermDepth(l), [Mark(op)] + (FactorTokens(r) + rest), 9, TermTree(l), maxDepth)
    ensures Parses(c, Max(TermDepth(l), 2 + FactorDepth(r)), rest, 9, Node(OpOf(rule), TermTree(l), FactorTree(r)),
                   maxDepth)
    decreases r, 2
  {
    if |c.states| + TermDepth(l) < maxDepth {
      var mid := [Mark(op)] + (FactorTokens(r) + rest);
      var c1 := Done(c, mid, 9, TermTree(l), maxDepth);
      DoneReady(c, TermTokens(l), mid, 9, TermTree(l), maxDepth);
      var c2 := ShiftMark(c1, op, opState, FactorTokens(r) + rest, maxDepth);
      if |c1.states| + 1 < maxDepth {
        ReachTrans(c, c1, c2, maxDepth);
        FactorAfterOp(c, c2, TermTree(l), r, GotoTable(Last(c.states), 9), opState, endState, rule, rest, maxDepth);
      } else {
        ExhaustTrans(c, c1, maxDepth);
      }
    }
  }

  lemma {:induction false} FactorAfterOp(c: Config, c2: Config, a: Grammar.Tree, r: Factor, s0: nat, opState: nat,
                                         endState: nat, rule: nat,
                                         rest: seq<Token>, maxDepth: nat)
    requires (opState == 12 && endState == 17 && rule == 7) || (opState == 13 && endState == 18 && rule == 8)
    requires c.states != [] && |c.states| == |c.vals| && Ready(c2) && Reaches(c, c2, maxDepth) && c2.roots == c.roots
    requires c2.states == c.states + [s0] + [opState] && c2.vals == c.vals + [Tree(a)] + [Num(0)]
    requires c2.input == FactorTokens(r) + rest
    ensures Parses(c, 2 + FactorDepth(r), rest, 9, Node(OpOf(rule), a, FactorTree(r)), maxDepth)
    decreases r, 1
  {
    ParseFactor(c2, r, rest, maxDepth);
    if |c2.states| + FactorDepth(r) < maxDepth {
      DoneReady(c2, FactorTokens(r), rest, 10, FactorTree(r), maxDepth);
      var d := Done(c2, rest, 10, FactorTree(r), maxDepth);
      assert d.states == c2.states + [endState] && d.vals == c2.vals + [Tree(FactorTree(r))];
      FinishOp(c, c2, d, rule, s0, opState, endState, a, FactorTree(r), maxDepth);
    } else {
      ExhaustTrans(c, c2, maxDepth);
    }
  }

  lemma {:induction false} TermAfterOp(c: Config, c2: Config, a: Grammar.Tree, r: Term, s0: nat, opState: nat,
                                       endState: nat, rule: nat,
                                       rest: seq<Token>, maxDepth: nat)
    requires (opState == 9 && endState == 15 && rule == 4) || (opState == 10 && endState == 16 && rule == 5)
    requires c.states != [] && |c.states| == |c.vals| && Ready(c2) && Reaches(c, c2, maxDepth) && c2.roots == c.roots
    requires c2.states == c.states + [s0] + [opState] && c2.vals == c.vals + [Tree(a)] + [Num(0)]
    requires c2.input == TermTokens(r) + rest && Ahead(rest) != TIMES && Ahead(rest) != DIVIDE
    ensures Parses(c, 2 + TermDepth(r), rest, 6, Node(OpOf(rule), a, TermTree(r)), maxDepth)
    decreases r, 1
  {
    ParseTerm(c2, r, rest, maxDepth);
    if |c2.states| + TermDepth(r) < maxDepth {
      DoneReady(c2, TermTokens(r), rest, 9, TermTree(r), maxDepth);
      var d := Done(c2, rest, 9, TermTree(r), maxDepth);
      assert d.states == c2.states + [endState] && d.vals == c2.vals + [Tree(TermTree(r))];
      FinishOp(c, c2, d, rule, s0, opState, endState, a, TermTree(r), maxDepth);
    } else {
      ExhaustTrans(c, c2, maxDepth);
    }
  }

  /** An expression is complete when what follows is not `*` or `/`. */
  lemma {:induction false} ParseExpr(c: Config, e: Expr, rest: seq<Token>, maxDepth: nat)
    requires Ready(c) && ExprState(Last(c.states)) && c.input == ExprTokens(e) + rest
    requires Ahead(rest) != TIMES && Ahead(rest) != DIVIDE
    ensures Parses(c, ExprDepth(e), rest, 6, ExprTree(e), maxDepth)
    decreases e, 0
  {
    match e
    case JustTerm(t) =>
      ParseTerm(c, t, rest, maxDepth);
      if |c.states| + TermDepth(t) < maxDepth {
        var d := Done(c, rest, 9, TermTree(t), maxDepth);
        DoneReady(c, TermTokens(t), rest, 9, TermTree(t), maxDepth);
        ReduceUnit(c, d, 6, 6, Tree(TermTree(t)), TermTree(t), maxDepth);
        ReachTrans(c, d, Done(c, rest, 6, TermTree(t), maxDepth), maxDepth);
      }
    case Sum(l, r) =>
      assert c.input == ExprTokens(l) + ([Mark(PLUS)] + (TermTokens(r) + rest));
      ParseExpr(c, l, [Mark(PLUS)] + (TermTokens(r) + rest), maxDepth);
      ExprThenTerm(c, l, r, PLUS, 9, 15, 4, rest, maxDepth);
    case Difference(l, r) =>
      assert c.input == ExprTokens(l) + ([Mark(MINUS)] + (TermTokens(r) + rest));
      ParseExpr(c, l, [Mark(MINUS)] + (TermTokens(r) + rest), maxDepth);
      ExprThenTerm(c, l, r, MINUS, 10, 16, 5, rest, maxDepth);
  }

  lemma {:induction false} ExprThenTerm(c: Config, l: Expr, r: Term, op: nat, opState: nat, endState: nat, rule: nat,
                                        rest: seq<Token>, maxDepth: nat)
    requires (op == PLUS && opState == 9 && endState == 15 && rule == 4)
             || (op == MINUS && opState == 10 && endState == 16 && rule == 5)
    requires Ready(c) && ExprState(Last(c.states)) && c.input == ExprTokens(l) + ([Mark(op)] + (TermTokens(r) + rest))
    requires Ahead(rest) != TIMES && Ahead(rest) != DIVIDE
    requires Parses(c, ExprDepth(l), [Mark(op)] + (TermTokens(r) + rest), 6, ExprTree(l), maxDepth)
    ensures Parses(c, Max(ExprDepth(l), 2 + TermDepth(r)), rest, 6, Node(OpOf(rule), ExprTree(l), TermTree(r)),
                   maxDepth)
    decreases r, 2
  {
    if |c.states| + ExprDepth(l) < maxDepth {
      var mid := [Mark(op)] + (TermTokens(r) + rest);
      var c1 := Done(c, mid, 6, ExprTree(l), maxDepth);
      DoneReady(c, ExprTokens(l), mid, 6, ExprTree(l), maxDepth);
      var c2 := ShiftMark(c1, op, opState, TermTokens(r) + rest, maxDepth);
      if |c1.states| + 1 < maxDepth {
        ReachTrans(c, c1, c2, maxDepth);
        TermAfterOp(c, c2, ExprTree(l), r, GotoTable(Last(c.states), 6), opState, endState, rule, rest, maxDepth);
      } else {
        ExhaustTrans(c, c1, maxDepth);
      }
    }
  }

  // ---------------------------------------------------------------- whole inputs

  /** The configuration between lines. */
  function AtLine(input: seq<Token>, roots: seq<Grammar.Tree>): Config {
    Config([0, 1], [Blank, Blank], input, roots, Going)
  }

  /** Stack slots a line takes above the two that are always there. */
  function LineDepth(e: Expr): nat {
    Max(ExprDepth(e), 2)
  }

  lemma ReduceLine(d: Config, t: Grammar.Tree, maxDepth: nat)
    requires Ready(d) && d.states == [0, 1, 5, 11] && d.vals == [Blank, Blank, Tree(t), Num(0)] && 2 < maxDepth
    ensures Reaches(d, AtLine(d.input, d.roots + [t]), maxDepth)
  {
    var base := d.(states := [0], vals := [Blank]);
    assert d.states == base.states + [1, 5, 11] && d.vals == base.vals + [Blank, Tree(t), Num(0)];
    Reduces(base, d, 3, [1, 5, 11], [Blank, Tree(t), Num(0)], maxDepth);
  }

  lemma EndLine(c: Config, t: Grammar.Tree, rest: seq<Token>, roots: seq<Grammar.Tree>, maxDepth: nat)
    requires Ready(c) && c.input == [Mark(NEWLINE)] + rest && c.roots == roots
    requires c.states == [0, 1, 5] && c.vals == [Blank, Blank, Tree(t)]
    ensures if 4 < maxDepth then Reaches(c, AtLine(rest, roots + [t]), maxDepth) else Exhausts(c, maxDepth)
  {
    var d := ShiftMark(c, NEWLINE, 11, rest, maxDepth);
    if 4 < maxDepth {
      ReduceLine(d, t, maxDepth);
      ReachTrans(c, d, AtLine(rest, roots + [t]), maxDepth);
    }
  }

  lemma ParseLine(e: Expr, rest: seq<Token>, roots: seq<Grammar.Tree>, maxDepth: nat)
    requires TokensOk(ExprTokens(e) + [Mark(NEWLINE)] + rest)
    ensures var c := AtLine(ExprTokens(e) + [Mark(NEWLINE)] + rest, roots);
            if 2 + LineDepth(e) < maxDepth then Reaches(c, AtLine(rest, roots + [ExprTree(e)]), maxDepth)
            else Exhausts(c, maxDepth)
  {
    var c := AtLine(ExprTokens(e) + [Mark(NEWLINE)] + rest, roots);
    var after := [Mark(NEWLINE)] + rest;
    assert c.input == ExprTokens(e) + after;
    ParseExpr(c, e, after, maxDepth);
    if 2 + ExprDepth(e) < maxDepth {
      var d := Done(c, after, 6, ExprTree(e), maxDepth);
      DoneReady(c, ExprTokens(e), after, 6, ExprTree(e), maxDepth);
      EndLine(d, ExprTree(e), rest, roots, maxDepth);
      if 4 < maxDepth {
        ReachTrans(c, d, AtLine(rest, roots + [ExprTree(e)]), maxDepth);
      } else {
        ExhaustTrans(c, d, maxDepth);
      }
    }
  }

  /** Each line of an input fits the stack. */
  ghost predicate LinesFit(es: seq<Expr>, maxDepth: nat) {
    forall i :: 0 <= i < |es| ==> 2 + LineDepth(es[i]) < maxDepth
  }

  lemma LinesFitSnoc(es: seq<Expr>, maxDepth: nat)
    requires es != []
    ensures LinesFit(es, maxDepth) <==> LinesFit(es[..|es| - 1], maxDepth) && 2 + LineDepth(es[|es| - 1]) < maxDepth
  {
    var front := es[..|es| - 1];
    assert forall i :: 0 <= i < |front| ==> front[i] == es[i];
  }

  ghost predicate Fits(es: seq<Expr>, maxDepth: nat) {
    3 < maxDepth && LinesFit(es, maxDepth)
  }

  ghost predicate RunsOut(c: Config, maxDepth: nat) {
    exists d :: Reaches(c, d, maxDepth) && d.status == Exhausted
  }

  lemma Opens(input: seq<Token>, maxDepth: nat)
    requires TokensOk(input)
    ensures if 2 < maxDepth then Reaches(Start(input, maxDepth), AtLine(input, []), maxDepth)
            else RunsOut(Start(input, maxDepth), maxDepth)
  {
    var c := Start(input, maxDepth);
    assert Steps(c, 0, maxDepth) == c;
    if 1 < maxDepth {
      assert c.states == [0] && c.vals == [Blank];
      Reduces(c, c, 2, [], [], maxDepth);
      if maxDepth <= 2 { assert Reaches(c, Push(c, 1, Blank, maxDepth), maxDepth); }
    }
  }

  lemma NextLine(c: Config, e: Expr, rest: seq<Token>, roots: seq<Grammar.Tree>, maxDepth: nat)
    requires TokensOk(ExprTokens(e) + [Mark(NEWLINE)] + rest)
    requires Reaches(c, AtLine(ExprTokens(e) + [Mark(NEWLINE)] + rest, roots), maxDepth)
    ensures if 2 + LineDepth(e) < maxDepth then Reaches(c, AtLine(rest, roots + [ExprTree(e)]), maxDepth)
            else RunsOut(c, maxDepth)
  {
    var d := AtLine(ExprTokens(e) + [Mark(NEWLINE)] + rest, roots);
    ParseLine(e, rest, roots, maxDepth);
    if 2 + LineDepth(e) < maxDepth {
      ReachTrans(c, d, AtLine(rest, roots + [ExprTree(e)]), maxDepth);
    } else {
      var x :| Reaches(d, x, maxDepth) && x.status == Exhausted && x.roots == d.roots;
      ReachTrans(c, d, x, maxDepth);
    }
  }

  lemma {:induction false} ParseLines(es: seq<Expr>, rest: seq<Token>, maxDepth: nat)
    requires TokensOk(LinesTokens(es) + rest)
    ensures var c := Start(LinesTokens(es) + rest, maxDepth);
            if 2 < maxDepth && LinesFit(es, maxDepth) then Reaches(c, AtLine(rest, LinesTrees(es)), maxDepth)
            else RunsOut(c, maxDepth)
  {
    if es == [] {
      assert LinesTokens(es) + rest == rest;
      Opens(rest, maxDepth);
    } else {
      var front, e := es[..|es| - 1], es[|es| - 1];
      var line := ExprTokens(e) + [Mark(NEWLINE)] + rest;
      assert LinesTokens(es) + rest == LinesTokens(front) + line;
      LinesFitSnoc(es, maxDepth);
      ParseLines(front, line, maxDepth);
      SuffixOk(LinesTokens(front), line);
      if 2 < maxDepth && LinesFit(front, maxDepth) {
        NextLine(Start(LinesTokens(front) + line, maxDepth), e, rest, LinesTrees(front), maxDepth);
      }
    }
  }

  /**
   Every input the grammar derives is accepted with the derivations' trees, unless a line needs more stack than there
   is.
   */
  lemma AcceptsLines(es: seq<Expr>, maxDepth: nat)
    requires TokensOk(LinesTokens(es))
    ensures var c := Start(LinesTokens(es), maxDepth);
            if Fits(es, maxDepth)
            then exists d :: Reaches(c, d, maxDepth) && d.status == Accepted && d.roots == LinesTrees(es)
            else RunsOut(c, maxDepth)
  {
    var c := Start(LinesTokens(es), maxDepth);
    assert LinesTokens(es) + [] == LinesTokens(es);
    ParseLines(es, [], maxDepth);
    if 2 < maxDepth && LinesFit(es, maxDepth) {
      var d := AtLine([], LinesTrees(es));
      ReachEnd(d, maxDepth);
      ReachTrans(c, d, Push(d, FINAL, Blank, maxDepth), maxDepth);
    }
  }

  lemma ReachEnd(d: Config, maxDepth: nat)
    requires Ready(d) && d.input == [] && Last(d.states) == 1
    ensures Reaches(d, Push(d, FINAL, Blank, maxDepth), maxDepth)
  {
    ActIsTable(1, END);
    OneStep(d, maxDepth);
  }
}
