/** Everything the machine reports is derived: the stack always spells a prefix of the input. */
module LalrSound {
  import opened Grammar
  import opened Lalr

  /** What a stack slot stands for: a derivation, or a token as read. */
  datatype Symbol = Lines(es: seq<Expr>) | E(e: Expr) | T(t: Term) | F(f: Factor) | Tok(token: Token)

  function SymbolTokens(x: Symbol): seq<Token> {
    match x
    case Lines(es) => LinesTokens(es)
    case E(e) => ExprTokens(e)
    case T(t) => TermTokens(t)
    case F(f) => FactorTokens(f)
    case Tok(k) => [k]
  }

  function SymbolValue(x: Symbol): Value {
    match x
    case Lines(_) => Blank
    case E(e) => Tree(ExprTree(e))
    case T(t) => Tree(TermTree(t))
    case F(f) => Tree(FactorTree(f))
    case Tok(k) => Num(k.num)
  }

  function Spelled(xs: seq<Symbol>): seq<Token> {
    if xs == [] then [] else Spelled(xs[..|xs| - 1]) + SymbolTokens(xs[|xs| - 1])
  }

  /** The state entered from `p` on a symbol. */
  ghost predicate Link(p: nat, x: Symbol, q: nat) {
    match x
    case Lines(_) => p == 0 && q == 1
    case E(_) => (p == 1 && q == 5) || (p == 4 && q == 8)
    case T(_) => ((p == 1 || p == 4) && q == 6) || (p == 9 && q == 15) || (p == 10 && q == 16)
    case F(_) => ((p == 1 || p == 4 || p == 9 || p == 10) && q == 7) || (p == 12 && q == 17) || (p == 13 && q == 18)
    case Tok(k) => LinkTok(p, k, q)
  }

  ghost predicate LinkTok(p: nat, k: Token, q: nat) {
    || (q == 3 && k.kind == NUMBER && p in {1, 4, 9, 10, 12, 13})
    || (q == 4 && k == Mark(OPEN) && p in {1, 4, 9, 10, 12, 13})
    || (q == 9 && k == Mark(PLUS) && p in {5, 8})
    || (q == 10 && k == Mark(MINUS) && p in {5, 8})
    || (q == 12 && k == Mark(TIMES) && p in {6, 15, 16})
    || (q == 13 && k == Mark(DIVIDE) && p in {6, 15, 16})
    || (q == 11 && k == Mark(NEWLINE) && p == 5)
    || (q == 14 && k == Mark(CLOSE) && p == 8)
  }

  ghost predicate Linked(c: Config, xs: seq<Symbol>) {
    && |c.states| == |c.vals| == |xs| + 1
    && c.states[0] == 0 && c.vals[0] == Blank
    && forall i :: 0 <= i < |xs| ==> Link(c.states[i], xs[i], c.states[i + 1]) && c.vals[i + 1] == SymbolValue(xs[i])
  }

  /** The lines reported so far are those at the bottom of the stack. */
  ghost predicate Reported(xs: seq<Symbol>, roots: seq<Grammar.Tree>) {
    if xs == [] then roots == [] else xs[0].Lines? && roots == LinesTrees(xs[0].es)
  }

  ghost predicate Stacked(c: Config, xs: seq<Symbol>, input: seq<Token>) {
    && Linked(c, xs)
    && Spelled(xs) + c.input == input
    && Reported(xs, c.roots)
    && TokensOk(c.input)
  }

  lemma LinkedStates(c: Config, xs: seq<Symbol>)
    requires Linked(c, xs)
    ensures forall i :: 0 <= i < |c.states| ==> c.states[i] < NSTATES && c.states[i] != FINAL
  {
    forall i | 0 <= i < |c.states| ensures c.states[i] < NSTATES && c.states[i] != FINAL {
      if i > 0 { assert Link(c.states[i - 1], xs[i - 1], c.states[i]); }
    }
  }

  /** State 0 is only at the bottom, and state 1 only just above it. */
  lemma StateAbove(c: Config, xs: seq<Symbol>, i: nat)
    requires Linked(c, xs) && i < |c.states|
    ensures c.states[i] == 0 <==> i == 0
    ensures c.states[i] == 1 <==> i == 1
  {
    if i > 0 { assert Link(c.states[i - 1], xs[i - 1], c.states[i]); }
    if i > 1 { assert Link(c.states[i - 2], xs[i - 2], c.states[i - 1]); }
  }

  lemma ShiftLinks(p: nat, k: Token, q: nat)
    requires p < NSTATES && TokenOk(k) && ActTable(p, k.kind) == Shift(q)
    ensures LinkTok(p, k, q)
  { }

  lemma SpelledSnoc(xs: seq<Symbol>, x: Symbol)
    ensures Spelled(xs + [x]) == Spelled(xs) + SymbolTokens(x)
  {
    assert (xs + [x])[..|xs|] == xs;
  }

  /** Adding a slot on top. */
  lemma PushKeeps(c: Config, xs: seq<Symbol>, x: Symbol, state: nat, maxDepth: nat)
    requires Linked(c, xs) && Link(c.states[|xs|], x, state)
    ensures Linked(Push(c, state, SymbolValue(x), maxDepth), xs + [x])
  {
    var d := Push(c, state, SymbolValue(x), maxDepth);
    forall i | 0 <= i < |xs| + 1
      ensures Link(d.states[i], (xs + [x])[i], d.states[i + 1]) && d.vals[i + 1] == SymbolValue((xs + [x])[i])
    {
      if i < |xs| { assert Link(c.states[i], xs[i], c.states[i + 1]); }
    }
  }

  /** Taking slots off the top. */
  lemma PopKeeps(c: Config, xs: seq<Symbol>, n: nat)
    requires Linked(c, xs) && n <= |xs|
    ensures Linked(c.(states := c.states[..n + 1], vals := c.vals[..n + 1]), xs[..n])
  { }

  /** The one state each rule is reduced in. */
  ghost predicate ReducedIn(r: nat, s: nat) {
    || (r == 1 && s == 2) || (r == 2 && s == 0) || (r == 3 && s == 11) || (r == 4 && s == 15) || (r == 5 && s == 16)
    || (r == 6 && s == 6) || (r == 7 && s == 17) || (r == 8 && s == 18) || (r == 9 && s == 7) || (r == 10 && s == 3)
       || (r == 11 && s == 14)
  }

  lemma ReduceWhere(s: nat, kind: nat, r: nat)
    requires s < NSTATES && ActTable(s, kind) == Reduce(r)
    ensures ReducedIn(r, s)
  { }

  /** The tokens of the top three symbols. */
  function Spelled3(x: Symbol, y: Symbol, z: Symbol): seq<Token> {
    SymbolTokens(x) + SymbolTokens(y) + SymbolTokens(z)
  }

  /** In the state of a one-symbol rule, the top slot is that symbol. */
  lemma TopUnit(c: Config, xs: seq<Symbol>, r: nat) returns (x: Symbol)
    requires Linked(c, xs) && r in {6, 9, 10} && ReducedIn(r, Last(c.states))
    ensures |xs| > 1 && !x.Lines?
    ensures Link(c.states[|xs| - 1], x, GotoTable(c.states[|xs| - 1], r))
    ensures SymbolValue(x) == RuleValue(r, [c.vals[|xs|]])
    ensures SymbolTokens(x) == SymbolTokens(xs[|xs| - 1])
  {
    var n := |xs|;
    assert n > 0;
    assert Link(c.states[n - 1], xs[n - 1], c.states[n]);
    var y := xs[n - 1];
    x := if r == 10 then F(Number(y.token.num)) else if r == 9 then T(JustFactor(y.f)) else E(JustTerm(y.t));
    assert c.states[n - 1] != 0;
  }

  /** In the state of an operator rule, the top three slots are operand, operator and operand. */
  lemma TopOp(c: Config, xs: seq<Symbol>, r: nat) returns (x: Symbol)
    requires Linked(c, xs) && r in {4, 5, 7, 8} && ReducedIn(r, Last(c.states))
    ensures |xs| > 3 && !x.Lines?
    ensures Link(c.states[|xs| - 3], x, GotoTable(c.states[|xs| - 3], r))
    ensures SymbolValue(x) == RuleValue(r, [c.vals[|xs| - 2], c.vals[|xs| - 1], c.vals[|xs|]])
    ensures SymbolTokens(x) == Spelled3(xs[|xs| - 3], xs[|xs| - 2], xs[|xs| - 1])
  {
    var n := |xs|;
    assert n > 0;
    assert Link(c.states[n - 1], xs[n - 1], c.states[n]);
    assert c.states[n - 1] in {9, 10, 12, 13} && n > 1;
    assert Link(c.states[n - 2], xs[n - 2], c.states[n - 1]);
    assert c.states[n - 2] in {5, 8, 6, 15, 16} && n > 2;
    assert Link(c.states[n - 3], xs[n - 3], c.states[n - 2]);
    assert c.states[n - 3] != 0;
    if r == 4 { x := E(Sum(xs[n - 3].e, xs[n - 1].t)); }
    else if r == 5 { x := E(Difference(xs[n - 3].e, xs[n - 1].t)); }
    else if r == 7 { x := T(Product(xs[n - 3].t, xs[n - 1].f)); }
    else { x := T(Quotient(xs[n - 3].t, xs[n - 1].f)); }
  }

  lemma TopParens(c: Config, xs: seq<Symbol>) returns (x: Symbol)
    requires Linked(c, xs) && Last(c.states) == 14
    ensures |xs| > 3 && !x.Lines?
    ensures Link(c.states[|xs| - 3], x, GotoTable(c.states[|xs| - 3], 11))
    ensures SymbolValue(x) == RuleValue(11, [c.vals[|xs| - 2], c.vals[|xs| - 1], c.vals[|xs|]])
    ensures SymbolTokens(x) == Spelled3(xs[|xs| - 3], xs[|xs| - 2], xs[|xs| - 1])
  {
    var n := |xs|;
    assert n > 0;
    assert Link(c.states[n - 1], xs[n - 1], c.states[n]);
    assert n > 1;
    assert Link(c.states[n - 2], xs[n - 2], c.states[n - 1]);
    assert n > 2;
    assert Link(c.states[n - 3], xs[n - 3], c.states[n - 2]);
    assert c.states[n - 3] != 0;
    x := F(Parens(xs[n - 2].e));
  }

  /** A whole line on the stack: the bottom slot, an expression and the newline. */
  lemma TopLine(c: Config, xs: seq<Symbol>) returns (x: Symbol)
    requires Linked(c, xs) && Last(c.states) == 11
    ensures |xs| == 3 && xs[0].Lines? && xs[1].E? && x == Lines(xs[0].es + [xs[1].e])
    ensures SymbolTokens(x) == Spelled3(xs[0], xs[1], xs[2])
  {
    var n := |xs|;
    assert n > 0;
    assert Link(c.states[n - 1], xs[n - 1], c.states[n]);
    assert n > 1;
    assert Link(c.states[n - 2], xs[n - 2], c.states[n - 1]);
    assert n > 2;
    assert Link(c.states[n - 3], xs[n - 3], c.states[n - 2]);
    StateAbove(c, xs, n - 2);
    x := Lines(xs[0].es + [xs[1].e]);
    assert x.es[..|x.es| - 1] == xs[0].es;
  }

  lemma Regroup<A>(p: seq<A>, x: seq<A>, y: seq<A>, z: seq<A>)
    ensures p + x + y + z == p + (x + y + z)
  { }

  lemma SpelledPrefix(xs: seq<Symbol>, n: nat)
    requires n < |xs|
    ensures Spelled(xs[..n + 1]) == Spelled(xs[..n]) + SymbolTokens(xs[n])
  {
    assert xs[..n + 1][..n] == xs[..n];
  }

  lemma Spelled3Is(xs: seq<Symbol>, n: nat)
    requires |xs| == n + 3
    ensures Spelled(xs) == Spelled(xs[..n]) + Spelled3(xs[n], xs[n + 1], xs[n + 2])
  {
    SpelledPrefix(xs, n);
    SpelledPrefix(xs, n + 1);
    SpelledPrefix(xs, n + 2);
    assert xs[..n + 3] == xs;
    Regroup(Spelled(xs[..n]), SymbolTokens(xs[n]), SymbolTokens(xs[n + 1]), SymbolTokens(xs[n + 2]));
  }

  /** A reduction takes the right-hand side off and pushes one slot. */
  lemma ReduceShape(c: Config, n: nat, r: nat, v: Value, maxDepth: nat)
    requires 0 < r <= 11 && r != 3 && |c.states| == |c.vals| == n + 1 + RuleLen(r) && v == RuleValue(r, c.vals[n + 1..])
    ensures ReduceFlat(c, r, maxDepth) ==
              Push(c.(states := c.states[..n + 1], vals := c.vals[..n + 1]), GotoTable(c.states[n], r), v, maxDepth)
  { }

  /** A reduction replaces the top slots by the derivation they make up. */
  lemma ReplaceTop(c: Config, c': Config, xs: seq<Symbol>, input: seq<Token>, len: nat, r: nat, x: Symbol,
                   maxDepth: nat)
    requires Stacked(c, xs, input) && 0 < r <= 11 && len == RuleLen(r) && len < |xs|
    requires !x.Lines? && r != 3 && Link(c.states[|xs| - len], x, GotoTable(c.states[|xs| - len], r))
    requires SymbolValue(x) == RuleValue(r, c.vals[|xs| + 1 - len..])
    requires Spelled(xs) == Spelled(xs[..|xs| - len]) + SymbolTokens(x)
    requires c' == ReduceFlat(c, r, maxDepth)
    ensures Stacked(c', xs[..|xs| - len] + [x], input)
  {
    var n := |xs| - len;
    ReduceShape(c, n, r, SymbolValue(x), maxDepth);
    Replaced(c, c', xs, input, n, GotoTable(c.states[n], r), x, maxDepth);
  }

  lemma Replaced(c: Config, c': Config, xs: seq<Symbol>, input: seq<Token>, n: nat, state: nat, x: Symbol,
                 maxDepth: nat)
    requires Stacked(c, xs, input) && 0 < n <= |xs| && !x.Lines? && Link(c.states[n], x, state)
    requires c' == Push(c.(states := c.states[..n + 1], vals := c.vals[..n + 1]), state, SymbolValue(x), maxDepth)
    requires Spelled(xs) == Spelled(xs[..n]) + SymbolTokens(x)
    ensures Stacked(c', xs[..n] + [x], input)
  {
    PopKeeps(c, xs, n);
    PushKeeps(c.(states := c.states[..n + 1], vals := c.vals[..n + 1]), xs[..n], x, state, maxDepth);
    SpelledSnoc(xs[..n], x);
    assert xs[..n][0] == xs[0];
  }

  lemma ReduceUnitSound(c: Config, c': Config, xs: seq<Symbol>, input: seq<Token>, r: nat, maxDepth: nat)
      returns (ys: seq<Symbol>)
    requires Stacked(c, xs, input) && r in {6, 9, 10} && ReducedIn(r, Last(c.states))
    requires RuleLen(r) < |c.states| ==> c' == ReduceFlat(c, r, maxDepth)
    ensures RuleLen(r) < |c.states| && Stacked(c', ys, input) && |ys| == |xs| > 0
  {
    var x := TopUnit(c, xs, r);
    assert c.vals[|xs|..] == [c.vals[|xs|]];
    ReplaceTop(c, c', xs, input, 1, r, x, maxDepth);
    ys := xs[..|xs| - 1] + [x];
  }

  /** A rule with three symbols on its right-hand side. */
  lemma ReduceThree(c: Config, c': Config, xs: seq<Symbol>, input: seq<Token>, r: nat, x: Symbol, maxDepth: nat)
    requires Stacked(c, xs, input) && 0 < r <= 11 && r != 3 && RuleLen(r) == 3 && |xs| > 3 && !x.Lines?
    requires Link(c.states[|xs| - 3], x, GotoTable(c.states[|xs| - 3], r))
    requires SymbolValue(x) == RuleValue(r, [c.vals[|xs| - 2], c.vals[|xs| - 1], c.vals[|xs|]])
    requires SymbolTokens(x) == Spelled3(xs[|xs| - 3], xs[|xs| - 2], xs[|xs| - 1])
    requires c' == ReduceFlat(c, r, maxDepth)
    ensures Stacked(c', xs[..|xs| - 3] + [x], input)
  {
    LastThree(c.vals);
    Spelled3Is(xs, |xs| - 3);
    ReplaceTop(c, c', xs, input, 3, r, x, maxDepth);
  }

  lemma LastThree<T>(s: seq<T>)
    requires |s| > 3
    ensures var n := |s| - 3; s[n..] == [s[n], s[n + 1], s[n + 2]]
  { }

  lemma OpLen(r: nat)
    requires r in {4, 5, 7, 8}
    ensures 0 < r <= 11 && r != 3 && RuleLen(r) == 3
  { }

  lemma ReduceOpSound(c: Config, c': Config, xs: seq<Symbol>, input: seq<Token>, r: nat, maxDepth: nat)
      returns (ys: seq<Symbol>)
    requires Stacked(c, xs, input) && r in {4, 5, 7, 8} && ReducedIn(r, Last(c.states))
    requires RuleLen(r) < |c.states| ==> c' == ReduceFlat(c, r, maxDepth)
    ensures RuleLen(r) < |c.states| && Stacked(c', ys, input) && 0 < |ys| < |xs|
  {
    var x := TopOp(c, xs, r);
    OpLen(r);
    ReduceThree(c, c', xs, input, r, x, maxDepth);
    ys := xs[..|xs| - 3] + [x];
  }

  lemma ReduceParensSound(c: Config, c': Config, xs: seq<Symbol>, input: seq<Token>, maxDepth: nat)
      returns (ys: seq<Symbol>)
    requires Stacked(c, xs, input) && Last(c.states) == 14
    requires RuleLen(11) < |c.states| ==> c' == ReduceFlat(c, 11, maxDepth)
    ensures RuleLen(11) < |c.states| && Stacked(c', ys, input) && 0 < |ys| < |xs|
  {
    var x := TopParens(c, xs);
    ReduceThree(c, c', xs, input, 11, x, maxDepth);
    ys := xs[..|xs| - 3] + [x];
  }

  lemma ReduceLineSound(c: Config, xs: seq<Symbol>, input: seq<Token>, maxDepth: nat) returns (ys: seq<Symbol>)
    requires Stacked(c, xs, input) && Last(c.states) == 11
    ensures 3 < |c.states| && Stacked(ReduceFlat(c, 3, maxDepth), ys, input) && 0 < |ys| < |xs|
  {
    var x := TopLine(c, xs);
    var d := ReduceFlat(c, 3, maxDepth);
    assert c.states[..1] == [0] && c.vals[..1] == [Blank];
    assert Link(c.states[0], xs[0], c.states[1]) && c.vals[1] == Blank;
    assert c.vals[1..] == [c.vals[1], c.vals[2], c.vals[3]];
    assert d.states == [0, 1] && d.vals == [Blank, Blank];
    Spelled3Is(xs, 0);
    ys := [x];
    SpelledSnoc([], x);
    assert [] + [x] == ys;
    assert x.es[..|x.es| - 1] == xs[0].es;
    assert c.vals[2] == SymbolValue(xs[1]);
  }

  lemma ReduceEmptySound(c: Config, xs: seq<Symbol>, input: seq<Token>, maxDepth: nat) returns (ys: seq<Symbol>)
    requires Stacked(c, xs, input) && Last(c.states) == 0
    ensures 0 < |c.states| && Stacked(ReduceFlat(c, 2, maxDepth), ys, input) && |xs| == 0 && |ys| == 1
  {
    StateAbove(c, xs, |xs|);
    var x := Lines([]);
    assert c.states[..|c.states|] == c.states && c.vals[..|c.vals|] == c.vals;
    PushKeeps(c, xs, x, 1, maxDepth);
    SpelledSnoc(xs, x);
    ys := xs + [x];
    assert LinesTokens([]) == [] && LinesTrees([]) == [];
  }

  /** The reported trees are those of lines the input starts with. */
  ghost predicate Explained(roots: seq<Grammar.Tree>, input: seq<Token>) {
    exists es :: roots == LinesTrees(es) && LinesTokens(es) <= input
  }

  lemma StackedExplained(c: Config, xs: seq<Symbol>, input: seq<Token>)
    requires Stacked(c, xs, input)
    ensures Explained(c.roots, input)
  {
    if xs == [] {
      assert LinesTrees([]) == [] && LinesTokens([]) == [];
      assert LinesTokens([]) <= input;
    } else {
      SpelledFirst(xs);
      assert LinesTokens(xs[0].es) <= input;
    }
  }

  lemma {:induction false} SpelledFirst(xs: seq<Symbol>)
    requires xs != []
    ensures SymbolTokens(xs[0]) <= Spelled(xs)
  {
    if |xs| == 1 {
      SpelledSnoc([], xs[0]);
      assert [] + [xs[0]] == xs;
    } else {
      SpelledFirst(xs[..|xs| - 1]);
    }
  }

  /** A measure every step but the last lowers: tokens to read, then the stack and the rank of its top. */
  function Rank(state: nat): nat {
    if state == 0 then 8
    else if state == 3 then 3 else if state in {7, 17, 18} then 2 else if state in {6, 15, 16} then 1 else 0
  }

  function Size(c: Config): nat
    requires c.states != []
  {
    4 * |c.states| + Rank(Last(c.states))
  }

  ghost predicate Lower(d: Config, c: Config)
    requires c.states != [] && d.states != []
  {
    |d.input| < |c.input| || (|d.input| == |c.input| && Size(d) < Size(c))
  }

  lemma ReduceLowers(c: Config, r: nat, maxDepth: nat)
    requires c.states != [] && |c.states| == |c.vals| && ReducedIn(r, Last(c.states)) && r != 1
             && RuleLen(r) < |c.states|
    ensures Size(ReduceFlat(c, r, maxDepth)) < Size(c)
  {
    var d := ReduceFlat(c, r, maxDepth);
    var q := GotoTable(c.states[|c.states| - RuleLen(r) - 1], r);
    assert |d.states| == |c.states| - RuleLen(r) + 1 && Last(d.states) == q;
    assert Rank(q) < 3;
  }

  lemma ReduceSound(c: Config, xs: seq<Symbol>, input: seq<Token>, r: nat, maxDepth: nat) returns (ys: seq<Symbol>)
    requires Stacked(c, xs, input) && ReducedIn(r, Last(c.states)) && r != 1
    ensures 0 < r <= 11 && RuleLen(r) < |c.states|
    ensures Stacked(ReduceFlat(c, r, maxDepth), ys, input)
  {
    var d := if RuleLen(r) < |c.states| then ReduceFlat(c, r, maxDepth) else c;
    if r == 2 { ys := ReduceEmptySound(c, xs, input, maxDepth); }
    else if r == 3 { ys := ReduceLineSound(c, xs, input, maxDepth); }
    else if r == 11 { ys := ReduceParensSound(c, d, xs, input, maxDepth); }
    else if r in {6, 9, 10} { ys := ReduceUnitSound(c, d, xs, input, r, maxDepth); }
    else { ys := ReduceOpSound(c, d, xs, input, r, maxDepth); }
  }

  lemma ShiftSound(c: Config, xs: seq<Symbol>, input: seq<Token>, s: nat, maxDepth: nat)
    requires Stacked(c, xs, input) && c.input != [] && ActTable(Last(c.states), c.input[0].kind) == Shift(s)
    ensures Stacked(Push(c.(input := c.input[1..]), s, Num(c.input[0].num), maxDepth), xs + [Tok(c.input[0])], input)
  {
    LinkedStates(c, xs);
    ShiftLinks(Last(c.states), c.input[0], s);
    StateAbove(c, xs, |xs|);
    PushKeeps(c.(input := c.input[1..]), xs, Tok(c.input[0]), s, maxDepth);
    ShiftSpelled(xs, c.input);
  }

  lemma ShiftSpelled(xs: seq<Symbol>, ahead: seq<Token>)
    requires ahead != []
    ensures Spelled(xs + [Tok(ahead[0])]) + ahead[1..] == Spelled(xs) + ahead
  {
    SpelledSnoc(xs, Tok(ahead[0]));
    HeadMoves(Spelled(xs), ahead);
  }

  lemma HeadMoves<T>(a: seq<T>, b: seq<T>)
    requires b != []
    ensures a + [b[0]] + b[1..] == a + b
  { }

  /** On the end of input, a shift means that the stack is a whole number of lines. */
  lemma EndSound(c: Config, xs: seq<Symbol>, input: seq<Token>, s: nat)
    requires Stacked(c, xs, input) && c.input == [] && ActTable(Last(c.states), END) == Shift(s)
    ensures s == FINAL && |xs| == 1 && xs[0].Lines? && input == LinesTokens(xs[0].es) && c.roots == LinesTrees(xs[0].es)
  {
    LinkedStates(c, xs);
    EndInBottom(Last(c.states), s);
    StateAbove(c, xs, |xs|);
    assert Spelled(xs) + [] == Spelled(xs);
    SpelledOne(xs);
  }

  lemma SpelledOne(xs: seq<Symbol>)
    requires |xs| == 1
    ensures Spelled(xs) == SymbolTokens(xs[0])
  {
    assert Spelled(xs[..0]) == [];
  }

  lemma EndInBottom(state: nat, s: nat)
    requires state < NSTATES && ActTable(state, END) == Shift(s)
    ensures state == 1 && s == FINAL
  { }

  /**
   What holds after a step from `c`: the stack goes on spelling what was read, or the parse ends for a stated reason.
   */
  ghost predicate After(c: Config, d: Config, ys: seq<Symbol>, input: seq<Token>)
    requires c.states != []
  {
    && Explained(d.roots, input)
    && (d.status == Going ==> Stacked(d, ys, input) && Lower(d, c))
    && (d.status == Accepted ==> exists es :: input == LinesTokens(es) && d.roots == LinesTrees(es))
  }

  lemma AfterShift(c: Config, xs: seq<Symbol>, input: seq<Token>, s: nat, maxDepth: nat) returns (ys: seq<Symbol>)
    requires Stacked(c, xs, input) && c.input != [] && ActTable(Last(c.states), c.input[0].kind) == Shift(s)
    ensures After(c, Push(c.(input := c.input[1..]), s, Num(c.input[0].num), maxDepth), ys, input)
  {
    var d := Push(c.(input := c.input[1..]), s, Num(c.input[0].num), maxDepth);
    ShiftSound(c, xs, input, s, maxDepth);
    ys := xs + [Tok(c.input[0])];
    StackedExplained(d, ys, input);
    LinkedStates(d, ys);
    assert Last(d.states) == s;
  }

  lemma AfterEnd(c: Config, xs: seq<Symbol>, input: seq<Token>, s: nat, maxDepth: nat)
    requires Stacked(c, xs, input) && c.input == [] && ActTable(Last(c.states), END) == Shift(s)
    ensures After(c, Push(c, s, Blank, maxDepth), xs, input)
  {
    StackedExplained(c, xs, input);
    EndSound(c, xs, input, s);
  }

  lemma AfterReduce(c: Config, xs: seq<Symbol>, input: seq<Token>, r: nat, kind: nat, maxDepth: nat)
      returns (ys: seq<Symbol>)
    requires Stacked(c, xs, input) && ActTable(Last(c.states), kind) == Reduce(r)
    ensures 0 < r <= 11 && RuleLen(r) < |c.states| && After(c, ReduceFlat(c, r, maxDepth), ys, input)
  {
    LinkedStates(c, xs);
    ReduceWhere(Last(c.states), kind, r);
    ys := ReduceSound(c, xs, input, r, maxDepth);
    var d := ReduceFlat(c, r, maxDepth);
    StackedExplained(d, ys, input);
    LinkedStates(d, ys);
    assert Last(d.states) != FINAL;
    ReduceLowers(c, r, maxDepth);
  }

  lemma StepSound(c: Config, xs: seq<Symbol>, input: seq<Token>, maxDepth: nat) returns (ys: seq<Symbol>)
    requires Stacked(c, xs, input) && c.status == Going
    ensures After(c, Step(c, maxDepth), ys, input)
  {
    LinkedStates(c, xs);
    ActIsTable(Last(c.states), Ahead(c.input));
    ys := xs;
    match ActTable(Last(c.states), Ahead(c.input))
    case Error => StackedExplained(c, xs, input);
    case Shift(s) =>
      if c.input == [] { AfterEnd(c, xs, input, s, maxDepth); } else { ys := AfterShift(c, xs, input, s, maxDepth); }
    case Reduce(r) => ys := AfterReduce(c, xs, input, r, Ahead(c.input), maxDepth);
  }
}
