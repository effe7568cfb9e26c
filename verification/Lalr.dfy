/** Repeating a step. */
module Iteration {
  ghost function Iterate<C>(f: C -> C, c: C, n: nat): C {
    if n == 0 then c else f(Iterate(f, c, n - 1))
  }

  lemma {:induction false} IterateAdd<C>(f: C -> C, c: C, m: nat, n: nat)
    ensures Iterate(f, Iterate(f, c, m), n) == Iterate(f, c, m + n)
  {
    if n > 0 { IterateAdd(f, c, m, n - 1); }
  }
}

/**
 The parser as Bison generated it: the packed tables, and the shift-reduce machine that reads
 them.  A configuration holds the state and value stacks, the unread tokens (their end is the end
 of input) and the trees printed so far.
 */
module Lalr {
  import opened Grammar
  import opened Iteration

  function Pact(): seq<int> { [-4, 0, -4, -4, 1, 7, -1, -4, -3, 1, 1, -4, 1, 1, -4, -1, -1, -4, -4] }
  function Defact(): seq<int> { [2, 0, 1, 10, 0, 0, 6, 9, 0, 0, 0, 3, 0, 0, 11, 4, 5, 7, 8] }
  function Pgoto(): seq<int> { [-4, -4, 12, 4, 5] }
  function Defgoto(): seq<int> { [0, 1, 5, 6, 7] }
  function Table(): seq<int> { [2, 9, 10, 3, 3, 12, 13, 14, 0, 4, 4, 9, 10, 15, 16, 11, 8, 17, 18] }
  function Check(): seq<int> { [0, 4, 5, 3, 3, 6, 7, 10, -1, 9, 9, 4, 5, 9, 10, 8, 4, 12, 13] }
  function R1(): seq<int> { [0, 11, 12, 12, 13, 13, 13, 14, 14, 14, 15, 15] }
  function R2(): seq<int> { [0, 2, 0, 3, 3, 3, 1, 3, 3, 1, 1, 3] }

  const PACT_NINF := -4
  const FINAL := 2
  const LAST := 18
  const NTOKENS := 11
  const NSTATES := 19
  const ERROR_TOKEN := 1

  datatype Action = Shift(state: nat) | Reduce(rule: nat) | Error

  /** The default action of a state. */
  function Default(state: nat): Action
    requires state < NSTATES
  {
    if Defact()[state] == 0 then Error else Reduce(Defact()[state])
  }

  /** What the tables say to do in a state on a token kind. */
  function Act(state: nat, kind: nat): Action
    requires state < NSTATES && kind < NTOKENS
  {
    if Pact()[state] == PACT_NINF then Default(state)
    else
      var n := Pact()[state] + kind;
      if n < 0 || LAST < n || Check()[n] != kind then Default(state)
      else if Table()[n] <= 0 then Reduce(-Table()[n])
      else Shift(Table()[n])
  }

  /** The state entered after a rule is reduced with `state` on top. */
  function Goto(state: nat, rule: nat): int
    requires state < NSTATES && 0 < rule <= 11
  {
    var lhs := R1()[rule] - NTOKENS;
    var i := Pgoto()[lhs] + state;
    if 0 <= i <= LAST && Check()[i] == state then Table()[i] else Defgoto()[lhs]
  }

  // ---------------------------------------------------------------- the tables, unpacked

  function ActTable(state: nat, kind: nat): Action {
    match state
    case 0 => Reduce(2)
    case 1 => if kind == END then Shift(2)
              else if kind == NUMBER then Shift(3) else if kind == OPEN then Shift(4) else Error
    case 2 => Reduce(1)
    case 3 => Reduce(10)
    case 5 => if kind == PLUS then Shift(9)
              else if kind == MINUS then Shift(10) else if kind == NEWLINE then Shift(11) else Error
    case 6 => if kind == TIMES then Shift(12) else if kind == DIVIDE then Shift(13) else Reduce(6)
    case 7 => Reduce(9)
    case 8 => if kind == PLUS then Shift(9)
              else if kind == MINUS then Shift(10) else if kind == CLOSE then Shift(14) else Error
    case 11 => Reduce(3)
    case 14 => Reduce(11)
    case 15 => if kind == TIMES then Shift(12) else if kind == DIVIDE then Shift(13) else Reduce(4)
    case 16 => if kind == TIMES then Shift(12) else if kind == DIVIDE then Shift(13) else Reduce(5)
    case 17 => Reduce(7)
    case 18 => Reduce(8)
    case _ => if kind == NUMBER then Shift(3) else if kind == OPEN then Shift(4) else Error
  }

  lemma ActIsTable(state: nat, kind: nat)
    requires state < NSTATES && kind < NTOKENS
    ensures Act(state, kind) == ActTable(state, kind)
  {
    if state < 3 { ActRows0(state, kind); }
    else if state < 5 { ActRows3(state, kind); }
    else if state < 7 { ActRows5(state, kind); }
    else if state < 9 { ActRows7(state, kind); }
    else if state < 12 { ActRows9(state, kind); }
    else if state < 14 { ActRows12(state, kind); }
    else { ActRows14(state, kind); }
  }

  lemma ActRows0(state: nat, kind: nat)
    requires state < 3 && kind < NTOKENS
    ensures Act(state, kind) == ActTable(state, kind)
  { }

  lemma ActRows3(state: nat, kind: nat)
    requires 3 <= state < 5 && kind < NTOKENS
    ensures Act(state, kind) == ActTable(state, kind)
  { }

  lemma ActRows5(state: nat, kind: nat)
    requires 5 <= state < 7 && kind < NTOKENS
    ensures Act(state, kind) == ActTable(state, kind)
  { }

  lemma ActRows7(state: nat, kind: nat)
    requires 7 <= state < 9 && kind < NTOKENS
    ensures Act(state, kind) == ActTable(state, kind)
  { }

  lemma ActRows9(state: nat, kind: nat)
    requires 9 <= state < 12 && kind < NTOKENS
    ensures Act(state, kind) == ActTable(state, kind)
  { }

  lemma ActRows12(state: nat, kind: nat)
    requires 12 <= state < 14 && kind < NTOKENS
    ensures Act(state, kind) == ActTable(state, kind)
  { }

  lemma ActRows14(state: nat, kind: nat)
    requires 14 <= state < NSTATES && kind < NTOKENS
    ensures Act(state, kind) == ActTable(state, kind)
  { }

  function GotoTable(state: nat, rule: nat): nat {
    if rule == 1 then 0
    else if rule <= 3 then 1
    else if rule <= 6 then if state == 4 then 8 else 5
    else if rule <= 9 then if state == 9 then 15 else if state == 10 then 16 else 6
    else if state == 12 then 17 else if state == 13 then 18 else 7
  }

  lemma GotoIsTable(state: nat, rule: nat)
    requires state < NSTATES && 0 < rule <= 11
    ensures Goto(state, rule) == GotoTable(state, rule)
  { }

  /** The number of symbols on the right of a rule. */
  function RuleLen(rule: nat): nat {
    if rule in {6, 9, 10} then 1 else if rule == 0 || rule == 2 then 0 else if rule == 1 then 2 else 3
  }

  lemma RuleLenIsTable(rule: nat)
    requires rule <= 11
    ensures R2()[rule] == RuleLen(rule)
  { }

  // ---------------------------------------------------------------- the machine

  /** A slot of the value stack: the union of a number and a tree, or nothing yet. */
  datatype Value = Blank | Num(n: nat) | Tree(tree: Grammar.Tree)

  datatype Status = Going | Accepted | Aborted | Exhausted

  datatype Config = Config(states: seq<nat>, vals: seq<Value>, input: seq<Token>, roots: seq<Grammar.Tree>,
                           status: Status)

  function AsTree(v: Value): Grammar.Tree {
    if v.Tree? then v.tree else Leaf(0)
  }

  function AsNum(v: Value): nat {
    if v.Num? then v.n else 0
  }

  /** The kind of the lookahead token. */
  function Ahead(input: seq<Token>): nat {
    if input == [] then END else input[0].kind
  }

  function Last<T>(s: seq<T>): T
    requires s != []
  {
    s[|s| - 1]
  }

  /** Push a state and its value; a full stack ends the parse, and so does the final state. */
  function Push(c: Config, state: nat, v: Value, maxDepth: nat): Config {
    c.(states := c.states + [state], vals := c.vals + [v],
       status := if |c.states| + 1 >= maxDepth then Exhausted else if state == FINAL then Accepted else Going)
  }

  function Start(input: seq<Token>, maxDepth: nat): Config {
    Push(Config([], [], input, [], Going), 0, Blank, maxDepth)
  }

  /** The value of the left-hand side, given the values of the right-hand side. */
  function RuleValue(rule: nat, rhs: seq<Value>): Value
    requires rule <= 11 && |rhs| == RuleLen(rule)
  {
    match rule
    case 2 => Blank
    case 4 => Tree(Node(Add, AsTree(rhs[0]), AsTree(rhs[2])))
    case 5 => Tree(Node(Sub, AsTree(rhs[0]), AsTree(rhs[2])))
    case 7 => Tree(Node(Mul, AsTree(rhs[0]), AsTree(rhs[2])))
    case 8 => Tree(Node(Div, AsTree(rhs[0]), AsTree(rhs[2])))
    case 10 => Tree(Leaf(AsNum(rhs[0])))
    case 11 => rhs[1]
    case 0 => Blank
    case _ => rhs[0]
  }

  /** Pop `len` symbols, report the line's tree if the rule is rule 3, and enter `state`. */
  function ReduceTo(c: Config, rule: nat, len: nat, state: nat, maxDepth: nat): Config
    requires rule <= 11 && len == RuleLen(rule) && |c.states| == |c.vals| > len
  {
    var n := |c.states| - len;
    var rhs := c.vals[n..];
    Push(c.(states := c.states[..n], vals := c.vals[..n],
            roots := if rule == 3 then c.roots + [AsTree(rhs[1])] else c.roots),
         state, RuleValue(rule, rhs), maxDepth)
  }

  /** A reduction by the unpacked tables. */
  function ReduceFlat(c: Config, rule: nat, maxDepth: nat): Config
    requires 0 < rule <= 11 && |c.states| == |c.vals| > RuleLen(rule)
  {
    ReduceTo(c, rule, RuleLen(rule), GotoTable(c.states[|c.states| - RuleLen(rule) - 1], rule), maxDepth)
  }

  /** Reduce by a rule, as the packed tables say. */
  function ReduceBy(c: Config, rule: nat, maxDepth: nat): (r: Config)
    requires 0 < rule <= 11 && |c.states| == |c.vals| > RuleLen(rule)
    requires forall i :: 0 <= i < |c.states| ==> c.states[i] < NSTATES
    ensures r == ReduceFlat(c, rule, maxDepth)
  {
    RuleLenIsTable(rule);
    var len := R2()[rule];
    var top := c.states[|c.states| - len - 1];
    GotoIsTable(top, rule);
    ReduceTo(c, rule, len, Goto(top, rule), maxDepth)
  }

  /** Token kinds as `yytranslate` gives them; the end of input is not a token here. */
  predicate TokensOk(input: seq<Token>) {
    forall i :: 0 <= i < |input| ==> TokenOk(input[i])
  }

  predicate TokenOk(t: Token) {
    0 < t.kind < NTOKENS && (t.kind != NUMBER ==> t.num == 0)
  }

  predicate Sound(c: Config) {
    && c.states != [] && |c.states| == |c.vals|
    && (forall i :: 0 <= i < |c.states| ==> c.states[i] < NSTATES)
    && TokensOk(c.input)
  }

  /**
   One round of the parser's loop.  No state shifts the error token, so on an error the recovery
   loop pops every state and the parse is aborted.
   */
  function Step(c: Config, maxDepth: nat): Config {
    if c.status != Going || !Sound(c) then c
    else
      match Act(Last(c.states), Ahead(c.input))
      case Error => c.(status := Aborted)
      case Shift(s) =>
        if c.input == [] then Push(c, s, Blank, maxDepth)
        else Push(c.(input := c.input[1..]), s, Num(c.input[0].num), maxDepth)
      case Reduce(r) =>
        if 0 < r <= 11 && RuleLen(r) < |c.states| then ReduceBy(c, r, maxDepth) else c.(status := Aborted)
  }

  /** The machine as a function to iterate. */
  ghost function Machine(maxDepth: nat): Config -> Config {
    (c: Config) => Step(c, maxDepth)
  }

  ghost function Steps(c: Config, n: nat, maxDepth: nat): Config {
    Iterate(Machine(maxDepth), c, n)
  }

  /** A finished parse stays as it is. */
  lemma {:induction false} StepsDone(c: Config, n: nat, maxDepth: nat)
    requires c.status != Going
    ensures Steps(c, n, maxDepth) == c
  {
    if n > 0 { StepsDone(c, n - 1, maxDepth); }
  }
}
