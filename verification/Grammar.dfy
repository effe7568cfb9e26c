/** The expression grammar, its syntax trees and the tree printer. */
module Grammar {

  /** A token: its symbol kind, and the number a NUMBER carries. */
  datatype Token = Token(kind: nat, num: nat)

  const END := 0
  const NUMBER := 3
  const PLUS := 4
  const MINUS := 5
  const TIMES := 6
  const DIVIDE := 7
  const NEWLINE := 8
  const OPEN := 9
  const CLOSE := 10

  function Mark(kind: nat): Token {
    Token(kind, 0)
  }

  datatype Op = Add | Sub | Mul | Div

  /** The tree built by `makeNode` and `makeLeaf`. */
  datatype Tree = Leaf(value: int) | Node(op: Op, left: Tree, right: Tree)

  function Kind(op: Op): nat {
    match op case Add => PLUS case Sub => MINUS case Mul => TIMES case Div => DIVIDE
  }

  // Derivations from the three nonterminals, one constructor per rule.

  datatype Expr = Sum(left: Expr, right: Term) | Difference(left: Expr, right: Term) | JustTerm(term: Term)
  datatype Term = Product(left: Term, right: Factor) | Quotient(left: Term, right: Factor) | JustFactor(factor: Factor)
  datatype Factor = Number(n: nat) | Parens(inner: Expr)

  function ExprTokens(e: Expr): seq<Token> {
    match e
    case Sum(l, r) => ExprTokens(l) + [Mark(PLUS)] + TermTokens(r)
    case Difference(l, r) => ExprTokens(l) + [Mark(MINUS)] + TermTokens(r)
    case JustTerm(t) => TermTokens(t)
  }

  function TermTokens(t: Term): seq<Token> {
    match t
    case Product(l, r) => TermTokens(l) + [Mark(TIMES)] + FactorTokens(r)
    case Quotient(l, r) => TermTokens(l) + [Mark(DIVIDE)] + FactorTokens(r)
    case JustFactor(f) => FactorTokens(f)
  }

  function FactorTokens(f: Factor): seq<Token> {
    match f
    case Number(n) => [Token(NUMBER, n)]
    case Parens(e) => [Mark(OPEN)] + ExprTokens(e) + [Mark(CLOSE)]
  }

  // The tree each derivation builds.

  function ExprTree(e: Expr): Tree {
    match e
    case Sum(l, r) => Node(Add, ExprTree(l), TermTree(r))
    case Difference(l, r) => Node(Sub, ExprTree(l), TermTree(r))
    case JustTerm(t) => TermTree(t)
  }

  function TermTree(t: Term): Tree {
    match t
    case Product(l, r) => Node(Mul, TermTree(l), FactorTree(r))
    case Quotient(l, r) => Node(Div, TermTree(l), FactorTree(r))
    case JustFactor(f) => FactorTree(f)
  }

  function FactorTree(f: Factor): Tree {
    match f
    case Number(n) => Leaf(n)
    case Parens(e) => ExprTree(e)
  }

  /** `input`: each line is an expression and a newline. */
  function LinesTokens(es: seq<Expr>): seq<Token> {
    if es == [] then [] else LinesTokens(es[..|es| - 1]) + ExprTokens(es[|es| - 1]) + [Mark(NEWLINE)]
  }

  function LinesTrees(es: seq<Expr>): seq<Tree> {
    if es == [] then [] else LinesTrees(es[..|es| - 1]) + [ExprTree(es[|es| - 1])]
  }

  // Stack slots a parse of each derivation takes, above the state it starts in.

  function Max(a: nat, b: nat): nat {
    if a < b then b else a
  }

  function ExprDepth(e: Expr): (d: nat)
    ensures d >= 1
  {
    match e
    case Sum(l, r) => Max(ExprDepth(l), 2 + TermDepth(r))
    case Difference(l, r) => Max(ExprDepth(l), 2 + TermDepth(r))
    case JustTerm(t) => TermDepth(t)
  }

  function TermDepth(t: Term): (d: nat)
    ensures d >= 1
  {
    match t
    case Product(l, r) => Max(TermDepth(l), 2 + FactorDepth(r))
    case Quotient(l, r) => Max(TermDepth(l), 2 + FactorDepth(r))
    case JustFactor(f) => FactorDepth(f)
  }

  function FactorDepth(f: Factor): (d: nat)
    ensures d >= 1
  {
    match f
    case Number(_) => 1
    case Parens(e) => Max(3, 1 + ExprDepth(e))
  }
}
