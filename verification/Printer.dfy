/** The scanner's rules, the tree printer, and the round trip from tree to text and back. */
module Printer {
  import opened Grammar
  import opened Lalr
  import opened LalrComplete
  import Parser

  // ---------------------------------------------------------------- scanner

  predicate IsDigit(c: char) {
    '0' <= c <= '9'
  }

  predicate AllDigits(s: string) {
    forall i :: 0 <= i < |s| ==> IsDigit(s[i])
  }

  /** The length of the longest run of digits at the front. */
  function DigitRun(s: string): (n: nat)
    ensures n <= |s|
  {
    if s != [] && IsDigit(s[0]) then 1 + DigitRun(s[1..]) else 0
  }

  function DigitValue(c: char): nat
    requires IsDigit(c)
  {
    c as nat - '0' as nat
  }

  /** `atoi` on a run of digits. */
  function Decode(s: string): nat
    requires AllDigits(s)
  {
    if s == [] then 0 else 10 * Decode(s[..|s| - 1]) + DigitValue(s[|s| - 1])
  }

  /** `yytranslate` on a character that is returned as itself. */
  function Translate(c: char): nat {
    match c
    case '\n' => NEWLINE
    case '(' => OPEN
    case ')' => CLOSE
    case '*' => TIMES
    case '+' => PLUS
    case '-' => MINUS
    case '/' => DIVIDE
    case _ => 2
  }

  lemma DigitRunDigits(s: string)
    ensures forall i :: 0 <= i < DigitRun(s) ==> IsDigit(s[i])
  { }

  /**
   The tokens the parser sees: longest runs of digits, blanks dropped, any other character by
   itself.  A zero byte, or one that is negative as a signed `char`, reaches the parser as the end
   of input.
   */
  function Lex(s: string): (r: seq<Token>)
    ensures TokensOk(r)
    decreases |s|
  {
    if s == [] then []
    else if IsDigit(s[0]) then
      var n := DigitRun(s);
      DigitRunDigits(s);
      [Token(NUMBER, Decode(s[..n]))] + Lex(s[n..])
    else if s[0] == ' ' || s[0] == '\t' then Lex(s[1..])
    else if s[0] as int == 0 || s[0] as int >= 128 then []
    else [Mark(Translate(s[0]))] + Lex(s[1..])
  }

  // ---------------------------------------------------------------- what the scanner makes of each character

  /** The characters that are tokens of the grammar, with their kinds. */
  function Symbols(): map<char, nat> {
    map['+' := 4, '-' := 5, '*' := 6, '/' := 7, '\n' := 8, '(' := 9, ')' := 10]
  }

  /** A character of the grammar is its own token, blanks and tabs are none, and any other is the undefined one. */
  lemma ScansAs(c: char, rest: string)
    ensures c in Symbols() ==> Lex([c] + rest) == [Token(Symbols()[c], 0)] + Lex(rest)
    ensures c in {' ', '\t'} ==> Lex([c] + rest) == Lex(rest)
    ensures !IsDigit(c) && c !in Symbols() && c !in {' ', '\t'} && 0 < c as int < 128 ==>
              Lex([c] + rest) == [Token(2, 0)] + Lex(rest)
    ensures c as int == 0 || c as int >= 128 ==> Lex([c] + rest) == []
  {
    assert ([c] + rest)[1..] == rest;
  }

  function PowerOfTen(n: nat): nat {
    if n == 0 then 1 else 10 * PowerOfTen(n - 1)
  }

  /** The sum of the digits, each times the power of ten of its place. */
  function Places(s: string): int
    requires AllDigits(s)
  {
    if s == [] then 0 else (s[0] as int - 48) * PowerOfTen(|s| - 1) + Places(s[1..])
  }

  lemma PlacesFirst(s: string)
    requires s != [] && AllDigits(s)
    ensures Places(s) == (s[0] as int - 48) * PowerOfTen(|s| - 1) + Places(s[1..])
  { }

  lemma TimesTen(d: int, p: int)
    ensures d * (10 * p) == 10 * (d * p)
  { }

  lemma {:induction false} PlacesLast(s: string)
    requires s != [] && AllDigits(s)
    ensures Places(s) == 10 * Places(s[..|s| - 1]) + (s[|s| - 1] as nat - 48)
  {
    var n := |s| - 1;
    if n > 0 {
      PlacesLast(s[1..]);
      PlacesFirst(s[..n]);
      assert s[1..][..n - 1] == s[..n][1..];
      TimesTen(s[0] as int - 48, PowerOfTen(n - 1));
    }
  }

  /** The number read is the decimal value of the digits. */
  lemma {:induction false} DecodeIs(s: string)
    requires AllDigits(s)
    ensures Decode(s) == Places(s)
  {
    if s != [] {
      DecodeIs(s[..|s| - 1]);
      PlacesLast(s);
    }
  }

  /** Zeros in front do not count. */
  lemma LeadingZero(s: string)
    requires AllDigits(s)
    ensures Decode(['0'] + s) == Decode(s)
  {
    DecodeIs(s);
    DecodeIs(['0'] + s);
    assert (['0'] + s)[1..] == s;
  }

  // ---------------------------------------------------------------- printer

  function Digit(d: nat): (c: char)
    requires d < 10
    ensures IsDigit(c) && DigitValue(c) == d
  {
    ('0' as nat + d) as char
  }

  function Encode(n: nat): string {
    if n < 10 then [Digit(n)] else Encode(n / 10) + [Digit(n % 10)]
  }

  function OpChar(op: Op): char {
    match op case Add => '+' case Sub => '-' case Mul => '*' case Div => '/'
  }

  /** `printTree`: every operation in parentheses, its operator between blanks. */
  function Print(t: Grammar.Tree): string {
    match t
    case Leaf(v) => if v < 0 then "-" + Encode(-v) else Encode(v)
    case Node(op, l, r) => "(" + Print(l) + [' ', OpChar(op), ' '] + Print(r) + ")"
  }

  /** The text of an operation, and of a leaf of one digit. */
  lemma PrintIs(l: Grammar.Tree, r: Grammar.Tree, d: nat)
    requires d < 10
    ensures Print(Node(Add, l, r)) == "(" + Print(l) + " + " + Print(r) + ")"
    ensures Print(Node(Sub, l, r)) == "(" + Print(l) + " - " + Print(r) + ")"
    ensures Print(Node(Mul, l, r)) == "(" + Print(l) + " * " + Print(r) + ")"
    ensures Print(Node(Div, l, r)) == "(" + Print(l) + " / " + Print(r) + ")"
    ensures Print(Leaf(d)) == ["0123456789"[d]]
  { }

  /** The trees the parser builds: no leaf is negative. */
  predicate Parsed(t: Grammar.Tree) {
    match t
    case Leaf(v) => v >= 0
    case Node(_, l, r) => Parsed(l) && Parsed(r)
  }

  /** The derivation of a tree's printed form. */
  function PrintedFactor(t: Grammar.Tree): Factor
    requires Parsed(t)
  {
    match t
    case Leaf(v) => Number(v)
    case Node(op, l, r) =>
      Parens(Operation(op, PrintedFactor(l), PrintedFactor(r)))
  }

  /** An operator between two factors. */
  function Operation(op: Op, a: Factor, b: Factor): Expr {
    match op
    case Add => Sum(JustTerm(JustFactor(a)), JustFactor(b))
    case Sub => Difference(JustTerm(JustFactor(a)), JustFactor(b))
    case Mul => JustTerm(Product(JustFactor(a), b))
    case Div => JustTerm(Quotient(JustFactor(a), b))
  }

  lemma AloneIs(a: Factor)
    ensures ExprTree(JustTerm(JustFactor(a))) == TermTree(JustFactor(a)) == FactorTree(a)
    ensures ExprTokens(JustTerm(JustFactor(a))) == TermTokens(JustFactor(a)) == FactorTokens(a)
  { }

  lemma OperationIs(op: Op, a: Factor, b: Factor)
    ensures ExprTree(Operation(op, a, b)) == Node(op, FactorTree(a), FactorTree(b))
    ensures ExprTokens(Operation(op, a, b)) == FactorTokens(a) + [Mark(Kind(op))] + FactorTokens(b)
  {
    AloneIs(a);
    AloneIs(b);
  }

  function PrintedExpr(t: Grammar.Tree): Expr
    requires Parsed(t)
  {
    JustTerm(JustFactor(PrintedFactor(t)))
  }

  lemma {:induction false} PrintedTree(t: Grammar.Tree)
    requires Parsed(t)
    ensures FactorTree(PrintedFactor(t)) == t
  {
    match t
    case Leaf(_) =>
    case Node(op, l, r) =>
      PrintedTree(l);
      PrintedTree(r);
      OperationIs(op, PrintedFactor(l), PrintedFactor(r));
  }

  // ---------------------------------------------------------------- the text of a tree scans to its derivation

  lemma {:induction false} EncodeDigits(n: nat)
    ensures Encode(n) != [] && AllDigits(Encode(n))
    ensures Decode(Encode(n)) == n
  {
    if n >= 10 {
      EncodeDigits(n / 10);
      assert Encode(n)[..|Encode(n)| - 1] == Encode(n / 10);
    }
  }

  lemma {:induction false} RunOf(s: string, rest: string)
    requires AllDigits(s)
    requires rest == [] || !IsDigit(rest[0])
    ensures DigitRun(s + rest) == |s|
  {
    if s == [] {
      assert s + rest == rest;
    } else {
      RunOf(s[1..], rest);
      assert (s + rest)[1..] == s[1..] + rest;
    }
  }

  /** A run of digits, with or without zeros in front, is one number. */
  lemma LexRun(s: string, rest: string)
    requires s != [] && AllDigits(s) && (rest == [] || !IsDigit(rest[0]))
    ensures Lex(s + rest) == [Token(NUMBER, Decode(s))] + Lex(rest)
  {
    RunOf(s, rest);
    assert (s + rest)[..|s|] == s && (s + rest)[|s|..] == rest;
    assert (s + rest)[0] == s[0];
  }

  lemma LexNumber(n: nat, rest: string)
    requires rest == [] || !IsDigit(rest[0])
    ensures Lex(Encode(n) + rest) == [Token(NUMBER, n)] + Lex(rest)
  {
    EncodeDigits(n);
    LexRun(Encode(n), rest);
  }

  lemma LexChar(c: char, rest: string)
    requires c in "()+-*/\n"
    ensures Lex([c] + rest) == [Mark(Translate(c))] + Lex(rest)
  {
    assert ([c] + rest)[1..] == rest;
  }

  lemma LexBlank(rest: string)
    ensures Lex([' '] + rest) == Lex(rest)
  {
    assert ([' '] + rest)[1..] == rest;
  }

  lemma LexOp(op: Op, rest: string)
    ensures Lex([' ', OpChar(op), ' '] + rest) == [Mark(Kind(op))] + Lex(rest)
  {
    assert [' ', OpChar(op), ' '] + rest == [' '] + ([OpChar(op)] + ([' '] + rest));
    LexBlank([OpChar(op)] + ([' '] + rest));
    LexChar(OpChar(op), [' '] + rest);
    LexBlank(rest);
  }

  lemma {:induction false} LexPrint(t: Grammar.Tree, rest: string)
    requires Parsed(t) && (rest == [] || !IsDigit(rest[0]))
    ensures Lex(Print(t) + rest) == FactorTokens(PrintedFactor(t)) + Lex(rest)
  {
    match t
    case Leaf(v) => LexNumber(v, rest);
    case Node(op, l, r) =>
      var close := [')'] + rest;
      var right := Print(r) + close;
      var mid := [' ', OpChar(op), ' '] + right;
      LexPrint(l, mid);
      LexPrint(r, close);
      LexNode(op, l, r, rest);
  }

  /** The text of an operation, given that its operands scan as they should. */
  lemma LexNode(op: Op, l: Grammar.Tree, r: Grammar.Tree, rest: string)
    requires Parsed(l) && Parsed(r)
    requires var right := Print(r) + ([')'] + rest);
             && Lex(right) == FactorTokens(PrintedFactor(r)) + Lex([')'] + rest)
             && Lex(Print(l) + ([' ', OpChar(op), ' '] + right)) ==
                  FactorTokens(PrintedFactor(l)) + Lex([' ', OpChar(op), ' '] + right)
    ensures Lex(Print(Node(op, l, r)) + rest) == FactorTokens(PrintedFactor(Node(op, l, r))) + Lex(rest)
  {
    var right := Print(r) + ([')'] + rest);
    var mid := [' ', OpChar(op), ' '] + right;
    var a, b := FactorTokens(PrintedFactor(l)), FactorTokens(PrintedFactor(r));
    NodeText(op, Print(l), Print(r), rest);
    LexChar('(', Print(l) + mid);
    LexOp(op, right);
    LexChar(')', rest);
    assert Lex(['('] + (Print(l) + mid)) == [Mark(OPEN)] + (a + ([Mark(Kind(op))] + (b + ([Mark(CLOSE)] + Lex(rest)))));
    OperationIs(op, PrintedFactor(l), PrintedFactor(r));
    NodeTokens(a, Mark(Kind(op)), b, Lex(rest));
  }

  lemma NodeText(op: Op, l: string, r: string, rest: string)
    ensures "(" + l + [' ', OpChar(op), ' '] + r + ")" + rest ==
              ['('] + (l + ([' ', OpChar(op), ' '] + (r + ([')'] + rest))))
  { }

  lemma NodeTokens(a: seq<Token>, k: Token, b: seq<Token>, rest: seq<Token>)
    ensures [Mark(OPEN)] + (a + ([k] + (b + ([Mark(CLOSE)] + rest)))) ==
              [Mark(OPEN)] + (a + [k] + b) + [Mark(CLOSE)] + rest
  { }

  lemma OneLine(e: Expr)
    ensures LinesTokens([e]) == ExprTokens(e) + [Mark(NEWLINE)] && LinesTrees([e]) == [ExprTree(e)]
  {
    assert [e][..0] == [];
    assert LinesTokens([]) == [] && LinesTrees([]) == [];
  }

  /** A printed line scans to the tokens of a derivation of exactly this tree. */
  lemma PrintedLine(t: Grammar.Tree)
    requires Parsed(t)
    ensures Lex(Print(t) + "\n") == LinesTokens([PrintedExpr(t)])
    ensures LinesTrees([PrintedExpr(t)]) == [t]
  {
    LexPrint(t, "\n");
    LexChar('\n', []);
    assert ['\n'] + [] == "\n";
    PrintedTree(t);
    AloneIs(PrintedFactor(t));
    OneLine(PrintedExpr(t));
  }

  lemma {:induction false} FactorParsed(f: Factor)
    ensures Parsed(FactorTree(f))
    decreases f, 0
  {
    if f.Parens? { ExprParsed(f.inner); }
  }

  lemma {:induction false} TermParsed(t: Term)
    ensures Parsed(TermTree(t))
    decreases t, 0
  {
    if t.JustFactor? { FactorParsed(t.factor); } else { TermParsed(t.left); FactorParsed(t.right); }
  }

  lemma {:induction false} ExprParsed(e: Expr)
    ensures Parsed(ExprTree(e))
    decreases e, 0
  {
    if e.JustTerm? { TermParsed(e.term); } else { ExprParsed(e.left); TermParsed(e.right); }
  }

  lemma {:induction false} LinesParsed(es: seq<Expr>)
    ensures |LinesTrees(es)| == |es|
    ensures forall i :: 0 <= i < |es| ==> Parsed(LinesTrees(es)[i])
  {
    if es != [] {
      LinesParsed(es[..|es| - 1]);
      ExprParsed(es[|es| - 1]);
    }
  }

  /** Parsing a text ends in success with these trees. */
  ghost predicate ParsesTo(text: string, roots: seq<Grammar.Tree>, maxDepth: nat) {
    exists d :: Reaches(Start(Lex(text), maxDepth), d, maxDepth) && d.status == Accepted && d.roots == roots
  }

  /**
   Print, scan and parse give back the tree exactly when it has no negative leaf and its printed
   form fits the parser's stack.  (A negative leaf prints a sign the grammar has no rule for.)
   */
  lemma RoundTrip(t: Grammar.Tree, maxDepth: nat)
    ensures ParsesTo(Print(t) + "\n", [t], maxDepth) <==> Parsed(t) && Fits([PrintedExpr(t)], maxDepth)
  {
    var input := Lex(Print(t) + "\n");
    if Parsed(t) {
      PrintedLine(t);
      AcceptsLines([PrintedExpr(t)], maxDepth);
      if ParsesTo(Print(t) + "\n", [t], maxDepth) {
        var d :| Reaches(Start(input, maxDepth), d, maxDepth) && d.status == Accepted && d.roots == [t];
        Parser.Verdict(input, d, maxDepth);
      }
    }
    if ParsesTo(Print(t) + "\n", [t], maxDepth) {
      var d :| Reaches(Start(input, maxDepth), d, maxDepth) && d.status == Accepted && d.roots == [t];
      Parser.Verdict(input, d, maxDepth);
      var es :| d.roots == LinesTrees(es) && LinesTokens(es) <= input;
      LinesParsed(es);
      assert d.roots[0] == t;
    }
  }

  /** A leaf below zero prints a sign, on which the parser gives up before the first line is read. */
  lemma NegativeLeaf(v: int, maxDepth: nat)
    requires v < 0 && maxDepth > 2
    ensures var d := Steps(Start(Lex(Print(Leaf(v)) + "\n"), maxDepth), 2, maxDepth);
            d.status == Aborted && d.roots == []
  {
    var text := Print(Leaf(v)) + "\n";
    var input := Lex(text);
    assert text[0] == '-' && input[0] == Mark(MINUS);
    var c := Start(input, maxDepth);
    ActIsTable(0, MINUS);
    var d := Config([0, 1], [Blank, Blank], input, [], Going);
    FirstReduces(c, d, maxDepth);
    ActIsTable(1, MINUS);
    assert Step(d, maxDepth) == d.(status := Aborted);
    assert Steps(c, 1, maxDepth) == d;
  }

  lemma FirstReduces(c: Config, d: Config, maxDepth: nat)
    requires maxDepth > 2 && c.input != [] && TokensOk(c.input)
    requires c == Config([0], [Blank], c.input, [], Going) && d == Config([0, 1], [Blank, Blank], c.input, [], Going)
    ensures Step(c, maxDepth) == d
  {
    ActIsTable(0, c.input[0].kind);
  }
}
