/**
 resolveExpression: tokenize, evaluate, and turn any of the three errors into
 0. Evaluate is the same pipeline with the error kept, and the lemmas tie the
 whole pipeline to the reference trees and to the quirks of ExpressionResolver.java.
 */
module Resolver {
  import opened Errors
  import opened Lexemes
  import opened Arith
  import opened Tokenizer
  import opened Evaluator
  import opened Syntax
  import opened TokenizerLaws
  import opened Layout
  import opened EvaluatorLaws

  /** Tokenize the expression, then evaluate the lexemes; the first error is kept. */
  function Evaluate(expression: string, vars: Variables): (r: Result<Num>)
    ensures ParseExpression(expression, vars).Failure? ==> r == Failure(ParseExpression(expression, vars).error)
    ensures r.Failure? && r.error.ExpressionCannotBeResolved? ==> ParseExpression(expression, vars).Success?
  {
    var lexemes :- ParseExpression(expression, vars);
    Expr(lexemes)
  }

  /** resolveExpression: the evaluated value, or 0 when any of the three errors occurs. */
  function ResolveExpression(expression: string, vars: Variables): (r: Num)
    ensures Evaluate(expression, vars).Failure? ==> r == Finite(0.0)
    ensures Evaluate(expression, vars).Success? ==> r == Evaluate(expression, vars).value
  {
    match Evaluate(expression, vars)
    case Success(v) => v
    case Failure(_) => Finite(0.0)
  }

  /** An empty or blank expression evaluates to 0 without error. */
  lemma BlankEvaluatesToZero(s: string, vars: Variables)
    requires AllSpaces(s)
    ensures Evaluate(s, vars) == Success(Finite(0.0))
    ensures ResolveExpression(s, vars) == Finite(0.0)
  {
    BlankInput(s, vars);
  }

  /** A character the tokenizer does not know makes the whole expression resolve to 0. */
  lemma UnrecognizedResolvesToZero(s: string, vars: Variables, k: nat)
    requires k < |s| && !Recognized(s[k])
    ensures Evaluate(s, vars).Failure?
    ensures ResolveExpression(s, vars) == Finite(0.0)
  {
    UnrecognizedFails(s, vars, k);
  }

  /** Text that tokenizes to the printing of a tree evaluates to the tree's value. */
  lemma ScannedTreeResolves(expression: string, t: Tree, vars: Variables)
    requires Scan(expression, vars) == Success(Print(t, 0))
    ensures Evaluate(expression, vars) == Success(Eval(t))
    ensures ResolveExpression(expression, vars) == Eval(t)
  {
    ExprComputesEval(t, [Eoe]);
  }

  /**
   Text whose words are the printing of a tree evaluates to the tree's value:
   precedence, left associativity and brackets, from text to value, whatever
   the spacing and whichever operands are written as variables.
   */
  lemma WrittenTreeResolves(t: Tree, ws: seq<Word>, vars: Variables)
    requires Writes(ws, vars) && WordLexemes(ws, vars, 0) == Print(t, 0)
    ensures Evaluate(Text(ws, 0), vars) == Success(Eval(t))
    ensures ResolveExpression(Text(ws, 0), vars) == Eval(t)
  {
    LayoutRoundTrip(ws, vars, 0);
    ScannedTreeResolves(Text(ws, 0), t, vars);
  }

  predicate NaturalLiterals(t: Tree) {
    match t
    case Lit(v) => IsNatural(v)
    case Group(g) => NaturalLiterals(g)
    case Bin(_, l, r) => NaturalLiterals(l) && NaturalLiterals(r)
  }

  lemma {:induction false} PrintIsPrintable(t: Tree, ctx: nat)
    requires NaturalLiterals(t)
    ensures Printable(Print(t, ctx))
    decreases t, ctx + 1
  {
    PrintNeverEmptyOrEoe(t, ctx);
    if Prec(t) < ctx {
      PrintIsPrintable(t, 0);
      assert Print(t, ctx) == [LeftBracket] + Print(t, 0) + [RightBracket];
    } else {
      match t
      case Lit(_) =>
      case Group(g) =>
        PrintIsPrintable(g, 0);
        assert Print(t, ctx) == [LeftBracket] + Print(g, 0) + [RightBracket];
      case Bin(op, l, r) =>
        PrintIsPrintable(l, Prec(t));
        PrintIsPrintable(r, Prec(t) + 1);
        assert Print(t, ctx) == Print(l, Prec(t)) + [OpLexeme(op)] + Print(r, Prec(t) + 1);
    }
  }

  /** Every tree with natural-number literals has a text, and that text resolves to its value. */
  lemma PrintedTreeResolves(t: Tree, vars: Variables)
    requires NaturalLiterals(t)
    ensures Printable(Print(t, 0))
    ensures Evaluate(Text(Spaced(Print(t, 0)), 0), vars) == Success(Eval(t))
  {
    PrintIsPrintable(t, 0);
    SpacedLexemes(Print(t, 0), vars, 0);
    assert Print(t, 0)[0..] == Print(t, 0);
    WrittenTreeResolves(t, Spaced(Print(t, 0)), vars);
  }

  lemma Regroup<T>(a: seq<T>, b: seq<T>, c: seq<T>, d: seq<T>)
    ensures a + b + c + d == a + (b + c + d)
  {
  }

  /**
   A closing bracket after a complete expression ends it: whatever follows is
   never looked at, since expr does not check that the sentinel comes next.
   */
  lemma TrailingAfterBracketIgnored(expression: string, t: Tree, junk: seq<Lexeme>, vars: Variables)
    requires Scan(expression, vars) == Success(Print(t, 0) + [RightBracket] + junk)
    ensures Evaluate(expression, vars) == Success(Eval(t))
  {
    var tail := [RightBracket] + junk + [Eoe];
    assert tail[0] == RightBracket && tail[|tail| - 1] == Eoe;
    ExprComputesEval(t, tail);
    Regroup(Print(t, 0), [RightBracket], junk, [Eoe]);
  }

  /**
   Two adjacent variable names become two adjacent numbers when the second
   letter cannot continue a name, and multdiv then rejects them.
   */
  lemma AdjacentVariablesRejected(x: char, y: char, vars: Variables)
    requires IsLetter(x) && IsLetter(y) && !IsNameTail(y)
    requires [x] in vars && [y] in vars
    ensures ParseExpression([x, y], vars) == Success([Number(vars[[x]]), Number(vars[[y]]), Eoe])
    ensures Evaluate([x, y], vars) == Failure(ExpressionCannotBeResolved)
    ensures ResolveExpression([x, y], vars) == Finite(0.0)
  {
    assert Scan([], vars) == Success([]);
    VariableIsOneNumber([y], [], vars);
    assert [y] + [] == [y];
    assert [Number(vars[[y]])] + [] == [Number(vars[[y]])];
    assert Scan([y], vars) == Success([Number(vars[[y]])]);
    VariableIsOneNumber([x], [y], vars);
    assert [x] + [y] == [x, y];
    assert [Number(vars[[x]])] + [Number(vars[[y]])] == [Number(vars[[x]]), Number(vars[[y]])];
    assert Scan([x, y], vars) == Success([Number(vars[[x]]), Number(vars[[y]])]);
    var ls := [Number(vars[[x]]), Number(vars[[y]]), Eoe];
    assert [Number(vars[[x]]), Number(vars[[y]])] + [Eoe] == ls;
    assert Factor(ls, 0) == Success(Parsed(Finite(vars[[x]]), 1));
    assert MultDiv(ls, 0) == Failure(ExpressionCannotBeResolved);
  }
}
