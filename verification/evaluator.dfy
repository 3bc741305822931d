/**
 The recursive-descent evaluator (expr, plusminus, multdiv, factor) over the
 pushback cursor LexemeBuffer.

 The cursor is a position into the immutable lexeme sequence. Reading the next
 lexeme is indexing at the position and moving one step on; pushing it back
 (LexemeBuffer.back, always right after the read) is returning the position
 the lexeme was read from. Each loop of the Java code ("while (true)") is a
 tail-recursive *Rest function that carries the running value.

 Every function requires that the sequence ends with Eoe and that the position
 is in bounds; since none of them consumes Eoe, every position they return is
 in bounds again, so the cursor never reads past the sentinel.
 */
module Evaluator {
  import opened Errors
  import opened Lexemes
  import opened Arith

  /** A value and the cursor position after it. */
  datatype Parsed = Parsed(value: Num, pos: nat)

  predicate InBounds(lexemes: seq<Lexeme>, pos: nat) {
    EndsWithEoe(lexemes) && pos < |lexemes|
  }

  /** The lexemes at which plusminus stops and pushes back. */
  predicate EndsSum(l: Lexeme) {
    l.Eoe? || l.RightBracket?
  }

  /** The lexemes at which multdiv stops and pushes back. */
  predicate EndsTerm(l: Lexeme) {
    l.Eoe? || l.RightBracket? || l.Plus? || l.Minus?
  }

  /** factor := NUMBER | '(' plusminus ')' */
  function Factor(lexemes: seq<Lexeme>, pos: nat): (r: Result<Parsed>)
    requires InBounds(lexemes, pos)
    ensures r.Failure? ==> r.error == ExpressionCannotBeResolved
    ensures r.Success? ==> pos < r.value.pos < |lexemes|
    ensures !lexemes[pos].Number? && !lexemes[pos].LeftBracket? ==> r.Failure?
    ensures r.Success? && lexemes[pos].LeftBracket? ==> lexemes[r.value.pos - 1].RightBracket?
    decreases |lexemes| - pos, 0
  {
    match lexemes[pos]
    case Number(v) => Success(Parsed(Finite(v), pos + 1))
    case LeftBracket =>
      var inner :- PlusMinus(lexemes, pos + 1);
      if lexemes[inner.pos].RightBracket? then Success(Parsed(inner.value, inner.pos + 1))
      else Failure(ExpressionCannotBeResolved)
    case _ => Failure(ExpressionCannotBeResolved)
  }

  /** multdiv := factor ( ('*' | '/') factor )* */
  function MultDiv(lexemes: seq<Lexeme>, pos: nat): (r: Result<Parsed>)
    requires InBounds(lexemes, pos)
    ensures r.Failure? ==> r.error == ExpressionCannotBeResolved
    ensures r.Success? ==> pos < r.value.pos < |lexemes| && EndsTerm(lexemes[r.value.pos])
    decreases |lexemes| - pos, 1
  {
    var first :- Factor(lexemes, pos);
    MultDivRest(lexemes, first.pos, first.value)
  }

  /** The loop of multdiv, with the value folded so far. */
  function MultDivRest(lexemes: seq<Lexeme>, pos: nat, acc: Num): (r: Result<Parsed>)
    requires InBounds(lexemes, pos)
    ensures r.Failure? ==> r.error == ExpressionCannotBeResolved
    ensures r.Success? ==> pos <= r.value.pos < |lexemes| && EndsTerm(lexemes[r.value.pos])
    ensures EndsTerm(lexemes[pos]) ==> r == Success(Parsed(acc, pos))
    decreases |lexemes| - pos, 0
  {
    match lexemes[pos]
    case Mult =>
      var f :- Factor(lexemes, pos + 1);
      MultDivRest(lexemes, f.pos, Apply(MulOp, acc, f.value))
    case Div =>
      var f :- Factor(lexemes, pos + 1);
      MultDivRest(lexemes, f.pos, Apply(DivOp, acc, f.value))
    case Eoe | RightBracket | Plus | Minus => Success(Parsed(acc, pos))   // pushed back
    case _ => Failure(ExpressionCannotBeResolved)
  }

  /** plusminus := multdiv ( ('+' | '-') multdiv )* */
  function PlusMinus(lexemes: seq<Lexeme>, pos: nat): (r: Result<Parsed>)
    requires InBounds(lexemes, pos)
    ensures r.Failure? ==> r.error == ExpressionCannotBeResolved
    ensures r.Success? ==> pos < r.value.pos < |lexemes| && EndsSum(lexemes[r.value.pos])
    decreases |lexemes| - pos, 2
  {
    var first :- MultDiv(lexemes, pos);
    PlusMinusRest(lexemes, first.pos, first.value)
  }

  /** The loop of plusminus, with the value folded so far. */
  function PlusMinusRest(lexemes: seq<Lexeme>, pos: nat, acc: Num): (r: Result<Parsed>)
    requires InBounds(lexemes, pos)
    ensures r.Failure? ==> r.error == ExpressionCannotBeResolved
    ensures r.Success? ==> pos <= r.value.pos < |lexemes| && EndsSum(lexemes[r.value.pos])
    ensures EndsSum(lexemes[pos]) ==> r == Success(Parsed(acc, pos))
    ensures !EndsTerm(lexemes[pos]) ==> r.Failure?
    decreases |lexemes| - pos, 0
  {
    match lexemes[pos]
    case Plus =>
      var t :- MultDiv(lexemes, pos + 1);
      PlusMinusRest(lexemes, t.pos, Apply(AddOp, acc, t.value))
    case Minus =>
      var t :- MultDiv(lexemes, pos + 1);
      PlusMinusRest(lexemes, t.pos, Apply(SubOp, acc, t.value))
    case Eoe | RightBracket => Success(Parsed(acc, pos))   // pushed back
    case _ => Failure(ExpressionCannotBeResolved)
  }

  /**
   expr := EOE | plusminus. Like ExpressionResolver.java it does not check that plusminus
   stopped at Eoe: a stray ')' ends the expression and what follows is ignored.
   */
  function Expr(lexemes: seq<Lexeme>): (r: Result<Num>)
    requires EndsWithEoe(lexemes)
    ensures r.Failure? ==> r.error == ExpressionCannotBeResolved
    ensures lexemes[0].Eoe? ==> r == Success(Finite(0.0))
  {
    if lexemes[0].Eoe? then Success(Finite(0.0))
    else
      var p :- PlusMinus(lexemes, 0);
      Success(p.value)
  }
}
