/**
 A reference for what the evaluator computes: arithmetic trees with the usual
 meaning, and a printer that writes a tree as lexemes with brackets only where
 precedence and left associativity need them, plus the brackets a Group node
 asks for.
 */
module Syntax {
  import opened Lexemes
  import opened Arith

  datatype Tree =
    | Lit(value: real)
    | Group(inner: Tree)               // an explicitly bracketed subexpression
    | Bin(op: Op, left: Tree, right: Tree)

  function Eval(t: Tree): Num {
    match t
    case Lit(v) => Finite(v)
    case Group(g) => Eval(g)
    case Bin(op, l, r) => Apply(op, Eval(l), Eval(r))
  }

  /** Binding strength: 0 for + and -, 1 for * and /, 2 for a literal or a group. */
  function Prec(t: Tree): nat {
    match t
    case Bin(op, _, _) => if op == AddOp || op == SubOp then 0 else 1
    case _ => 2
  }

  function OpLexeme(op: Op): Lexeme {
    match op
    case AddOp => Plus
    case SubOp => Minus
    case MulOp => Mult
    case DivOp => Div
  }

  /**
   The lexemes of t in a position that needs binding strength at least ctx
   (0 anywhere, 1 as an operand of * or /, 2 as a right operand of * or /).
   */
  function Print(t: Tree, ctx: nat): seq<Lexeme>
    decreases t, ctx + 1
  {
    if Prec(t) < ctx then [LeftBracket] + Bare(t) + [RightBracket] else Bare(t)
  }

  /** The lexemes of t with no brackets around it. */
  function Bare(t: Tree): seq<Lexeme>
    decreases t, 0
  {
    match t
    case Lit(v) => [Number(v)]
    case Group(g) => [LeftBracket] + Print(g, 0) + [RightBracket]
    case Bin(op, l, r) => Print(l, Prec(t)) + [OpLexeme(op)] + Print(r, Prec(t) + 1)
  }

  lemma {:induction false} PrintNeverEmptyOrEoe(t: Tree, ctx: nat)
    ensures |Print(t, ctx)| > 0
    ensures forall k :: 0 <= k < |Print(t, ctx)| ==> !Print(t, ctx)[k].Eoe?
    decreases t, ctx + 1
  {
    if Prec(t) < ctx {
      PrintNeverEmptyOrEoe(t, 0);
    } else {
      match t
      case Lit(_) =>
      case Group(g) => PrintNeverEmptyOrEoe(g, 0);
      case Bin(op, l, r) =>
        PrintNeverEmptyOrEoe(l, Prec(t));
        PrintNeverEmptyOrEoe(r, Prec(t) + 1);
    }
  }
}
