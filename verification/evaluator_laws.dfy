/**
 The evaluator against the reference trees, in both directions:
 - completeness: the printed lexemes of any tree evaluate to the tree's value,
   so * and / bind tighter than + and -, each level folds left to right, and
   brackets group;
 - soundness: whenever a level of the evaluator succeeds, the lexemes it
   consumed are the printed form of a tree whose value it returned.
 */
module EvaluatorLaws {
  import opened Errors
  import opened Lexemes
  import opened Arith
  import opened Evaluator
  import opened Syntax

  /** The lexemes s occur in ls starting at pos. */
  predicate At(ls: seq<Lexeme>, pos: nat, s: seq<Lexeme>) {
    pos + |s| <= |ls| && forall k {:trigger s[k]} :: 0 <= k < |s| ==> ls[pos + k] == s[k]
  }

  lemma AtSplit(ls: seq<Lexeme>, pos: nat, a: seq<Lexeme>, b: seq<Lexeme>)
    requires At(ls, pos, a + b)
    ensures At(ls, pos, a) && At(ls, pos + |a|, b)
  {
    forall k | 0 <= k < |a| ensures ls[pos + k] == a[k] {
      assert (a + b)[k] == a[k];
    }
    forall k | 0 <= k < |b| ensures ls[pos + |a| + k] == b[k] {
      assert (a + b)[|a| + k] == b[k];
    }
  }

  lemma AtSplit3(ls: seq<Lexeme>, pos: nat, a: seq<Lexeme>, x: Lexeme, b: seq<Lexeme>)
    requires At(ls, pos, a + [x] + b)
    ensures At(ls, pos, a) && ls[pos + |a|] == x && At(ls, pos + |a| + 1, b)
  {
    AtSplit(ls, pos, a + [x], b);
    AtSplit(ls, pos, a, [x]);
    assert [x][0] == x;
  }

  lemma AtBracketed(ls: seq<Lexeme>, pos: nat, inner: seq<Lexeme>)
    requires At(ls, pos, [LeftBracket] + inner + [RightBracket])
    ensures ls[pos] == LeftBracket && At(ls, pos + 1, inner) && ls[pos + 1 + |inner|] == RightBracket
  {
    assert [LeftBracket] + inner + [RightBracket] == [] + [LeftBracket] + (inner + [RightBracket]);
    AtSplit3(ls, pos, [], LeftBracket, inner + [RightBracket]);
    AtSplit(ls, pos + 1, inner, [RightBracket]);
    assert [RightBracket][0] == RightBracket;
  }

  lemma SliceSplit(ls: seq<Lexeme>, a: nat, b: nat, c: nat)
    requires a <= b < c <= |ls|
    ensures ls[a..c] == ls[a..b] + [ls[b]] + ls[b + 1..c]
  {
  }

  function AddOpOf(l: Lexeme): Op { if l.Plus? then AddOp else SubOp }
  function MulOpOf(l: Lexeme): Op { if l.Mult? then MulOp else DivOp }

  lemma PlusMinusStart(ls: seq<Lexeme>, pos: nat, v: Num, q: nat)
    requires InBounds(ls, pos) && MultDiv(ls, pos) == Success(Parsed(v, q))
    ensures PlusMinus(ls, pos) == PlusMinusRest(ls, q, v)
  {
  }

  lemma PlusMinusStep(ls: seq<Lexeme>, pos: nat, acc: Num, v: Num, q: nat)
    requires InBounds(ls, pos) && (ls[pos].Plus? || ls[pos].Minus?)
    requires MultDiv(ls, pos + 1) == Success(Parsed(v, q))
    ensures PlusMinusRest(ls, pos, acc) == PlusMinusRest(ls, q, Apply(AddOpOf(ls[pos]), acc, v))
  {
  }

  lemma MultDivStart(ls: seq<Lexeme>, pos: nat, v: Num, q: nat)
    requires InBounds(ls, pos) && Factor(ls, pos) == Success(Parsed(v, q))
    ensures MultDiv(ls, pos) == MultDivRest(ls, q, v)
  {
  }

  lemma MultDivStep(ls: seq<Lexeme>, pos: nat, acc: Num, v: Num, q: nat)
    requires InBounds(ls, pos) && (ls[pos].Mult? || ls[pos].Div?)
    requires Factor(ls, pos + 1) == Success(Parsed(v, q))
    ensures MultDivRest(ls, pos, acc) == MultDivRest(ls, q, Apply(MulOpOf(ls[pos]), acc, v))
  {
  }

  /** A tree binds at least as strongly as two contexts: it prints the same in both. */
  lemma PrintUnbracketed(t: Tree, a: nat, b: nat)
    requires a <= Prec(t) && b <= Prec(t)
    ensures Print(t, a) == Print(t, b) == Bare(t)
  {
  }

  /** The printed lexemes of a binary tree, split at its operator. */
  lemma BinShape(ls: seq<Lexeme>, pos: nat, t: Tree, ctx: nat)
    requires t.Bin? && ctx <= Prec(t) && At(ls, pos, Print(t, ctx))
    ensures var pl, pr := Print(t.left, Prec(t)), Print(t.right, Prec(t) + 1);
            && At(ls, pos, pl)
            && At(ls, pos + |pl| + 1, pr)
            && ls[pos + |pl|] == OpLexeme(t.op)
            && |Print(t, ctx)| == |pl| + 1 + |pr|
  {
    assert Print(t, ctx) == Print(t.left, Prec(t)) + [OpLexeme(t.op)] + Print(t.right, Prec(t) + 1);
    AtSplit3(ls, pos, Print(t.left, Prec(t)), OpLexeme(t.op), Print(t.right, Prec(t) + 1));
  }

  /** The printed lexemes of a tree in brackets. */
  lemma BracketShape(ls: seq<Lexeme>, pos: nat, t: Tree)
    requires At(ls, pos, [LeftBracket] + Print(t, 0) + [RightBracket])
    ensures ls[pos] == LeftBracket && At(ls, pos + 1, Print(t, 0))
    ensures ls[pos + 1 + |Print(t, 0)|] == RightBracket
  {
    AtBracketed(ls, pos, Print(t, 0));
  }

  /** factor over '(' followed by a sum that plusminus folds up to a ')'. */
  lemma FactorBracket(ls: seq<Lexeme>, pos: nat, v: Num, q: nat)
    requires InBounds(ls, pos) && ls[pos] == LeftBracket
    requires q < |ls| && ls[q] == RightBracket && PlusMinus(ls, pos + 1) == PlusMinusRest(ls, q, v)
    ensures Factor(ls, pos) == Success(Parsed(v, q + 1))
  {
  }

  /**
   factor on '(' succeeds exactly when plusminus succeeds after it and stops at
   a ')': the value is the inner sum's and the cursor ends past the ')'.
   */
  lemma BracketMustClose(ls: seq<Lexeme>, pos: nat)
    requires InBounds(ls, pos) && ls[pos].LeftBracket?
    ensures var inner := PlusMinus(ls, pos + 1);
            Factor(ls, pos).Success? <==> inner.Success? && ls[inner.value.pos].RightBracket?
    ensures var inner := PlusMinus(ls, pos + 1);
            Factor(ls, pos).Success? ==> Factor(ls, pos).value == Parsed(inner.value.value, inner.value.pos + 1)
  {
  }

  // The three lemmas below call each other on the same tree one level over;
  // the rank (Prec(t) - level) mod 3 orders those calls.
  function Rank(t: Tree, level: nat): nat
    requires level <= 2
  {
    if Prec(t) >= level then Prec(t) - level else Prec(t) + 3 - level
  }

  /** A tree printed at the + / - level: plusminus folds it into one value and stops after it. */
  lemma {:induction false} SumParses(ls: seq<Lexeme>, pos: nat, t: Tree)
    requires EndsWithEoe(ls) && At(ls, pos, Print(t, 0))
    requires pos + |Print(t, 0)| < |ls| && EndsTerm(ls[pos + |Print(t, 0)|])
    ensures PlusMinus(ls, pos) == PlusMinusRest(ls, pos + |Print(t, 0)|, Eval(t))
    decreases t, Rank(t, 0), 1
  {
    if Prec(t) == 0 {
      SumOfSums(ls, pos, t);
    } else {
      SumOfOneTerm(ls, pos, t);
    }
  }

  /** SumParses for a + or - at the top: the left sum, the operator, then one term. */
  lemma {:induction false} SumOfSums(ls: seq<Lexeme>, pos: nat, t: Tree)
    requires EndsWithEoe(ls) && At(ls, pos, Print(t, 0)) && Prec(t) == 0
    requires pos + |Print(t, 0)| < |ls| && EndsTerm(ls[pos + |Print(t, 0)|])
    ensures PlusMinus(ls, pos) == PlusMinusRest(ls, pos + |Print(t, 0)|, Eval(t))
    decreases t, Rank(t, 0), 0
  {
    var end := pos + |Print(t, 0)|;
    BinShape(ls, pos, t, 0);
    var q := pos + |Print(t.left, 0)|;
    assert AddOpOf(ls[q]) == t.op;
    assert Eval(t) == Apply(AddOpOf(ls[q]), Eval(t.left), Eval(t.right));
    TermParses(ls, q + 1, t.right);
    SumThenTerm(ls, pos, t.left, Eval(t.right), end);
  }

  /** SumParses for a tree with no + or - at the top: one term. */
  lemma {:induction false} SumOfOneTerm(ls: seq<Lexeme>, pos: nat, t: Tree)
    requires EndsWithEoe(ls) && At(ls, pos, Print(t, 0)) && Prec(t) != 0
    requires pos + |Print(t, 0)| < |ls| && EndsTerm(ls[pos + |Print(t, 0)|])
    ensures PlusMinus(ls, pos) == PlusMinusRest(ls, pos + |Print(t, 0)|, Eval(t))
    decreases t, Rank(t, 0), 0
  {
    var end := pos + |Print(t, 0)|;
    PrintUnbracketed(t, 0, 1);
    TermParses(ls, pos, t);
    PlusMinusStart(ls, pos, Eval(t), end);
  }

  /** A tree printed at the * / / level: multdiv folds it into one value and stops after it. */
  lemma {:induction false} TermParses(ls: seq<Lexeme>, pos: nat, t: Tree)
    requires EndsWithEoe(ls) && At(ls, pos, Print(t, 1))
    requires pos + |Print(t, 1)| < |ls|
    requires var next := ls[pos + |Print(t, 1)|]; EndsTerm(next) || next.Mult? || next.Div?
    ensures MultDiv(ls, pos) == MultDivRest(ls, pos + |Print(t, 1)|, Eval(t))
    decreases t, Rank(t, 1), 1
  {
    if Prec(t) == 1 {
      TermOfTerms(ls, pos, t);
    } else {
      TermOfOneAtom(ls, pos, t);
    }
  }

  /** TermParses for a * or / at the top: the left term, the operator, then one operand. */
  lemma {:induction false} TermOfTerms(ls: seq<Lexeme>, pos: nat, t: Tree)
    requires EndsWithEoe(ls) && At(ls, pos, Print(t, 1)) && Prec(t) == 1
    requires pos + |Print(t, 1)| < |ls|
    requires var next := ls[pos + |Print(t, 1)|]; EndsTerm(next) || next.Mult? || next.Div?
    ensures MultDiv(ls, pos) == MultDivRest(ls, pos + |Print(t, 1)|, Eval(t))
    decreases t, Rank(t, 1), 0
  {
    var end := pos + |Print(t, 1)|;
    BinShape(ls, pos, t, 1);
    var q := pos + |Print(t.left, 1)|;
    assert MulOpOf(ls[q]) == t.op;
    assert Eval(t) == Apply(MulOpOf(ls[q]), Eval(t.left), Eval(t.right));
    AtomParses(ls, q + 1, t.right);
    TermThenAtom(ls, pos, t.left, Eval(t.right), end);
  }

  /** TermParses for a literal, a group or a sum in brackets: one operand. */
  lemma {:induction false} TermOfOneAtom(ls: seq<Lexeme>, pos: nat, t: Tree)
    requires EndsWithEoe(ls) && At(ls, pos, Print(t, 1)) && Prec(t) != 1
    requires pos + |Print(t, 1)| < |ls|
    requires var next := ls[pos + |Print(t, 1)|]; EndsTerm(next) || next.Mult? || next.Div?
    ensures MultDiv(ls, pos) == MultDivRest(ls, pos + |Print(t, 1)|, Eval(t))
    decreases t, Rank(t, 1), 0
  {
    var end := pos + |Print(t, 1)|;
    assert Print(t, 1) == Print(t, 2);
    AtomParses(ls, pos, t);
    MultDivStart(ls, pos, Eval(t), end);
  }

  /** The left operand of a + or -, then the operator and a right operand that multdiv has folded. */
  lemma {:induction false} SumThenTerm(ls: seq<Lexeme>, pos: nat, l: Tree, vr: Num, end: nat)
    requires EndsWithEoe(ls) && At(ls, pos, Print(l, 0))
    requires var q := pos + |Print(l, 0)|;
             q < end < |ls| && (ls[q].Plus? || ls[q].Minus?) && MultDiv(ls, q + 1) == Success(Parsed(vr, end))
    ensures var q := pos + |Print(l, 0)|;
            PlusMinus(ls, pos) == PlusMinusRest(ls, end, Apply(AddOpOf(ls[q]), Eval(l), vr))
    decreases l, 3, 0
  {
    var q := pos + |Print(l, 0)|;
    SumParses(ls, pos, l);
    PlusMinusStep(ls, q, Eval(l), vr, end);
  }

  /** The left operand of a * or /, then the operator and a right operand that factor has read. */
  lemma {:induction false} TermThenAtom(ls: seq<Lexeme>, pos: nat, l: Tree, vr: Num, end: nat)
    requires EndsWithEoe(ls) && At(ls, pos, Print(l, 1))
    requires var q := pos + |Print(l, 1)|;
             q < end < |ls| && (ls[q].Mult? || ls[q].Div?) && Factor(ls, q + 1) == Success(Parsed(vr, end))
    ensures var q := pos + |Print(l, 1)|;
            MultDiv(ls, pos) == MultDivRest(ls, end, Apply(MulOpOf(ls[q]), Eval(l), vr))
    decreases l, 3, 0
  {
    var q := pos + |Print(l, 1)|;
    TermParses(ls, pos, l);
    MultDivStep(ls, q, Eval(l), vr, end);
  }

  /** A tree printed as an operand of * or /: factor reads exactly its lexemes. */
  lemma {:induction false} AtomParses(ls: seq<Lexeme>, pos: nat, t: Tree)
    requires EndsWithEoe(ls) && At(ls, pos, Print(t, 2))
    requires pos + |Print(t, 2)| < |ls|
    ensures Factor(ls, pos) == Success(Parsed(Eval(t), pos + |Print(t, 2)|))
    decreases t, Rank(t, 2), 1
  {
    if t.Lit? {
      assert Print(t, 2)[0] == Number(t.value);
    } else {
      var g := if t.Group? then t.inner else t;
      assert Print(t, 2) == [LeftBracket] + Print(g, 0) + [RightBracket];
      BracketShape(ls, pos, g);
      SumParses(ls, pos + 1, g);
      FactorBracket(ls, pos, Eval(g), pos + 1 + |Print(g, 0)|);
    }
  }

  /** plusminus over a printed tree followed by Eoe or ')' returns the tree's value there. */
  lemma PlusMinusComputesEval(ls: seq<Lexeme>, pos: nat, t: Tree)
    requires EndsWithEoe(ls) && At(ls, pos, Print(t, 0))
    requires pos + |Print(t, 0)| < |ls| && EndsSum(ls[pos + |Print(t, 0)|])
    ensures PlusMinus(ls, pos) == Success(Parsed(Eval(t), pos + |Print(t, 0)|))
  {
    SumParses(ls, pos, t);
  }

  /**
   expr over a printed tree returns its value, whatever follows a closing
   bracket that ends it: the missing check that expr stopped at Eoe.
   */
  lemma ExprComputesEval(t: Tree, tail: seq<Lexeme>)
    requires EndsWithEoe(tail) && EndsSum(tail[0])
    ensures EndsWithEoe(Print(t, 0) + tail)
    ensures Expr(Print(t, 0) + tail) == Success(Eval(t))
  {
    var ls := Print(t, 0) + tail;
    PrintNeverEmptyOrEoe(t, 0);
    assert ls[|ls| - 1] == tail[|tail| - 1];
    assert ls[0] == Print(t, 0)[0];
    forall k | 0 <= k < |Print(t, 0)| ensures ls[0 + k] == Print(t, 0)[k] {
    }
    PlusMinusComputesEval(ls, 0, t);
  }

  /**
   A '+' or '-' after a complete sum must be followed by a number or '(':
   anything else there, a ')' or the sentinel among them, fails the whole expression.
   */
  lemma MissingOperandFails(t: Tree, op: Lexeme, l: Lexeme, rest: seq<Lexeme>)
    requires (op.Plus? || op.Minus?) && !l.Number? && !l.LeftBracket?
    requires EndsWithEoe([op, l] + rest)
    ensures EndsWithEoe(Print(t, 0) + ([op, l] + rest))
    ensures Expr(Print(t, 0) + ([op, l] + rest)) == Failure(ExpressionCannotBeResolved)
  {
    var tail := [op, l] + rest;
    var ls := Print(t, 0) + tail;
    var q := |Print(t, 0)|;
    PrintNeverEmptyOrEoe(t, 0);
    assert ls[|ls| - 1] == tail[|tail| - 1];
    assert ls[0] == Print(t, 0)[0];
    assert ls[q] == op && ls[q + 1] == l;
    forall k | 0 <= k < |Print(t, 0)| ensures ls[0 + k] == Print(t, 0)[k] {
    }
    SumParses(ls, 0, t);
    assert Factor(ls, q + 1).Failure?;
    assert MultDiv(ls, q + 1).Failure?;
  }

  /** A successful factor read a literal or a bracketed sum. */
  lemma FactorSound(ls: seq<Lexeme>, pos: nat) returns (t: Tree)
    requires InBounds(ls, pos) && Factor(ls, pos).Success?
    ensures var p := Factor(ls, pos).value;
            Prec(t) == 2 && Print(t, 2) == ls[pos..p.pos] && Eval(t) == p.value
    decreases |ls| - pos, 0
  {
    var p := Factor(ls, pos).value;
    if ls[pos].Number? {
      t := Lit(ls[pos].value);
    } else {
      var inner := PlusMinus(ls, pos + 1).value;
      var g := PlusMinusSound(ls, pos + 1);
      t := Group(g);
      assert ls[pos..p.pos] == [ls[pos]] + ls[pos + 1..inner.pos] + [ls[inner.pos]];
    }
  }

  /** A successful loop of multdiv extends the tree folded so far, still at the * / / level. */
  lemma MultDivRestSound(ls: seq<Lexeme>, pos: nat, acc: Num, start: nat, l: Tree) returns (t: Tree)
    requires InBounds(ls, pos) && MultDivRest(ls, pos, acc).Success?
    requires start <= pos && Prec(l) >= 1 && Print(l, 1) == ls[start..pos] && Eval(l) == acc
    ensures var p := MultDivRest(ls, pos, acc).value;
            start <= p.pos && Prec(t) >= 1 && Print(t, 1) == ls[start..p.pos] && Eval(t) == p.value
    decreases |ls| - pos, 0
  {
    if ls[pos].Mult? || ls[pos].Div? {
      var op := if ls[pos].Mult? then MulOp else DivOp;
      var f := Factor(ls, pos + 1).value;
      var ft := FactorSound(ls, pos + 1);
      var l' := Bin(op, l, ft);
      assert Print(l', 1) == Print(l, 1) + [OpLexeme(op)] + Print(ft, 2);
      SliceSplit(ls, start, pos, f.pos);
      t := MultDivRestSound(ls, f.pos, Apply(op, acc, f.value), start, l');
    } else {
      t := l;
    }
  }

  /** A successful multdiv read the print of a tree at the * / / level. */
  lemma MultDivSound(ls: seq<Lexeme>, pos: nat) returns (t: Tree)
    requires InBounds(ls, pos) && MultDiv(ls, pos).Success?
    ensures var p := MultDiv(ls, pos).value;
            Prec(t) >= 1 && Print(t, 1) == ls[pos..p.pos] && Eval(t) == p.value
    decreases |ls| - pos, 1
  {
    var f := Factor(ls, pos).value;
    var ft := FactorSound(ls, pos);
    assert Print(ft, 1) == Print(ft, 2);
    t := MultDivRestSound(ls, f.pos, f.value, pos, ft);
  }

  /** A successful loop of plusminus extends the tree folded so far. */
  lemma PlusMinusRestSound(ls: seq<Lexeme>, pos: nat, acc: Num, start: nat, l: Tree) returns (t: Tree)
    requires InBounds(ls, pos) && PlusMinusRest(ls, pos, acc).Success?
    requires start <= pos && Print(l, 0) == ls[start..pos] && Eval(l) == acc
    ensures var p := PlusMinusRest(ls, pos, acc).value;
            start <= p.pos && Print(t, 0) == ls[start..p.pos] && Eval(t) == p.value
    decreases |ls| - pos, 0
  {
    if ls[pos].Plus? || ls[pos].Minus? {
      var op := if ls[pos].Plus? then AddOp else SubOp;
      var m := MultDiv(ls, pos + 1).value;
      var mt := MultDivSound(ls, pos + 1);
      var l' := Bin(op, l, mt);
      assert Print(mt, 1) == Bare(mt);
      assert Print(l', 0) == Print(l, 0) + [OpLexeme(op)] + Print(mt, 1);
      SliceSplit(ls, start, pos, m.pos);
      t := PlusMinusRestSound(ls, m.pos, Apply(op, acc, m.value), start, l');
    } else {
      t := l;
    }
  }

  /** A successful plusminus read the print of a tree. */
  lemma PlusMinusSound(ls: seq<Lexeme>, pos: nat) returns (t: Tree)
    requires InBounds(ls, pos) && PlusMinus(ls, pos).Success?
    ensures var p := PlusMinus(ls, pos).value;
            Print(t, 0) == ls[pos..p.pos] && Eval(t) == p.value
    decreases |ls| - pos, 2
  {
    var m := MultDiv(ls, pos).value;
    var mt := MultDivSound(ls, pos);
    assert Print(mt, 0) == Print(mt, 1);
    t := PlusMinusRestSound(ls, m.pos, m.value, pos, mt);
  }

  /**
   A successful expr either met Eoe first and returned 0, or evaluated the
   print of a tree that is followed by Eoe or ')'.
   */
  lemma ExprSound(ls: seq<Lexeme>) returns (t: Tree, p: nat)
    requires EndsWithEoe(ls) && Expr(ls).Success? && !ls[0].Eoe?
    ensures p < |ls| && EndsSum(ls[p])
    ensures Print(t, 0) == ls[..p] && Eval(t) == Expr(ls).value
  {
    p := PlusMinus(ls, 0).value.pos;
    t := PlusMinusSound(ls, 0);
  }
}
